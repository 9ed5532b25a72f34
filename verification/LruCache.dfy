/** The classes of copilot-fork/src/util/common/cache.ts, proved against LruSequence. */
module LruCache {
  import opened Wrappers
  import opened Sequences

  import opened LruSequence

  class Node<T> {
    var key: Key
    var value: T
    var prev: Node?<T>
    var next: Node?<T>

    constructor (key: Key, value: T)
      ensures this.key == key && this.value == value && prev == null && next == null
    {
      this.key := key;
      this.value := value;
      prev := null;
      next := null;
    }
  }

  ghost function EntriesOf<T>(nodes: seq<Node<T>>): seq<Entry<T>>
    reads nodes
  {
    seq(|nodes|, i requires 0 <= i < |nodes| reads nodes => Entry(nodes[i].key, nodes[i].value))
  }

  // ---- The map beside the list ----

  /** The map holds exactly the nodes of the list, each under its key. */
  ghost predicate Mapped<T>(cache: map<Key, Node<T>>, nodes: seq<Node<T>>, entries: seq<Entry<T>>) {
    && |cache| == |nodes| == |entries| && Distinct(entries) && cache.Keys == Keys(entries)
    && (forall i :: 0 <= i < |nodes| ==> entries[i].key in cache && cache[entries[i].key] == nodes[i])
  }

  lemma {:induction false} MappedNone<T>()
    ensures Mapped<T>(map[], [], [])
  {
  }

  lemma {:induction false} MappedMeans<T>(cache: map<Key, Node<T>>, nodes: seq<Node<T>>, entries: seq<Entry<T>>,
          key: Key)
    requires Mapped(cache, nodes, entries)
    ensures |cache| == |nodes| == |entries| && Distinct(entries)
    ensures var at := IndexOf(entries, key);
      && (key in cache <==> at < |nodes|)
      && (key in cache ==> cache[key] == nodes[at])
  {
    hide IndexOf, Distinct;
    var at := IndexOf(entries, key);
    if at < |nodes| { assert entries[at].key == key; }
  }

  lemma {:induction false} KeysRemoved<T>(entries: seq<Entry<T>>, at: nat)
    requires Distinct(entries) && at < |entries|
    ensures Distinct(RemoveAt(entries, at)) && Keys(RemoveAt(entries, at)) == Keys(entries) - {entries[at].key}
  {
    hide RemoveAt;
    RemoveAtShape(entries, at);
    var rest := RemoveAt(entries, at);
    forall key | key in Keys(entries) && key != entries[at].key ensures key in Keys(rest) {
      var i :| 0 <= i < |entries| && entries[i].key == key;
      assert rest[if i < at then i else i - 1].key == key;
    }
  }

  /** Taking a node out of the list and its key out of the map. */
  lemma {:induction false} MappedWithout<T>(cache: map<Key, Node<T>>, nodes: seq<Node<T>>, entries: seq<Entry<T>>,
          at: nat)
    requires Mapped(cache, nodes, entries) && at < |nodes|
    ensures Mapped(cache - {entries[at].key}, RemoveAt(nodes, at), RemoveAt(entries, at))
  {
    hide RemoveAt, Keys;
    RemoveAtShape(nodes, at);
    RemoveAtShape(entries, at);
    KeysRemoved(entries, at);
    assert (cache - {entries[at].key}).Keys == cache.Keys - {entries[at].key};
  }

  lemma {:induction false} KeysPushed<T>(entries: seq<Entry<T>>, entry: Entry<T>)
    ensures Keys([entry] + entries) == Keys(entries) + {entry.key}
  {
    var all := [entry] + entries;
    forall key | key in Keys(all) ensures key in Keys(entries) + {entry.key} {
      var i :| 0 <= i < |all| && all[i].key == key;
      if i > 0 { assert entries[i - 1].key == key; }
    }
    forall key | key in Keys(entries) + {entry.key} ensures key in Keys(all) {
      if key in Keys(entries) {
        var i :| 0 <= i < |entries| && entries[i].key == key;
        assert all[i + 1].key == key;
      } else {
        assert all[0].key == key;
      }
    }
  }

  lemma {:induction false} DistinctPushed<T>(entries: seq<Entry<T>>, entry: Entry<T>)
    requires Distinct(entries) && entry.key !in Keys(entries)
    ensures Distinct([entry] + entries)
  {
    var all := [entry] + entries;
    forall i, j | 0 <= i < j < |all| ensures all[i].key != all[j].key {
      assert entries[j - 1].key in Keys(entries);
    }
  }

  /** Putting a node with a new key in front. */
  lemma {:induction false} MappedWith<T>(cache: map<Key, Node<T>>, nodes: seq<Node<T>>, entries: seq<Entry<T>>,
      node: Node<T>, entry: Entry<T>)
    requires Mapped(cache, nodes, entries) && entry.key !in cache
    ensures Mapped(cache[entry.key := node], [node] + nodes, [entry] + entries)
  {
    hide Keys, Distinct;
    KeysPushed(entries, entry);
    DistinctPushed(entries, entry);
    var all, cache' := [entry] + entries, cache[entry.key := node];
    forall i | 0 <= i < |all| ensures all[i].key in cache' && cache'[all[i].key] == ([node] + nodes)[i] {
      if i > 0 { assert all[i] == entries[i - 1]; }
    }
  }

  /** Moving a node to the front, perhaps with a new value. */
  lemma {:induction false} MappedMoved<T>(cache: map<Key, Node<T>>, nodes: seq<Node<T>>, entries: seq<Entry<T>>,
          at: nat, value: T)
    requires Mapped(cache, nodes, entries) && at < |nodes| == |entries|
    ensures Mapped(cache, [nodes[at]] + RemoveAt(nodes, at), [Entry(entries[at].key, value)] + RemoveAt(entries, at))
  {
    hide RemoveAt, Mapped;
    var key := entries[at].key;
    MappedWithout(cache, nodes, entries, at);
    WithoutAndWith(cache, nodes, entries, at);
    MappedWith(cache - {key}, RemoveAt(nodes, at), RemoveAt(entries, at), nodes[at], Entry(key, value));
  }

  lemma {:induction false} WithoutAndWith<T>(cache: map<Key, Node<T>>, nodes: seq<Node<T>>, entries: seq<Entry<T>>,
          at: nat)
    requires Mapped(cache, nodes, entries) && at < |nodes|
    ensures (cache - {entries[at].key})[entries[at].key := nodes[at]] == cache
  {
    hide Keys;
    assert entries[at].key in cache;
  }

  // ---- The cache ----

  lemma {:induction false} RemoveInside<T>(first: T, s: seq<T>, last: T, k: nat)
    requires k < |s|
    ensures [first] + RemoveAt(s, k) + [last] == RemoveAt([first] + s + [last], k + 1)
  {
    hide RemoveAt;
    RemoveAtShape(s, k);
    RemoveAtShape([first] + s + [last], k + 1);
  }

  class LRUCache<T> {
    const capacity: nat
    var cache: map<Key, Node<T>>
    const head: Node<T>
    const tail: Node<T>
    /** The nodes between the sentinels, the most recently used one first. */
    ghost var nodes: seq<Node<T>>

    ghost function Chain(): seq<Node<T>>
      reads this`nodes
    {
      [head] + nodes + [tail]
    }

    /** Both directions of links lead along the chain, which meets no node twice. */
    ghost predicate Linked()
      reads this`nodes, Chain()`prev, Chain()`next
    {
      && (forall i, j :: 0 <= i < j < |Chain()| ==> Chain()[i] != Chain()[j])
      && (forall i, j :: 0 <= i < j < |Chain()| && j == i + 1 ==>
          Chain()[i].next == Chain()[j] && Chain()[j].prev == Chain()[i])
    }

    ghost predicate Valid()
      reads this, Chain(), nodes
    {
      capacity >= 1 && |nodes| <= capacity && Linked() && Mapped(cache, nodes, Contents())
    }

    ghost function Contents(): seq<Entry<T>>
      reads this`nodes, nodes
    {
      EntriesOf(nodes)
    }

    constructor (size: nat, nothing: T)
      requires size >= 1
      ensures Valid() && fresh(Chain()) && capacity == size && Contents() == []
    {
      capacity := size;
      cache := map[];
      var first := new Node(Key(""), nothing);
      var last := new Node(Key(""), nothing);
      head := first;
      tail := last;
      nodes := [];
      new;
      hide Mapped;
      head.next := tail;
      tail.prev := head;
      MappedNone<T>();
    }

    /** The size check in front of the construction. */
    static method Create(size: int, nothing: T) returns (r: Result<LRUCache<T>>)
      ensures r.Ok? <==> size >= 1
      ensures r.Ok? ==> r.value.Valid() && r.value.capacity == size && r.value.Contents() == []
    {
      if size < 1 {
        return Error("Cache size must be at least 1");
      }
      var created := new LRUCache(size, nothing);
      r := Ok(created);
    }

    method AddNode(node: Node<T>)
      requires Linked() && node !in Chain()
      modifies this`nodes, node`prev, node`next, head`next, Chain()`prev
      ensures Linked() && nodes == [node] + old(nodes)
      ensures Contents() == [Entry(node.key, node.value)] + old(Contents())
    {
      node.prev := head;
      node.next := head.next;
      ghost var chain := Chain();
      assert chain[0] == head && head.next == chain[1];
      head.next.prev := node;
      head.next := node;
      nodes := [node] + nodes;
      assert Chain() == [head, node] + chain[1..];
    }

    method RemoveNode(node: Node<T>, ghost k: nat)
      requires Linked() && k < |nodes| && nodes[k] == node
      modifies this`nodes, Chain()`prev, Chain()`next
      ensures Linked() && nodes == RemoveAt(old(nodes), k)
      ensures Contents() == RemoveAt(old(Contents()), k)
      ensures node !in Chain() && forall i :: 0 <= i < |Chain()| ==> Chain()[i] in old(Chain())
    {
      hide RemoveAt;
      ghost var chain, entries := Chain(), Contents();
      assert chain[k + 1] == node;
      var prev := node.prev;
      var next := node.next;
      assert prev == chain[k] && next == chain[k + 2];
      prev.next := next;
      next.prev := prev;
      RemoveAtShape(nodes, k);
      RemoveAtShape(entries, k);
      RemoveInside(head, nodes, tail, k);
      RemoveAtShape(chain, k + 1);
      nodes := RemoveAt(nodes, k);
    }

    method MoveToHead(node: Node<T>, ghost k: nat)
      requires Linked() && k < |nodes| && nodes[k] == node
      modifies this`nodes, Chain()`prev, Chain()`next
      ensures Linked() && nodes == [node] + RemoveAt(old(nodes), k)
      ensures Contents() == [old(Contents())[k]] + RemoveAt(old(Contents()), k)
    {
      hide Linked, RemoveAt;
      ghost var chain := Chain();
      assert chain[0] == head && chain[k + 1] == node;
      RemoveNode(node, k);
      AddNode(node);
    }

    method PopTail() returns (res: Node<T>)
      requires Linked() && |nodes| > 0
      modifies this`nodes, Chain()`prev, Chain()`next
      ensures res == old(nodes)[|old(nodes)| - 1]
      ensures Linked() && nodes == RemoveAt(old(nodes), |old(nodes)| - 1)
      ensures Contents() == RemoveAt(old(Contents()), |old(nodes)| - 1)
    {
      assert Chain()[|nodes|] == nodes[|nodes| - 1] && Chain()[|nodes| + 1] == tail;
      res := tail.prev;
      hide Linked, RemoveAt;
      RemoveNode(res, |nodes| - 1);
    }

    method Clear()
      requires Valid()
      modifies this`cache, this`nodes, head`next, tail`prev
      ensures Valid() && Contents() == []
    {
      hide Mapped;
      assert Chain()[0] == head && Chain()[|nodes| + 1] == tail;
      MappedNone<T>();
      cache := map[];
      head.next := tail;
      tail.prev := head;
      nodes := [];
      assert Contents() == [];
    }

    method DeleteKey(key: Key) returns (value: Option<T>)
      requires Valid()
      modifies this`cache, this`nodes, Chain()`prev, Chain()`next
      ensures Valid() && Contents() == Without(old(Contents()), key)
      ensures value == Lookup(old(Contents()), key)
    {
      hide Linked, IndexOf, RemoveAt, Mapped;
      ghost var entries, at := Contents(), IndexOf(Contents(), key);
      MappedMeans(cache, nodes, entries, key);
      RemoveAtShape(entries, at);
      if key !in cache {
        assert entries == Without(entries, key);
        return None;
      }
      var node := cache[key];
      assert entries[at].key == key;
      MappedWithout(cache, nodes, entries, at);
      RemoveAtShape(nodes, at);
      RemoveNode(node, at);
      cache := cache - {key};
      value := Some(node.value);
    }

    method Get(key: Key) returns (value: Option<T>)
      requires Valid()
      modifies this`nodes, Chain()`prev, Chain()`next
      ensures Valid() && Contents() == AfterGet(old(Contents()), key)
      ensures value == Lookup(old(Contents()), key)
    {
      hide Linked, IndexOf, RemoveAt, Mapped;
      ghost var entries, at := Contents(), IndexOf(Contents(), key);
      MappedMeans(cache, nodes, entries, key);
      if key !in cache {
        return None;
      }
      var node := cache[key];
      MappedMoved(cache, nodes, entries, at, node.value);
      RemoveAtShape(nodes, at);
      MoveToHead(node, at);
      value := Some(node.value);
    }

    /** The keys, the most recently used one first. */
    method Keys() returns (keys: seq<Key>)
      requires Valid()
      ensures |keys| == |Contents()| && forall i :: 0 <= i < |keys| ==> keys[i] == Contents()[i].key
    {
      hide Mapped;
      keys := [];
      assert Chain()[0] == head;
      var current := head.next;
      while current != tail
        invariant |keys| <= |nodes| && current == Chain()[|keys| + 1]
        invariant forall i :: 0 <= i < |keys| ==> keys[i] == nodes[i].key
        decreases |nodes| - |keys|
      {
        assert Chain()[|nodes| + 1] == tail && current == nodes[|keys|];
        keys := keys + [current.key];
        current := current.next;
      }
      assert Chain()[|nodes| + 1] == tail;
    }

    method GetValues() returns (values: seq<T>)
      requires Valid()
      ensures values == Values(Contents())
    {
      hide Mapped;
      values := [];
      assert Chain()[0] == head;
      var current := head.next;
      while current != tail
        invariant |values| <= |nodes| && current == Chain()[|values| + 1]
        invariant forall i :: 0 <= i < |values| ==> values[i] == nodes[i].value
        decreases |nodes| - |values|
      {
        assert Chain()[|nodes| + 1] == tail && current == nodes[|values|];
        values := values + [current.value];
        current := current.next;
      }
      assert Chain()[|nodes| + 1] == tail;
    }

    method Put(key: Key, value: T) returns (evicted: Option<Entry<T>>)
      requires Valid()
      modifies this`cache, this`nodes, Chain()`prev, Chain()`next, nodes`value
      ensures Valid() && Contents() == AfterPut(capacity, old(Contents()), key, value)
      ensures evicted == Evicted(capacity, old(Contents()), key)
    {
      hide Linked, IndexOf, RemoveAt, Mapped, AfterPut, Evicted;
      ghost var entries, at := Contents(), IndexOf(Contents(), key);
      MappedMeans(cache, nodes, entries, key);
      if key in cache {
        var node := cache[key];
        KnownEntry(capacity, entries, key, value);
        MappedMoved(cache, nodes, entries, at, value);
        RemoveAtShape(nodes, at);
        RemoveAtShape(entries, at);
        node.value := value;
        RemoveAtShape(Contents(), at);
        assert RemoveAt(Contents(), at) == RemoveAt(entries, at);
        MoveToHead(node, at);
        evicted := None;
      } else {
        evicted := PutNew(key, value);
      }
    }

    /** The branch of Put for a new key. */
    method PutNew(key: Key, value: T) returns (evicted: Option<Entry<T>>)
      requires Valid() && key !in cache
      modifies this`cache, this`nodes, Chain()`prev, Chain()`next
      ensures Valid() && Contents() == AfterPut(capacity, old(Contents()), key, value)
      ensures evicted == Evicted(capacity, old(Contents()), key)
    {
      hide Linked, IndexOf, RemoveAt, Mapped, AfterPut, Evicted;
      ghost var entries, chain := Contents(), Chain();
      MappedMeans(cache, nodes, entries, key);
      NewEntry(capacity, entries, key, value);
      assert chain[0] == head;
      var node := new Node(key, value);
      MappedWith(cache, nodes, entries, node, Entry(key, value));
      cache := cache[key := node];
      AddNode(node);
      assert |cache| == |entries| + 1 && Contents() == [Entry(key, value)] + entries;
      evicted := None;
      if |cache| > capacity {
        assert |entries| == capacity;
        assert Chain() == [head, node] + chain[1..];
        assert forall i :: 0 <= i < |Chain()| ==> Chain()[i] == node || Chain()[i] in chain;
        var tail := EvictTail();
        evicted := Some(tail);
      }
    }

    /** Takes the least recently used entry out of the list and the map. */
    method EvictTail() returns (evicted: Entry<T>)
      requires capacity >= 1 && Linked() && Mapped(cache, nodes, Contents()) && |nodes| == capacity + 1
      modifies this`cache, this`nodes, Chain()`prev, Chain()`next
      ensures Valid() && evicted == old(Contents())[capacity] && Contents() == RemoveAt(old(Contents()), capacity)
    {
      hide Linked, RemoveAt, Mapped;
      MappedWithout(cache, nodes, Contents(), capacity);
      RemoveAtShape(nodes, capacity);
      var popped := PopTail();
      cache := cache - {popped.key};
      evicted := Entry(popped.key, popped.value);
    }
  }

  // ---- The cache that disposes of its values ----

  class DisposablesLRUCache<T> {
    const actual: LRUCache<T>
    /** The values disposed of, in order. */
    var disposed: seq<T>

    ghost predicate Valid()
      reads this, actual, actual.Chain(), actual.nodes
    {
      actual.Valid()
    }

    constructor (size: nat, nothing: T)
      requires size >= 1
      ensures Valid() && actual.capacity == size && actual.Contents() == [] && disposed == []
    {
      actual := new LRUCache(size, nothing);
      disposed := [];
    }

    method Clear()
      requires Valid()
      modifies this`disposed, actual, actual.Chain()
      ensures Valid() && actual.Contents() == Step(actual.capacity, old(actual.Contents()), Operation.Clear)
      ensures disposed == old(disposed) + Disposes(actual.capacity, old(actual.Contents()), Operation.Clear)
    {
      hide LRUCache.Linked, Mapped;
      var values := actual.GetValues();
      ghost var entries, before := actual.Contents(), disposed;
      var i := 0;
      while i < |values|
        modifies this`disposed
        invariant i <= |values| && disposed == before + values[..i]
      {
        disposed := disposed + [values[i]];
        i := i + 1;
      }
      assert values[..i] == values;
      assert actual.Chain()[0] == actual.head && actual.Chain()[|actual.nodes| + 1] == actual.tail;
      actual.Clear();
    }

    method DeleteKey(key: Key)
      requires Valid()
      modifies this`disposed, actual, actual.Chain()
      ensures Valid() && actual.Contents() == Step(actual.capacity, old(actual.Contents()), Operation.DeleteKey(key))
      ensures disposed == old(disposed) + Disposes(actual.capacity, old(actual.Contents()), Operation.DeleteKey(key))
    {
      hide LRUCache.Linked, IndexOf, Without, Mapped;
      var value := actual.DeleteKey(key);
      if value.Some? {
        disposed := disposed + [value.value];
      }
    }

    method Get(key: Key) returns (value: Option<T>)
      requires Valid()
      modifies actual, actual.Chain()
      ensures Valid() && actual.Contents() == Step(actual.capacity, old(actual.Contents()), Operation.Get(key))
      ensures value == Lookup(old(actual.Contents()), key)
    {
      value := actual.Get(key);
    }

    method Put(key: Key, value: T)
      requires Valid()
      modifies this`disposed, actual, actual.Chain(), actual.nodes
      ensures Valid() && actual.Contents() == Step(actual.capacity, old(actual.Contents()), Operation.Put(key, value))
      ensures disposed == old(disposed) + Disposes(actual.capacity, old(actual.Contents()), Operation.Put(key, value))
    {
      hide LRUCache.Linked, IndexOf, AfterPut, Evicted, Mapped;
      var evicted := actual.Put(key, value);
      if evicted.Some? {
        disposed := disposed + [evicted.value.value];
      }
    }
  }
}
