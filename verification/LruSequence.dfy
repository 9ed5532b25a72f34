/** What a cache of copilot-fork/src/util/common/cache.ts holds, as a list with the most recently used
    entry first, and what whole runs of operations make of it. */
module LruSequence {
  import opened Wrappers
  import opened Sequences

  datatype Key = Key(text: string)

  datatype Entry<+T> = Entry(key: Key, value: T)

  datatype Operation<+T> = Get(key: Key) | Put(key: Key, value: T) | DeleteKey(key: Key) | Clear

  predicate Holds<T>(entries: seq<Entry<T>>, key: Key) {
    exists i :: 0 <= i < |entries| && entries[i].key == key
  }

  predicate Distinct<T>(entries: seq<Entry<T>>) {
    forall i, j :: 0 <= i < j < |entries| ==> entries[i].key != entries[j].key
  }

  function IndexOf<T>(entries: seq<Entry<T>>, key: Key): (i: nat)
    ensures i <= |entries| && forall j :: 0 <= j < i ==> entries[j].key != key
    ensures i < |entries| ==> entries[i].key == key
  {
    if entries == [] || entries[0].key == key then 0 else 1 + IndexOf(entries[1..], key)
  }

  function Lookup<T>(entries: seq<Entry<T>>, key: Key): Option<T> {
    var i := IndexOf(entries, key);
    if i < |entries| then Some(entries[i].value) else None
  }

  function Without<T>(entries: seq<Entry<T>>, key: Key): seq<Entry<T>> {
    RemoveAt(entries, IndexOf(entries, key))
  }

  // ---- The operations ----

  function AfterGet<T>(entries: seq<Entry<T>>, key: Key): seq<Entry<T>> {
    var value := Lookup(entries, key);
    if value.Some? then [Entry(key, value.value)] + Without(entries, key) else entries
  }

  /** Putting a new entry into a full cache drops the last one. */
  predicate Evicts<T>(capacity: nat, entries: seq<Entry<T>>, key: Key) {
    IndexOf(entries, key) == |entries| >= capacity > 0
  }

  function Evicted<T>(capacity: nat, entries: seq<Entry<T>>, key: Key): Option<Entry<T>> {
    if Evicts(capacity, entries, key) then Some(entries[|entries| - 1]) else None
  }

  function AfterPut<T>(capacity: nat, entries: seq<Entry<T>>, key: Key, value: T): seq<Entry<T>> {
    [Entry(key, value)] + if Evicts(capacity, entries, key) then entries[..|entries| - 1] else Without(entries, key)
  }

  function Step<T>(capacity: nat, entries: seq<Entry<T>>, op: Operation<T>): seq<Entry<T>> {
    match op
    case Get(key) => AfterGet(entries, key)
    case Put(key, value) => AfterPut(capacity, entries, key, value)
    case DeleteKey(key) => Without(entries, key)
    case Clear => []
  }

  // ---- The shape of a step: at most one entry is put in front, at most one is removed ----

  /** The entry an operation uses, if any. */
  function Front<T>(entries: seq<Entry<T>>, op: Operation<T>): (front: seq<Entry<T>>)
    ensures |front| <= 1
  {
    match op
    case Get(key) => if IndexOf(entries, key) < |entries| then [entries[IndexOf(entries, key)]] else []
    case Put(key, value) => [Entry(key, value)]
    case _ => []
  }

  /** Where the entry stood that an operation takes out, if any. */
  function Gone<T>(capacity: nat, entries: seq<Entry<T>>, op: Operation<T>): nat
    requires !op.Clear?
  {
    if op.Put? && Evicts(capacity, entries, op.key) then |entries| - 1 else IndexOf(entries, op.key)
  }

  lemma {:induction false} StepShape<T>(capacity: nat, entries: seq<Entry<T>>, op: Operation<T>)
    requires !op.Clear?
    ensures Step(capacity, entries, op) == Front(entries, op) + RemoveAt(entries, Gone(capacity, entries, op))
  {
  }

  lemma {:induction false} KnownEntry<T>(capacity: nat, entries: seq<Entry<T>>, key: Key, value: T)
    requires IndexOf(entries, key) < |entries|
    ensures AfterPut(capacity, entries, key, value) == [Entry(key, value)] + RemoveAt(entries, IndexOf(entries, key))
    ensures Evicted(capacity, entries, key) == None
  {
  }

  /** A put of a new key, as pushing the entry and then dropping the last one if there are too many. */
  lemma {:induction false} NewEntry<T>(capacity: nat, entries: seq<Entry<T>>, key: Key, value: T)
    requires IndexOf(entries, key) == |entries| && capacity >= 1
    ensures var all := [Entry(key, value)] + entries;
      && AfterPut(capacity, entries, key, value) == (if |all| > capacity then RemoveAt(all, |entries|) else all)
      && Evicted(capacity, entries, key) == if |all| > capacity then Some(all[|entries|]) else None
  {
  }

  /** The contents after a run of operations. */
  function Run<T>(capacity: nat, start: seq<Entry<T>>, ops: seq<Operation<T>>): seq<Entry<T>>
    decreases |ops|
  {
    if ops == [] then start else Step(capacity, Run(capacity, start, ops[..|ops| - 1]), ops[|ops| - 1])
  }

  // ---- Keys stay distinct, and fit ----

  /** The entry put in front is the only one with its key. */
  lemma {:induction false} FrontIsNew<T>(capacity: nat, entries: seq<Entry<T>>, op: Operation<T>)
    requires Distinct(entries) && !op.Clear?
    ensures var rest := RemoveAt(entries, Gone(capacity, entries, op));
      && Distinct(rest)
      && (Front(entries, op) != [] ==> Front(entries, op)[0].key == op.key)
      && (Front(entries, op) != [] || op.DeleteKey? ==> forall i :: 0 <= i < |rest| ==> rest[i].key != op.key)
  {
    hide IndexOf, RemoveAt;
    RemoveAtShape(entries, Gone(capacity, entries, op));
  }

  lemma {:induction false} StepKeepsDistinct<T>(capacity: nat, entries: seq<Entry<T>>, op: Operation<T>)
    requires Distinct(entries) && |entries| <= capacity && capacity >= 1
    ensures Distinct(Step(capacity, entries, op)) && |Step(capacity, entries, op)| <= capacity
  {
    hide IndexOf, RemoveAt, Step;
    if op.Clear? {
      ClearIs(capacity, entries, op);
    } else {
      StepShape(capacity, entries, op);
      FrontIsNew(capacity, entries, op);
      RemoveAtShape(entries, Gone(capacity, entries, op));
    }
  }

  lemma {:induction false} ClearIs<T>(capacity: nat, entries: seq<Entry<T>>, op: Operation<T>)
    requires op.Clear?
    ensures Step(capacity, entries, op) == []
  {
  }

  lemma {:induction false} RunKeepsDistinct<T>(capacity: nat, start: seq<Entry<T>>, ops: seq<Operation<T>>)
    requires capacity >= 1 && Distinct(start) && |start| <= capacity
    ensures Distinct(Run(capacity, start, ops)) && |Run(capacity, start, ops)| <= capacity
    decreases |ops|
  {
    if ops != [] {
      RunKeepsDistinct(capacity, start, ops[..|ops| - 1]);
      StepKeepsDistinct(capacity, Run(capacity, start, ops[..|ops| - 1]), ops[|ops| - 1]);
    }
  }

  // ---- The order is the order of last use ----

  /** An operation uses a key when it puts it, or gets it and finds it. */
  predicate Uses<T>(entries: seq<Entry<T>>, op: Operation<T>, key: Key) {
    (op.Put? && op.key == key) || (op.Get? && op.key == key && Holds(entries, key))
  }

  /** The number of the last operation that used the key, counted from 1; 0 if there is none. */
  function LastUse<T>(capacity: nat, ops: seq<Operation<T>>, key: Key): (n: nat)
    ensures n <= |ops|
    decreases |ops|
  {
    if ops == [] then 0
    else
      var before, op := ops[..|ops| - 1], ops[|ops| - 1];
      if Uses(Run(capacity, [], before), op, key) then |ops| else LastUse(capacity, before, key)
  }

  ghost predicate RecentFirst<T>(capacity: nat, ops: seq<Operation<T>>, entries: seq<Entry<T>>) {
    && (forall i :: 0 <= i < |entries| ==> LastUse(capacity, ops, entries[i].key) > 0)
    && (forall i, j :: 0 <= i < j < |entries| ==>
        LastUse(capacity, ops, entries[i].key) > LastUse(capacity, ops, entries[j].key))
  }

  lemma {:induction false} RemoveAtRecentFirst<T>(capacity: nat, ops: seq<Operation<T>>, entries: seq<Entry<T>>,
          at: nat)
    requires RecentFirst(capacity, ops, entries)
    ensures RecentFirst(capacity, ops, RemoveAt(entries, at))
  {
    hide LastUse, RemoveAt;
    RemoveAtShape(entries, at);
  }

  /** An operation puts the key it uses in front, and changes no other key's last use. */
  lemma {:induction false} UseGoesFirst<T>(capacity: nat, ops: seq<Operation<T>>, op: Operation<T>, used: seq<Entry<T>>,
      rest: seq<Entry<T>>)
    requires RecentFirst(capacity, ops, rest)
    requires |used| <= 1 && forall key :: Uses(Run(capacity, [], ops), op, key) <==> used != [] && used[0].key == key
    requires used != [] ==> forall i :: 0 <= i < |rest| ==> rest[i].key != used[0].key
    ensures RecentFirst(capacity, ops + [op], used + rest)
  {
    hide Run, Uses;
    var all := ops + [op];
    assert all[..|ops|] == ops;
    var entries := used + rest;
    forall i | 0 <= i < |entries|
      ensures LastUse(capacity, all, entries[i].key)
          == if i < |used| then |all| else LastUse(capacity, ops, rest[i - |used|].key)
    {
    }
  }

  lemma {:induction false} FrontIsUsed<T>(entries: seq<Entry<T>>, op: Operation<T>)
    ensures forall key :: Uses(entries, op, key) <==> Front(entries, op) != [] && Front(entries, op)[0].key == key
  {
    if op.Get? && IndexOf(entries, op.key) < |entries| {
      assert Holds(entries, op.key);
    }
  }

  /** After any run the entries stand in the order of their last use, so that the entry dropped from a
      full cache is the one whose last use is longest ago. */
  lemma {:induction false} LeastRecentIsLast<T>(capacity: nat, ops: seq<Operation<T>>)
    requires capacity >= 1
    ensures RecentFirst(capacity, ops, Run(capacity, [], ops))
    decreases |ops|
  {
    hide RecentFirst, RemoveAt, Distinct, LastUse, Step, Front, Gone, Uses;
    if ops == [] {
      NoneRecentFirst(capacity, ops);
    } else {
      var before, op := ops[..|ops| - 1], ops[|ops| - 1];
      var entries := Run(capacity, [], before);
      assert ops == before + [op];
      if op.Clear? {
        ClearIs(capacity, entries, op);
        NoneRecentFirst(capacity, ops);
      } else {
        NoneDistinct<T>();
        RunKeepsDistinct(capacity, [], before);
        LeastRecentIsLast(capacity, before);
        RemoveAtRecentFirst(capacity, before, entries, Gone(capacity, entries, op));
        FrontIsNew(capacity, entries, op);
        FrontIsUsed(entries, op);
        UseGoesFirst(capacity, before, op, Front(entries, op), RemoveAt(entries, Gone(capacity, entries, op)));
        StepShape(capacity, entries, op);
      }
    }
  }

  lemma {:induction false} NoneRecentFirst<T>(capacity: nat, ops: seq<Operation<T>>)
    ensures RecentFirst(capacity, ops, [])
  {
  }

  lemma {:induction false} NoneDistinct<T>()
    ensures Distinct<T>([])
  {
  }

  // ---- Values are the latest ones ----

  predicate Removes<T>(op: Operation<T>, key: Key) {
    op.Clear? || (op.DeleteKey? && op.key == key)
  }

  /** The value last put for the key, unless it has been removed since. */
  function LastPut<T>(ops: seq<Operation<T>>, key: Key): Option<T>
    decreases |ops|
  {
    if ops == [] then None
    else
      var op := ops[|ops| - 1];
      if op.Put? && op.key == key then Some(op.value)
      else if Removes(op, key) then None
      else LastPut(ops[..|ops| - 1], key)
  }

  /** An entry's value is the one last put for its key, which has not been removed since. */
  lemma {:induction false} ValueIsLatest<T>(capacity: nat, ops: seq<Operation<T>>, i: nat)
    requires capacity >= 1 && i < |Run(capacity, [], ops)|
    ensures var entry := Run(capacity, [], ops)[i]; LastPut(ops, entry.key) == Some(entry.value)
    decreases |ops|
  {
    hide Distinct, Gone, RemoveAt, IndexOf, Step;
    var before, op := ops[..|ops| - 1], ops[|ops| - 1];
    var entries := Run(capacity, [], before);
    if op.Clear? {
      ClearIs(capacity, entries, op);
    } else {
      var front, gone := Front(entries, op), Gone(capacity, entries, op);
      StepShape(capacity, entries, op);
      RemoveAtShape(entries, gone);
      NoneDistinct<T>();
      RunKeepsDistinct(capacity, [], before);
      FrontIsNew(capacity, entries, op);
      if i >= |front| {
        ValueIsLatest(capacity, before, if i - |front| < gone then i - |front| else i - |front| + 1);
      } else if op.Get? {
        ValueIsLatest(capacity, before, IndexOf(entries, op.key));
      }
    }
  }

  /** Looking a key up finds a value exactly when the key is held, and then the one last put. */
  lemma {:induction false} LookupIsLatest<T>(capacity: nat, ops: seq<Operation<T>>, key: Key)
    requires capacity >= 1
    ensures var entries := Run(capacity, [], ops);
      && (Lookup(entries, key).Some? <==> Holds(entries, key))
      && (Holds(entries, key) ==> Lookup(entries, key) == LastPut(ops, key))
  {
    hide Run, LastPut;
    var entries := Run(capacity, [], ops);
    var i := IndexOf(entries, key);
    if i < |entries| {
      ValueIsLatest(capacity, ops, i);
    }
  }

  // ---- How long an entry stays ----

  ghost function Keys<T>(entries: seq<Entry<T>>): set<Key> {
    set i | 0 <= i < |entries| :: entries[i].key
  }

  ghost function Used<T>(ops: seq<Operation<T>>): set<Key>
    decreases |ops|
  {
    if ops == [] then {}
    else
      var op := ops[|ops| - 1];
      Used(ops[..|ops| - 1]) + if op.Get? || op.Put? then {op.key} else {}
  }

  lemma {:induction false} KeysCount<T>(entries: seq<Entry<T>>)
    requires Distinct(entries)
    ensures |Keys(entries)| == |entries|
    decreases |entries|
  {
    if entries != [] {
      var init, last := entries[..|entries| - 1], entries[|entries| - 1].key;
      KeysCount(init);
      assert Keys(entries) == Keys(init) + {last} && last !in Keys(init);
    }
  }

  /** The key is held, and only keys used in the meantime stand before it. */
  ghost predicate StaysBehind<T>(entries: seq<Entry<T>>, key: Key, used: set<Key>) {
    IndexOf(entries, key) < |entries| && Keys(entries[..IndexOf(entries, key)]) <= used - {key}
  }

  /** An entry that was used stays until it is removed or as many other keys as the cache can hold have
      been used. */
  lemma {:induction false} StaysWhileRecent<T>(capacity: nat, start: seq<Entry<T>>, ops: seq<Operation<T>>, key: Key)
    requires capacity >= 1 && Distinct(start) && 1 <= |start| <= capacity && start[0].key == key
    requires forall i :: 0 <= i < |ops| ==> !Removes(ops[i], key)
    requires |Used(ops) - {key}| < capacity
    ensures StaysBehind(Run(capacity, start, ops), key, Used(ops)) && Holds(Run(capacity, start, ops), key)
    decreases |ops|
  {
    if ops != [] {
      var before, op := ops[..|ops| - 1], ops[|ops| - 1];
      assert Used(before) - {key} <= Used(ops) - {key};
      FewerElements(Used(before) - {key}, Used(ops) - {key});
      StaysWhileRecent(capacity, start, before, key);
      RunKeepsDistinct(capacity, start, before);
      StepStaysBehind(capacity, Run(capacity, start, before), op, key, Used(before), Used(ops));
    }
  }

  lemma {:induction false} FewerElements(a: set<Key>, b: set<Key>)
    requires a <= b
    ensures |a| <= |b|
  {
    assert b == a + (b - a);
  }

  lemma {:induction false} BehindAt<T>(entries: seq<Entry<T>>, key: Key, i: nat, used: set<Key>)
    requires i < |entries| && entries[i].key == key && forall j :: 0 <= j < i ==> entries[j].key in used - {key}
    ensures StaysBehind(entries, key, used)
  {
    assert IndexOf(entries, key) == i;
    var front := entries[..i];
    forall k | k in Keys(front) ensures k in used - {key} {
      var j :| 0 <= j < |front| && front[j].key == k;
      assert entries[j].key == k;
    }
  }

  lemma {:induction false} BehindMeans<T>(entries: seq<Entry<T>>, key: Key, used: set<Key>) returns (i: nat)
    requires StaysBehind(entries, key, used)
    ensures i < |entries| && i == IndexOf(entries, key) && entries[i].key == key
    ensures forall j :: 0 <= j < i ==> entries[j].key in used - {key}
  {
    i := IndexOf(entries, key);
    forall j | 0 <= j < i ensures entries[j].key in used - {key} {
      assert entries[..i][j].key == entries[j].key;
      assert Holds(entries[..i], entries[j].key);
    }
  }

  /** The last entry of a full cache has the keys of all the others before it. */
  lemma {:induction false} NotLast<T>(entries: seq<Entry<T>>, key: Key, i: nat, other: Key, used: set<Key>)
    requires Distinct(entries) && i < |entries| && entries[i].key == key != other
    requires IndexOf(entries, other) == |entries|
    requires forall j :: 0 <= j < i ==> entries[j].key in used - {key}
    requires other in used && |used - {key}| < |entries|
    ensures i < |entries| - 1
  {
    var front := entries[..i];
    KeysCount(front);
    assert forall j :: 0 <= j < i ==> entries[j].key == front[j].key;
    assert other !in Keys(front);
    assert Keys(front) + {other} <= used - {key};
    FewerElements(Keys(front) + {other}, used - {key});
  }

  lemma {:induction false} StepStaysBehind<T>(capacity: nat, entries: seq<Entry<T>>, op: Operation<T>, key: Key,
      used: set<Key>, usedNow: set<Key>)
    requires capacity >= 1 && Distinct(entries) && |entries| <= capacity && StaysBehind(entries, key, used)
    requires !Removes(op, key)
    requires usedNow == used + (if op.Get? || op.Put? then {op.key} else {}) && |usedNow - {key}| < capacity
    ensures StaysBehind(Step(capacity, entries, op), key, usedNow)
  {
    hide StaysBehind, Distinct, IndexOf, RemoveAt, Step;
    var i := BehindMeans(entries, key, used);
    var front, gone := Front(entries, op), Gone(capacity, entries, op);
    StepShape(capacity, entries, op);
    RemoveAtShape(entries, gone);
    var after := Step(capacity, entries, op);
    if op.key == key {
      BehindAt(after, key, 0, usedNow);
    } else {
      if op.Put? && Evicts(capacity, entries, op.key) { NotLast(entries, key, i, op.key, usedNow); }
      BehindAt(after, key, |front| + if gone < i then i - 1 else i, usedNow);
    }
  }

  // ---- Which values a disposing cache disposes of ----

  function Values<T>(entries: seq<Entry<T>>): (values: seq<T>)
    ensures |values| == |entries| && forall i :: 0 <= i < |entries| ==> values[i] == entries[i].value
  {
    seq(|entries|, i requires 0 <= i < |entries| => entries[i].value)
  }

  /** What leaves the cache by eviction, deletion or clearing. */
  function Disposes<T>(capacity: nat, entries: seq<Entry<T>>, op: Operation<T>): seq<T> {
    match op
    case Get(_) => []
    case Put(key, _) =>
      var evicted := Evicted(capacity, entries, key);
      if evicted.Some? then [evicted.value.value] else []
    case DeleteKey(key) =>
      var value := Lookup(entries, key);
      if value.Some? then [value.value] else []
    case Clear => Values(entries)
  }

  /** What a put replaces; nobody disposes of it. */
  function Overwrites<T>(entries: seq<Entry<T>>, op: Operation<T>): seq<T> {
    if op.Put? && Lookup(entries, op.key).Some? then [Lookup(entries, op.key).value] else []
  }

  function Puts<T>(op: Operation<T>): seq<T> {
    if op.Put? then [op.value] else []
  }

  function AllDisposed<T>(capacity: nat, ops: seq<Operation<T>>): seq<T>
    decreases |ops|
  {
    if ops == [] then []
    else
      var before := ops[..|ops| - 1];
      AllDisposed(capacity, before) + Disposes(capacity, Run(capacity, [], before), ops[|ops| - 1])
  }

  function AllOverwritten<T>(capacity: nat, ops: seq<Operation<T>>): seq<T>
    decreases |ops|
  {
    if ops == [] then []
    else
      var before := ops[..|ops| - 1];
      AllOverwritten(capacity, before) + Overwrites(Run(capacity, [], before), ops[|ops| - 1])
  }

  function AllPut<T>(ops: seq<Operation<T>>): seq<T>
    decreases |ops|
  {
    if ops == [] then [] else AllPut(ops[..|ops| - 1]) + Puts(ops[|ops| - 1])
  }

  lemma {:induction false} ValuesWithout<T>(entries: seq<Entry<T>>, at: nat)
    ensures multiset(Values(entries))
        == multiset(Values(RemoveAt(entries, at))) + multiset(if at < |entries| then [entries[at].value] else [])
  {
    if at < |entries| {
      var values := Values(entries);
      assert values == values[..at] + [values[at]] + values[at + 1..];
      assert Values(RemoveAt(entries, at)) == values[..at] + values[at + 1..];
    }
  }

  lemma {:induction false} StepConserves<T>(capacity: nat, entries: seq<Entry<T>>, op: Operation<T>)
    requires capacity >= 1
    ensures multiset(Values(entries)) + multiset(Puts(op))
         == multiset(Values(Step(capacity, entries, op))) + multiset(Disposes(capacity, entries, op))
             + multiset(Overwrites(entries, op))
  {
    hide RemoveAt, IndexOf;
    if op.Clear? {
      assert Values(Step(capacity, entries, op)) == [];
    } else {
      var front, gone := Front(entries, op), Gone(capacity, entries, op);
      var rest := RemoveAt(entries, gone);
      StepShape(capacity, entries, op);
      ValuesWithout(entries, gone);
      assert Values(front + rest) == Values(front) + Values(rest);
      assert Values(front) == if front == [] then [] else [front[0].value];
    }
  }

  /** Every value ever put is held, was disposed of once, or was overwritten. */
  lemma {:induction false} ValuesAreAccountedFor<T>(capacity: nat, ops: seq<Operation<T>>)
    requires capacity >= 1
    ensures multiset(AllPut(ops))
         == multiset(Values(Run(capacity, [], ops))) + multiset(AllDisposed(capacity, ops))
             + multiset(AllOverwritten(capacity, ops))
    decreases |ops|
  {
    hide Step, Disposes, Overwrites, Puts, Values;
    if ops == [] {
      assert |Values(Run(capacity, [], ops))| == 0;
    } else {
      var before, op := ops[..|ops| - 1], ops[|ops| - 1];
      var entries := Run(capacity, [], before);
      ValuesAreAccountedFor(capacity, before);
      StepConserves(capacity, entries, op);
      AddUp(multiset(AllPut(before)), multiset(Values(entries)), multiset(AllDisposed(capacity, before)),
          multiset(AllOverwritten(capacity, before)),
          multiset(Puts(op)), multiset(Values(Step(capacity, entries, op))), multiset(Disposes(capacity, entries, op)),
          multiset(Overwrites(entries, op)));
    }
  }

  lemma {:induction false} AddUp<T>(put: multiset<T>, held: multiset<T>, disposed: multiset<T>,
          overwritten: multiset<T>, puts: multiset<T>, heldNow: multiset<T>, disposes: multiset<T>,
          overwrites: multiset<T>)
    requires put == held + disposed + overwritten && held + puts == heldNow + disposes + overwrites
    ensures put + puts == heldNow + (disposed + disposes) + (overwritten + overwrites)
  {
    assert put + puts == (held + puts) + disposed + overwritten;
  }

  /** No put finds its key in the cache. */
  predicate NeverOverwrites<T>(capacity: nat, ops: seq<Operation<T>>) {
    forall i :: 0 <= i < |ops| && ops[i].Put? ==> !Holds(Run(capacity, [], ops[..i]), ops[i].key)
  }

  lemma {:induction false} OverwritesNone<T>(capacity: nat, ops: seq<Operation<T>>)
    ensures NeverOverwrites(capacity, ops) <==> AllOverwritten(capacity, ops) == []
    decreases |ops|
  {
    hide Step, Run;
    if ops != [] {
      var before, op := ops[..|ops| - 1], ops[|ops| - 1];
      OverwritesNone(capacity, before);
      assert Overwrites(Run(capacity, [], before), op) == []
          <==> !(op.Put? && Holds(Run(capacity, [], before), op.key));
      assert forall i :: 0 <= i < |before| ==> ops[i] == before[i] && ops[..i] == before[..i];
    }
  }

  /** Disposing of the whole cache at the end disposes of each value as often as it was put exactly when no
      put replaced a value. */
  lemma {:induction false} DisposesOfAll<T>(capacity: nat, ops: seq<Operation<T>>)
    requires capacity >= 1
    ensures multiset(AllDisposed(capacity, ops + [Clear])) == multiset(AllPut(ops)) <==> NeverOverwrites(capacity, ops)
  {
    hide NeverOverwrites, Step;
    assert (ops + [Clear])[..|ops|] == ops;
    ValuesAreAccountedFor(capacity, ops);
    OverwritesNone(capacity, ops);
  }

  /** Such a put exists: of two values put for one key, the first is never disposed of. */
  lemma {:induction false} FirstOfTwoIsLost<T>(key: Key, first: T, second: T)
    ensures var ops := [Put(key, first), Put(key, second)];
      && !NeverOverwrites(1, ops) && AllPut(ops) == [first, second] && AllDisposed(1, ops + [Clear]) == [second]
  {
    var one, two := [Put(key, first)], [Put(key, first), Put(key, second)];
    assert (two + [Clear])[..2] == two && two[..1] == one && one[..0] == [];
    assert Run(1, [], one) == [Entry(key, first)];
    assert Run(1, [], two) == [Entry(key, second)];
    assert Holds(Run(1, [], two[..1]), two[1].key);
    assert AllPut(one) == [first] && AllDisposed(1, one) == [];
    assert AllDisposed(1, two) == [];
  }
}
