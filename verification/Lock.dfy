/** The lock of copilot-fork/src/util/common/lock.ts, as the steps between which other code can run.
    A client is one call of withLock. */
module Lock {
  import opened Wrappers

  type Client = nat

  /** A client waits in the queue, has been awakened and has yet to retry, or runs its body. */
  datatype Phase = Waiting | Awakened | Holding

  /** `served` records the clients that got the lock, in order. */
  datatype LockState = LockState(locked: bool, queue: seq<Client>, phases: map<Client, Phase>, served: seq<Client>)

  datatype Event = Acquire(client: Client) | Retry(client: Client) | Release(client: Client)

  const FREE := LockState(false, [], map[], [])

  // ---- The steps ----

  predicate InPhase(s: LockState, client: Client, phase: Phase) {
    client in s.phases && s.phases[client] == phase
  }

  /** A client is new when it has not asked before. */
  predicate IsNew(s: LockState, client: Client) {
    client !in s.phases && client !in s.served
  }

  /** The first attempt and every later one. */
  function AfterAttempt(s: LockState, client: Client): LockState {
    if !s.locked then s.(locked := true, phases := s.phases[client := Holding], served := s.served + [client])
    else s.(queue := s.queue + [client], phases := s.phases[client := Waiting])
  }

  function AfterRelease(s: LockState, client: Client): LockState {
    var free := s.(locked := false, phases := s.phases - {client});
    if s.queue == [] then free
    else free.(queue := s.queue[1..], phases := free.phases[s.queue[0] := Awakened])
  }

  predicate Enabled(s: LockState, event: Event) {
    match event
    case Acquire(client) => IsNew(s, client)
    case Retry(client) => InPhase(s, client, Awakened)
    case Release(client) => InPhase(s, client, Holding)
  }

  function Step(s: LockState, event: Event): LockState {
    match event
    case Acquire(client) => AfterAttempt(s, client)
    case Retry(client) => AfterAttempt(s, client)
    case Release(client) => AfterRelease(s, client)
  }

  predicate Possible(s: LockState, events: seq<Event>)
    decreases |events|
  {
    events != [] ==> Enabled(s, events[0]) && Possible(Step(s, events[0]), events[1..])
  }

  function Run(s: LockState, events: seq<Event>): LockState
    decreases |events|
  {
    if events == [] then s else Run(Step(s, events[0]), events[1..])
  }

  // ---- What every run keeps ----

  /** At most one body runs, and only while the lock is held. */
  ghost predicate Exclusive(s: LockState) {
    && (forall c, d :: InPhase(s, c, Holding) && InPhase(s, d, Holding) ==> c == d)
    && (s.locked <==> exists c :: InPhase(s, c, Holding))
  }

  ghost predicate QueueIsWaiting(s: LockState) {
    && (forall i, j :: 0 <= i < j < |s.queue| ==> s.queue[i] != s.queue[j])
    && (forall c :: c in s.queue <==> InPhase(s, c, Waiting))
  }

  /** Somebody will look at the queue again: the holder when it releases, or an awakened client. */
  ghost predicate NoneLost(s: LockState) {
    s.queue != [] ==> s.locked || exists c :: InPhase(s, c, Awakened)
  }

  ghost predicate ServedOnce(s: LockState) {
    && (forall i, j :: 0 <= i < j < |s.served| ==> s.served[i] != s.served[j])
    && (forall c :: c in s.served && c in s.phases ==> s.phases[c] == Holding)
    && (forall c :: InPhase(s, c, Holding) ==> c in s.served)
  }

  ghost predicate Invariant(s: LockState) {
    Exclusive(s) && QueueIsWaiting(s) && NoneLost(s) && ServedOnce(s)
  }

  lemma {:induction false} AttemptKeeps(s: LockState, client: Client)
    requires Invariant(s) && (IsNew(s, client) || InPhase(s, client, Awakened))
    ensures Invariant(AfterAttempt(s, client))
  {
    var after := AfterAttempt(s, client);
    assert InPhase(after, client, if s.locked then Waiting else Holding);
    forall c, phase | c != client ensures InPhase(after, c, phase) <==> InPhase(s, c, phase) {
    }
    assert client !in s.queue && client !in s.served;
    assert forall c :: c in after.queue <==> c in s.queue || (s.locked && c == client);
  }

  lemma {:induction false} ReleaseKeeps(s: LockState, client: Client)
    requires Invariant(s) && InPhase(s, client, Holding)
    ensures Invariant(AfterRelease(s, client))
  {
    var after := AfterRelease(s, client);
    if s.queue != [] {
      assert s.queue == [s.queue[0]] + after.queue;
      assert InPhase(s, s.queue[0], Waiting) && InPhase(after, s.queue[0], Awakened);
    }
    forall c, phase | c != client && (s.queue == [] || c != s.queue[0])
      ensures InPhase(after, c, phase) <==> InPhase(s, c, phase)
    {
    }
  }

  lemma {:induction false} FreeIsFine()
    ensures Invariant(FREE)
  {
  }

  lemma {:induction false} StepKeeps(s: LockState, event: Event)
    requires Invariant(s) && Enabled(s, event)
    ensures Invariant(Step(s, event))
  {
    hide Invariant;
    match event
    case Acquire(client) => AttemptKeeps(s, client);
    case Retry(client) => AttemptKeeps(s, client);
    case Release(client) => ReleaseKeeps(s, client);
  }

  lemma {:induction false} RunKeeps(s: LockState, events: seq<Event>)
    requires Invariant(s) && Possible(s, events)
    ensures Invariant(Run(s, events))
    decreases |events|
  {
    hide Invariant, Step;
    if events != [] {
      StepKeeps(s, events[0]);
      RunKeeps(Step(s, events[0]), events[1..]);
    }
  }

  // ---- Everybody is served ----

  ghost function AwakenedOf(s: LockState): set<Client> {
    set c | c in s.phases && s.phases[c] == Awakened
  }

  /** Twice the clients that have not finished, and once more those that have yet to retry. */
  ghost function Remaining(s: LockState): nat {
    2 * |s.phases| + |AwakenedOf(s)|
  }

  lemma {:induction false} RetryProgresses(s: LockState, client: Client)
    requires InPhase(s, client, Awakened)
    ensures Remaining(AfterAttempt(s, client)) == Remaining(s) - 1
  {
    var after := AfterAttempt(s, client);
    assert after.phases.Keys == s.phases.Keys;
    assert AwakenedOf(s) == AwakenedOf(after) + {client};
  }

  lemma {:induction false} ReleaseProgresses(s: LockState, client: Client)
    requires Invariant(s) && InPhase(s, client, Holding)
    ensures Remaining(AfterRelease(s, client)) < Remaining(s)
  {
    var after := AfterRelease(s, client);
    if s.queue != [] {
      var next := s.queue[0];
      assert InPhase(s, next, Waiting);
      assert after.phases.Keys == s.phases.Keys - {client};
      assert AwakenedOf(after) == AwakenedOf(s) + {next};
    } else {
      assert after.phases.Keys == s.phases.Keys - {client};
      assert AwakenedOf(after) == AwakenedOf(s);
    }
  }

  /** Without new clients every run is finite, and it can only end when nobody is left. */
  lemma {:induction false} EverybodyIsServed(s: LockState, events: seq<Event>)
    requires Invariant(s) && Possible(s, events)
    requires forall i :: 0 <= i < |events| ==> !events[i].Acquire?
    ensures |events| <= Remaining(s)
    ensures var after := Run(s, events);
      (forall event: Event :: Enabled(after, event) ==> event.Acquire?) ==> after.phases == map[]
    decreases |events|
  {
    if events == [] {
      StuckIsEmpty(s);
    } else {
      var event := events[0];
      StepKeeps(s, event);
      if event.Retry? { RetryProgresses(s, event.client); } else { ReleaseProgresses(s, event.client); }
      EverybodyIsServed(Step(s, event), events[1..]);
    }
  }

  lemma {:induction false} StuckIsEmpty(s: LockState)
    requires Invariant(s)
    ensures (forall event: Event :: Enabled(s, event) ==> event.Acquire?) ==> s.phases == map[]
  {
    if c :| c in s.phases {
      if s.phases[c] == Waiting {
        assert c in s.queue;
        if s.locked {
          var h :| InPhase(s, h, Holding);
          assert Enabled(s, Release(h));
        } else {
          var w :| InPhase(s, w, Awakened);
          assert Enabled(s, Retry(w));
        }
      } else {
        assert Enabled(s, if s.phases[c] == Awakened then Retry(c) else Release(c));
      }
    }
  }

  /** Nobody leaves unserved. */
  lemma {:induction false} LeavesServed(s: LockState, events: seq<Event>)
    requires Invariant(s) && Possible(s, events)
    ensures var after := Run(s, events);
      forall c :: c in s.phases || c in s.served ==> c in after.phases || c in after.served
    decreases |events|
  {
    if events != [] {
      var next := Step(s, events[0]);
      StepKeeps(s, events[0]);
      LeavesServed(next, events[1..]);
      forall c | c in s.phases || c in s.served ensures c in next.phases || c in next.served {
        if events[0].Release? && c == events[0].client { assert c in s.served; }
      }
    }
  }

  // ---- When turns are first come, first served ----

  /** The clients, in the order in which they ask. */
  function Arrivals(events: seq<Event>): seq<Client> {
    if events == [] then []
    else (if events[0].Acquire? then [events[0].client] else []) + Arrivals(events[1..])
  }

  /** A new client gets a free lock while an awakened one has yet to retry. */
  ghost predicate Overtakes(s: LockState, event: Event) {
    event.Acquire? && !s.locked && exists waiter :: InPhase(s, waiter, Awakened)
  }

  ghost predicate NeverOvertakes(s: LockState, events: seq<Event>)
    decreases |events|
  {
    events != [] ==> !Overtakes(s, events[0]) && NeverOvertakes(Step(s, events[0]), events[1..])
  }

  /** The clients that have asked were served, then awakened, and are then queued: at most one is awakened,
      and it is the only one that can get the lock next. */
  ghost predicate InTurn(s: LockState, arrived: seq<Client>, woken: seq<Client>) {
    && arrived == s.served + woken + s.queue
    && (forall c :: InPhase(s, c, Awakened) <==> c in woken)
    && |woken| <= (if s.locked then 0 else 1)
  }

  lemma {:induction false} WokenIsAwakened(s: LockState, arrived: seq<Client>, woken: seq<Client>)
    requires InTurn(s, arrived, woken)
    ensures woken != [] ==> exists c :: InPhase(s, c, Awakened)
  {
    if woken != [] {
      assert InPhase(s, woken[0], Awakened);
    }
  }

  lemma {:induction false} AcquireInTurn(s: LockState, client: Client, arrived: seq<Client>, woken: seq<Client>)
    requires Invariant(s) && InTurn(s, arrived, woken) && IsNew(s, client) && !Overtakes(s, Acquire(client))
    ensures InTurn(AfterAttempt(s, client), arrived + [client], [])
  {
    WokenIsAwakened(s, arrived, woken);
    assert !s.locked ==> s.queue == [];
    var after := AfterAttempt(s, client);
    forall c ensures !InPhase(after, c, Awakened) {
      if c != client { assert InPhase(after, c, Awakened) <==> InPhase(s, c, Awakened); }
    }
  }

  lemma {:induction false} RetryInTurn(s: LockState, client: Client, arrived: seq<Client>, woken: seq<Client>)
    requires InTurn(s, arrived, woken) && InPhase(s, client, Awakened)
    ensures InTurn(AfterAttempt(s, client), arrived, [])
  {
    assert woken == [client];
    var after := AfterAttempt(s, client);
    forall c ensures !InPhase(after, c, Awakened) {
      if c != client { assert InPhase(after, c, Awakened) <==> InPhase(s, c, Awakened); }
    }
  }

  lemma {:induction false} ReleaseInTurn(s: LockState, client: Client, arrived: seq<Client>, woken: seq<Client>)
    requires Invariant(s) && InTurn(s, arrived, woken) && InPhase(s, client, Holding)
    ensures InTurn(AfterRelease(s, client), arrived, if s.queue == [] then [] else [s.queue[0]])
  {
    var after := AfterRelease(s, client);
    if s.queue != [] {
      assert s.queue == [s.queue[0]] + after.queue;
    }
    forall c ensures InPhase(after, c, Awakened) <==> s.queue != [] && c == s.queue[0] {
      assert !InPhase(s, c, Awakened);
    }
  }

  function Asked(arrived: seq<Client>, event: Event): seq<Client> {
    if event.Acquire? then arrived + [event.client] else arrived
  }

  lemma {:induction false} ArrivalsNext(arrived: seq<Client>, events: seq<Event>)
    requires events != []
    ensures arrived + Arrivals(events) == Asked(arrived, events[0]) + Arrivals(events[1..])
  {
  }

  lemma {:induction false} StepInTurn(s: LockState, event: Event, arrived: seq<Client>, woken: seq<Client>)
    returns (woken': seq<Client>)
    requires Invariant(s) && InTurn(s, arrived, woken) && Enabled(s, event) && !Overtakes(s, event)
    ensures InTurn(Step(s, event), Asked(arrived, event), woken')
  {
    hide Invariant, InTurn, Overtakes, AfterAttempt, AfterRelease;
    match event
    case Acquire(client) =>
      AcquireInTurn(s, client, arrived, woken);
      woken' := [];
    case Retry(client) =>
      RetryInTurn(s, client, arrived, woken);
      woken' := [];
    case Release(client) =>
      ReleaseInTurn(s, client, arrived, woken);
      woken' := if s.queue == [] then [] else [s.queue[0]];
  }

  lemma {:induction false} ServedFirst(s: LockState, arrived: seq<Client>, woken: seq<Client>)
    requires InTurn(s, arrived, woken)
    ensures s.served <= arrived + []
  {
  }

  /** Without overtaking, clients are served in the order in which they asked. */
  lemma {:induction false} ServedInTurn(s: LockState, events: seq<Event>, arrived: seq<Client>, woken: seq<Client>)
    requires Invariant(s) && InTurn(s, arrived, woken) && Possible(s, events) && NeverOvertakes(s, events)
    ensures Run(s, events).served <= arrived + Arrivals(events)
    decreases |events|
  {
    hide Invariant, InTurn, Step, Enabled, Overtakes, Asked;
    if events == [] {
      ServedFirst(s, arrived, woken);
    } else {
      StepKeeps(s, events[0]);
      var woken' := StepInTurn(s, events[0], arrived, woken);
      ServedInTurn(Step(s, events[0]), events[1..], Asked(arrived, events[0]), woken');
      ArrivalsNext(arrived, events);
    }
  }

  /** Those that have asked, each once. */
  ghost predicate HaveAsked(s: LockState, arrived: seq<Client>) {
    && (forall i, j :: 0 <= i < j < |arrived| ==> arrived[i] != arrived[j])
    && (forall c :: c in arrived <==> c in s.phases || c in s.served)
  }

  lemma {:induction false} StepAsked(s: LockState, event: Event, arrived: seq<Client>)
    requires Invariant(s) && HaveAsked(s, arrived) && Enabled(s, event)
    ensures HaveAsked(Step(s, event), Asked(arrived, event))
    ensures s.served <= Step(s, event).served
  {
    var after := Step(s, event);
    forall c ensures c in Asked(arrived, event) <==> c in after.phases || c in after.served {
      if event.Release? {
        if s.queue != [] { assert InPhase(s, s.queue[0], Waiting); }
        if c == event.client { assert c in s.served; }
      }
    }
  }

  /** Served clients stay served, and clients ask once. */
  lemma {:induction false} RunAsked(s: LockState, events: seq<Event>, arrived: seq<Client>)
    requires Invariant(s) && HaveAsked(s, arrived) && Possible(s, events)
    ensures HaveAsked(Run(s, events), arrived + Arrivals(events))
    ensures s.served <= Run(s, events).served
    decreases |events|
  {
    hide Invariant, HaveAsked, Step, Enabled, Asked;
    if events == [] {
      assert arrived + [] == arrived;
    } else {
      var next := Step(s, events[0]);
      StepKeeps(s, events[0]);
      StepAsked(s, events[0], arrived);
      RunAsked(next, events[1..], Asked(arrived, events[0]));
      ArrivalsNext(arrived, events);
      assert s.served <= next.served <= Run(s, events).served;
    }
  }

  /** Of different elements, each has one place. */
  lemma {:induction false} SamePlace(a: seq<Client>, b: seq<Client>, x: Client, all: seq<Client>)
    requires forall i, j :: 0 <= i < j < |all| ==> all[i] != all[j]
    ensures a + [x] <= all && b + [x] <= all ==> a == b
  {
    if a + [x] <= all && b + [x] <= all {
      assert all[|a|] == (a + [x])[|a|] && all[|b|] == (b + [x])[|b|];
      assert a == (a + [x])[..|a|] && b == (b + [x])[..|b|];
    }
  }

  /** The overtaken client asked before the newcomer and is not served before it. */
  lemma {:induction false} OvertakingServes(s: LockState, event: Event,
          arrived: seq<Client>, served: seq<Client>, all: seq<Client>)
    requires Invariant(s) && HaveAsked(s, arrived) && Enabled(s, event) && Overtakes(s, event)
    requires Step(s, event).served <= served && Asked(arrived, event) <= all
    requires forall i, j :: 0 <= i < j < |all| ==> all[i] != all[j]
    ensures !(served <= all)
  {
    var waiter :| InPhase(s, waiter, Awakened);
    assert waiter in arrived && waiter !in s.served;
    SamePlace(s.served, arrived, event.client, all);
  }

  /** With overtaking they are not. */
  lemma {:induction false} OvertakenOutOfTurn(s: LockState, events: seq<Event>, arrived: seq<Client>)
    requires Invariant(s) && HaveAsked(s, arrived) && Possible(s, events) && !NeverOvertakes(s, events)
    ensures !(Run(s, events).served <= arrived + Arrivals(events))
    decreases |events|
  {
    hide Invariant, Step, Enabled, Overtakes, Asked;
    var event, next := events[0], Step(s, events[0]);
    var arrived' := Asked(arrived, event);
    StepKeeps(s, event);
    StepAsked(s, event, arrived);
    ArrivalsNext(arrived, events);
    if Overtakes(s, event) {
      RunAsked(next, events[1..], arrived');
      OvertakingServes(s, event, arrived, Run(s, events).served, arrived + Arrivals(events));
    } else {
      OvertakenOutOfTurn(next, events[1..], arrived');
    }
  }

  /** In every run, clients get the lock in the order in which they ask if and only if no new client ever gets
      it while an awakened one has yet to retry. */
  lemma {:induction false} FirstComeFirstServed(events: seq<Event>)
    requires Possible(FREE, events)
    ensures Run(FREE, events).served <= Arrivals(events) <==> NeverOvertakes(FREE, events)
  {
    FreeIsFine();
    assert [] + Arrivals(events) == Arrivals(events);
    if NeverOvertakes(FREE, events) {
      ServedInTurn(FREE, events, [], []);
    } else {
      OvertakenOutOfTurn(FREE, events, []);
    }
  }

  /** Overtaking is always possible there: whenever an awakened client has yet to retry on a free lock, a
      client that asks first gets the lock, and the awakened one waits again, behind all others. */
  lemma {:induction false} NewcomerOvertakes(s: LockState, waiter: Client, newcomer: Client)
    requires Invariant(s) && !s.locked && InPhase(s, waiter, Awakened) && IsNew(s, newcomer)
    ensures Possible(s, [Acquire(newcomer), Retry(waiter)])
    ensures var after := Run(s, [Acquire(newcomer), Retry(waiter)]);
      && InPhase(after, newcomer, Holding) && InPhase(after, waiter, Waiting) && after.queue == s.queue + [waiter]
  {
    var events := [Acquire(newcomer), Retry(waiter)];
    var s1 := Step(s, events[0]);
    assert events[1..] == [Retry(waiter)] && [Retry(waiter)][1..] == [];
    assert Run(s1, [Retry(waiter)]) == Step(s1, Retry(waiter));
  }

  /** Such a state exists. */
  lemma {:induction false} FreeWithAwakened()
    ensures var s := Run(FREE, [Acquire(0), Acquire(1), Release(0)]);
      Possible(FREE, [Acquire(0), Acquire(1), Release(0)]) && !s.locked && InPhase(s, 1, Awakened) && IsNew(s, 2)
  {
    var s1 := Step(FREE, Acquire(0));
    var s2 := Step(s1, Acquire(1));
    assert [Acquire(0), Acquire(1), Release(0)][1..] == [Acquire(1), Release(0)];
    assert [Acquire(1), Release(0)][1..] == [Release(0)] && [Release(0)][1..] == [];
    assert Run(s2, [Release(0)]) == Step(s2, Release(0)) && Possible(s2, [Release(0)]);
  }

  // ---- One lock for each key ----

  type Locks = map<string, LockState>

  function LockOf(locks: Locks, key: string): LockState {
    if key in locks then locks[key] else FREE
  }

  function StepOf(locks: Locks, key: string, event: Event): Locks {
    locks[key := Step(LockOf(locks, key), event)]
  }

  predicate PossibleOf(locks: Locks, events: seq<(string, Event)>)
    decreases |events|
  {
    events != [] ==>
        Enabled(LockOf(locks, events[0].0), events[0].1)
        && PossibleOf(StepOf(locks, events[0].0, events[0].1), events[1..])
  }

  function RunOf(locks: Locks, events: seq<(string, Event)>): Locks
    decreases |events|
  {
    if events == [] then locks else RunOf(StepOf(locks, events[0].0, events[0].1), events[1..])
  }

  /** The events of one key. */
  function EventsOf(events: seq<(string, Event)>, key: string): seq<Event> {
    if events == [] then []
    else (if events[0].0 == key then [events[0].1] else []) + EventsOf(events[1..], key)
  }

  /** Each key's lock runs as if it were alone, so that everything above holds for each key. */
  lemma {:induction false} KeysAreIndependent(locks: Locks, events: seq<(string, Event)>, key: string)
    requires PossibleOf(locks, events)
    ensures Possible(LockOf(locks, key), EventsOf(events, key))
    ensures LockOf(RunOf(locks, events), key) == Run(LockOf(locks, key), EventsOf(events, key))
    decreases |events|
  {
    hide Step, Enabled;
    if events != [] {
      var (k, event) := events[0];
      KeysAreIndependent(StepOf(locks, k, event), events[1..], key);
      if k == key {
        assert EventsOf(events, key)[1..] == EventsOf(events[1..], key);
      } else {
        assert EventsOf(events, key) == EventsOf(events[1..], key);
      }
    }
  }

  /** At most one body runs for a key, in every run of any number of clients. */
  lemma {:induction false} OneBodyPerKey(events: seq<(string, Event)>, key: string, c: Client, d: Client)
    requires PossibleOf(map[], events)
    requires InPhase(LockOf(RunOf(map[], events), key), c, Holding)
    requires InPhase(LockOf(RunOf(map[], events), key), d, Holding)
    ensures c == d
  {
    FreeIsFine();
    KeysAreIndependent(map[], events, key);
    RunKeeps(FREE, EventsOf(events, key));
  }

  /** For each key, too, turns are first come, first served exactly without overtaking. */
  lemma {:induction false} TurnsOfKey(events: seq<(string, Event)>, key: string)
    requires PossibleOf(map[], events)
    ensures var own := EventsOf(events, key);
      LockOf(RunOf(map[], events), key).served <= Arrivals(own) <==> NeverOvertakes(FREE, own)
  {
    KeysAreIndependent(map[], events, key);
    FirstComeFirstServed(EventsOf(events, key));
  }

  lemma {:induction false} Holder(s: LockState) returns (client: Client)
    requires Invariant(s) && s.locked
    ensures InPhase(s, client, Holding)
  {
    client :| InPhase(s, client, Holding);
  }

  lemma {:induction false} OnlyHolder(s: LockState, client: Client)
    requires Invariant(s) && InPhase(s, client, Holding)
    ensures s.locked && forall other :: InPhase(s, other, Holding) ==> other == client
  {
  }

  // ---- The classes ----

  class Lock {
    var locked: bool
    var queue: seq<Client>
    ghost var phases: map<Client, Phase>
    ghost var served: seq<Client>

    ghost function AsState(): LockState
      reads this
    {
      LockState(locked, queue, phases, served)
    }

    ghost predicate Valid()
      reads this
    {
      Invariant(AsState())
    }

    constructor ()
      ensures Valid() && AsState() == FREE
    {
      locked, queue, phases, served := false, [], map[], [];
    }

    /** One attempt: the client gets the lock, or is queued. */
    method Attempt(client: Client) returns (acquired: bool)
      requires Valid() && (IsNew(AsState(), client) || InPhase(AsState(), client, Awakened))
      modifies this
      ensures Valid() && AsState() == AfterAttempt(old(AsState()), client)
      ensures acquired == !old(locked)
    {
      AttemptKeeps(AsState(), client);
      if !locked {
        locked := true;
        phases, served := phases[client := Holding], served + [client];
        return true;
      }
      queue := queue + [client];
      phases := phases[client := Waiting];
      acquired := false;
    }

    /** Releasing wakes the first waiting client; it is an error on a free lock.  Nobody is asked who holds the
        lock: whoever does has released it. */
    method Release() returns (r: Result<Option<Client>>)
      requires Valid()
      modifies this
      ensures Valid() && (r.Ok? <==> old(locked))
      ensures r.Ok? ==>
          exists client :: InPhase(old(AsState()), client, Holding) && AsState() == AfterRelease(old(AsState()), client)
      ensures r.Ok? ==> r.value == if old(queue) == [] then None else Some(old(queue)[0])
      ensures r.Error? ==> AsState() == old(AsState())
    {
      if !locked {
        return Error("Cannot release an unlocked lock");
      }
      ghost var client := Holder(AsState());
      ReleaseKeeps(AsState(), client);
      locked := false;
      phases := phases - {client};
      if |queue| > 0 {
        var next := queue[0];
        queue := queue[1..];
        phases := phases[next := Awakened];
        r := Ok(Some(next));
      } else {
        r := Ok(None);
      }
    }
  }

  class LockMap {
    var locks: map<string, Lock>

    ghost predicate Valid()
      reads this, locks.Values
    {
      && (forall key :: key in locks ==> locks[key].Valid())
      && (forall k, l :: k in locks && l in locks && k != l ==> locks[k] != locks[l])
    }

    ghost function AsLocks(): Locks
      reads this, locks.Values
    {
      map key | key in locks :: locks[key].AsState()
    }

    constructor ()
      ensures Valid() && AsLocks() == map[]
    {
      locks := map[];
    }

    /** The start of withLock, up to where it waits or its body begins. */
    method Enter(key: string, client: Client) returns (acquired: bool)
      requires Valid() && IsNew(LockOf(AsLocks(), key), client)
      modifies this, locks.Values
      ensures Valid() && AsLocks() == StepOf(old(AsLocks()), key, Event.Acquire(client))
      ensures acquired == InPhase(LockOf(AsLocks(), key), client, Holding)
    {
      hide Invariant;
      ghost var before := AsLocks();
      if key !in locks {
        var created := new Lock();
        locks := locks[key := created];
      }
      var lock := locks[key];
      acquired := lock.Attempt(client);
    }

    /** An awakened client tries again. */
    method Retry(key: string, client: Client) returns (acquired: bool)
      requires Valid() && InPhase(LockOf(AsLocks(), key), client, Awakened)
      modifies locks.Values
      ensures Valid() && AsLocks() == StepOf(old(AsLocks()), key, Event.Retry(client))
      ensures acquired == InPhase(LockOf(AsLocks(), key), client, Holding)
    {
      hide Invariant;
      acquired := locks[key].Attempt(client);
    }

    /** The end of withLock, when the body has returned or thrown. */
    method Leave(key: string, client: Client) returns (next: Option<Client>)
      requires Valid() && InPhase(LockOf(AsLocks(), key), client, Holding)
      modifies locks.Values
      ensures Valid() && AsLocks() == StepOf(old(AsLocks()), key, Event.Release(client))
      ensures next
          == if LockOf(old(AsLocks()), key).queue == [] then None else Some(LockOf(old(AsLocks()), key).queue[0])
    {
      hide Invariant, AfterRelease;
      var lock := locks[key];
      OnlyHolder(lock.AsState(), client);
      var r := lock.Release();
      next := r.value;
    }
  }
}
