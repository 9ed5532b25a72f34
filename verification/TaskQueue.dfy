/** The task queue of copilot-fork/src/util/common/async.ts, as the steps between which other code can
    run: a call that schedules, the end of a running task, and a call that clears. */
module TaskQueue {
  import opened Wrappers

  datatype Outcome = Completed | Failed | Cancelled | ResolvedUndefined

  datatype Settlement = Settlement(task: nat, outcome: Outcome)

  datatype Item = Item(task: nat, setUndefinedWhenCleared: bool)

  /** Tasks are numbered in the order they were scheduled; `kinds` tells for each whether clearing
      resolves it.  `started` and `settled` record what has happened so far. */
  datatype Queue = Queue(runningTask: Option<nat>, pendingTasks: seq<Item>, kinds: seq<bool>,
          started: seq<nat>, settled: seq<Settlement>, bugIndicated: bool)

  datatype Event = Schedule(setUndefinedWhenCleared: bool) | Finish(succeeds: bool) | ClearPending

  const EMPTY := Queue(None, [], [], [], [], false)

  // ---- The steps ----

  function AfterProcessQueue(q: Queue): Queue {
    if q.pendingTasks == [] then q
    else
      var next, shifted := q.pendingTasks[0], q.(pendingTasks := q.pendingTasks[1..]);
      if shifted.runningTask.Some? then shifted.(bugIndicated := true)
      else shifted.(runningTask := Some(next.task), started := q.started + [next.task])
  }

  function AfterSchedule(q: Queue, setUndefinedWhenCleared: bool): Queue {
    var pushed := q.(pendingTasks := q.pendingTasks + [Item(|q.kinds|, setUndefinedWhenCleared)],
        kinds := q.kinds + [setUndefinedWhenCleared]);
    if pushed.runningTask.None? then AfterProcessQueue(pushed) else pushed
  }

  /** The running task returns or throws. */
  function AfterFinish(q: Queue, succeeds: bool): Queue
    requires q.runningTask.Some?
  {
    var settlement := Settlement(q.runningTask.value, if succeeds then Completed else Failed);
    AfterProcessQueue(q.(settled := q.settled + [settlement], runningTask := None))
  }

  function ClearedAs(item: Item): Settlement {
    Settlement(item.task, if item.setUndefinedWhenCleared then ResolvedUndefined else Cancelled)
  }

  function Cleared(items: seq<Item>): seq<Settlement> {
    if items == [] then [] else [ClearedAs(items[0])] + Cleared(items[1..])
  }

  function AfterClearPending(q: Queue): Queue {
    q.(pendingTasks := [], settled := q.settled + Cleared(q.pendingTasks))
  }

  predicate Enabled(q: Queue, event: Event) {
    event.Finish? ==> q.runningTask.Some?
  }

  function Step(q: Queue, event: Event): Queue
    requires Enabled(q, event)
  {
    match event
    case Schedule(setUndefinedWhenCleared) => AfterSchedule(q, setUndefinedWhenCleared)
    case Finish(succeeds) => AfterFinish(q, succeeds)
    case ClearPending => AfterClearPending(q)
  }

  predicate Possible(q: Queue, events: seq<Event>)
    decreases |events|
  {
    events != [] ==> Enabled(q, events[0]) && Possible(Step(q, events[0]), events[1..])
  }

  function Run(q: Queue, events: seq<Event>): Queue
    requires Possible(q, events)
    decreases |events|
  {
    if events == [] then q else Run(Step(q, events[0]), events[1..])
  }

  // ---- What every run keeps ----

  ghost predicate Waits(q: Queue, task: nat) {
    exists i :: 0 <= i < |q.pendingTasks| && q.pendingTasks[i].task == task
  }

  ghost predicate Runs(q: Queue, task: nat) {
    q.runningTask == Some(task)
  }

  function Count(settled: seq<Settlement>, task: nat): nat {
    if settled == [] then 0
    else
      var last := if settled[|settled| - 1].task == task then 1 else 0;
      Count(settled[..|settled| - 1], task) + last
  }

  /** One task at a time: the pending ones wait for the running one, and the branch that would report
      a bug has not been taken. */
  ghost predicate Serial(q: Queue) {
    && !q.bugIndicated
    && (q.pendingTasks != [] ==> q.runningTask.Some?)
    && (q.runningTask.Some? ==> q.started != [] && q.started[|q.started| - 1] == q.runningTask.value)
  }

  /** Tasks start in the order they were scheduled, and the pending ones are later than all of them. */
  ghost predicate InOrder(q: Queue) {
    && (forall i :: 0 <= i < |q.started| ==> q.started[i] < |q.kinds|)
    && (forall i, j :: 0 <= i < j < |q.started| ==> q.started[i] < q.started[j])
    && (forall i :: 0 <= i < |q.pendingTasks| ==>
          var Item(task, kind) := q.pendingTasks[i]; task < |q.kinds| && kind == q.kinds[task])
    && (forall i, j :: 0 <= i < j < |q.pendingTasks| ==> q.pendingTasks[i].task < q.pendingTasks[j].task)
    && (forall i, j :: 0 <= i < |q.started| && 0 <= j < |q.pendingTasks| ==> q.started[i] < q.pendingTasks[j].task)
  }

  /** A deferred is settled once when its task has finished or was cleared, and not before. */
  ghost predicate SettledOnce(q: Queue) {
    forall task: nat :: Count(q.settled, task) == if task < |q.kinds| && !Waits(q, task) && !Runs(q, task) then 1 else 0
  }

  /** Tasks that have started are settled with their own outcome, the others as their kind demands. */
  ghost predicate SettledFitly(q: Queue) {
    forall i :: 0 <= i < |q.settled| ==>
      var Settlement(task, outcome) := q.settled[i];
      && task < |q.kinds|
      && (task in q.started <==> outcome == Completed || outcome == Failed)
      && (task !in q.started ==> outcome == if q.kinds[task] then ResolvedUndefined else Cancelled)
  }

  ghost predicate Invariant(q: Queue) {
    Serial(q) && InOrder(q) && SettledOnce(q) && SettledFitly(q)
  }

  lemma {:induction false} CountPush(settled: seq<Settlement>, last: Settlement, task: nat)
    ensures Count(settled + [last], task) == Count(settled, task) + if last.task == task then 1 else 0
  {
    assert (settled + [last])[..|settled|] == settled;
  }

  lemma {:induction false} CountNone(settled: seq<Settlement>, task: nat)
    requires Count(settled, task) == 0
    ensures forall i :: 0 <= i < |settled| ==> settled[i].task != task
    decreases |settled|
  {
    if settled != [] { CountNone(settled[..|settled| - 1], task); }
  }

  lemma {:induction false} CountSome(settled: seq<Settlement>, task: nat)
    requires forall i :: 0 <= i < |settled| ==> settled[i].task != task
    ensures Count(settled, task) == 0
    decreases |settled|
  {
    if settled != [] { CountSome(settled[..|settled| - 1], task); }
  }

  // ---- Starting the next task ----

  lemma {:induction false} ProcessInOrder(q: Queue)
    requires InOrder(q) && q.runningTask.None?
    ensures InOrder(AfterProcessQueue(q))
  {
  }

  lemma {:induction false} ProcessSettledOnce(q: Queue)
    requires SettledOnce(q) && InOrder(q) && q.runningTask.None?
    ensures SettledOnce(AfterProcessQueue(q))
  {
    var after := AfterProcessQueue(q);
    if q.pendingTasks != [] {
      forall task: nat ensures Waits(q, task) <==> Waits(after, task) || Runs(after, task) {
        if Waits(after, task) {
          var i :| 0 <= i < |after.pendingTasks| && after.pendingTasks[i].task == task;
          assert q.pendingTasks[i + 1].task == task;
        }
        if Waits(q, task) && !Runs(after, task) {
          var i :| 0 <= i < |q.pendingTasks| && q.pendingTasks[i].task == task;
          assert after.pendingTasks[i - 1].task == task;
        }
        if Runs(after, task) { assert q.pendingTasks[0].task == task; }
      }
    }
  }

  lemma {:induction false} ProcessSettledFitly(q: Queue)
    requires SettledFitly(q) && SettledOnce(q) && q.runningTask.None?
    ensures SettledFitly(AfterProcessQueue(q))
  {
    if q.pendingTasks != [] {
      var next, after := q.pendingTasks[0].task, AfterProcessQueue(q);
      assert Waits(q, next);
      CountNone(q.settled, next);
      forall task | task != next ensures task in after.started <==> task in q.started {
      }
    }
  }

  lemma {:induction false} ProcessKeeps(q: Queue)
    requires !q.bugIndicated && q.runningTask.None? && InOrder(q) && SettledOnce(q) && SettledFitly(q)
    ensures Invariant(AfterProcessQueue(q))
  {
    hide InOrder, SettledOnce, SettledFitly;
    ProcessInOrder(q);
    ProcessSettledOnce(q);
    ProcessSettledFitly(q);
  }

  // ---- The events ----

  function Pushed(q: Queue, setUndefinedWhenCleared: bool): Queue {
    q.(pendingTasks := q.pendingTasks + [Item(|q.kinds|, setUndefinedWhenCleared)],
        kinds := q.kinds + [setUndefinedWhenCleared])
  }

  lemma {:induction false} ScheduleKeeps(q: Queue, setUndefinedWhenCleared: bool)
    requires Invariant(q)
    ensures Invariant(AfterSchedule(q, setUndefinedWhenCleared))
  {
    hide InOrder, SettledOnce, SettledFitly;
    var pushed := Pushed(q, setUndefinedWhenCleared);
    PushInOrder(q, setUndefinedWhenCleared);
    PushSettledOnce(q, pushed, Item(|q.kinds|, setUndefinedWhenCleared));
    if pushed.runningTask.None? {
      ProcessKeeps(pushed);
    }
  }

  lemma {:induction false} PushInOrder(q: Queue, setUndefinedWhenCleared: bool)
    requires InOrder(q) && SettledFitly(q) && Serial(q)
    ensures InOrder(Pushed(q, setUndefinedWhenCleared)) && SettledFitly(Pushed(q, setUndefinedWhenCleared))
    ensures q.runningTask.Some? ==> q.runningTask.value < |q.kinds|
  {
  }

  lemma {:induction false} PushSettledOnce(q: Queue, pushed: Queue, item: Item)
    requires SettledOnce(q) && SettledFitly(q) && item.task == |q.kinds| && |pushed.kinds| == |q.kinds| + 1
    requires pushed.pendingTasks == q.pendingTasks + [item] && pushed.settled == q.settled
    requires pushed.runningTask == q.runningTask
    requires q.runningTask.Some? ==> q.runningTask.value < |q.kinds|
    ensures SettledOnce(pushed)
  {
    forall task: nat ensures Waits(pushed, task) <==> Waits(q, task) || task == item.task {
      if Waits(pushed, task) && task != item.task {
        var i :| 0 <= i < |pushed.pendingTasks| && pushed.pendingTasks[i].task == task;
        assert q.pendingTasks[i].task == task;
      }
      if Waits(q, task) {
        var i :| 0 <= i < |q.pendingTasks| && q.pendingTasks[i].task == task;
        assert pushed.pendingTasks[i].task == task;
      }
      if task == item.task { assert pushed.pendingTasks[|q.pendingTasks|].task == task; }
    }
    CountSome(q.settled, item.task);
  }

  lemma {:induction false} FinishKeeps(q: Queue, succeeds: bool)
    requires Invariant(q) && q.runningTask.Some?
    ensures Invariant(AfterFinish(q, succeeds))
  {
    var task := q.runningTask.value;
    var settlement := Settlement(task, if succeeds then Completed else Failed);
    var done := q.(settled := q.settled + [settlement], runningTask := None);
    forall other: nat ensures Count(done.settled, other) == Count(q.settled, other) + if task == other then 1 else 0 {
      CountPush(q.settled, settlement, other);
    }
    forall other: nat ensures Waits(done, other) <==> Waits(q, other) {
    }
    ProcessKeeps(done);
  }

  lemma {:induction false} CountAppend(settled: seq<Settlement>, more: seq<Settlement>, task: nat)
    ensures Count(settled + more, task) == Count(settled, task) + Count(more, task)
    decreases |more|
  {
    if more == [] {
      assert settled + more == settled;
    } else {
      var init := more[..|more| - 1];
      assert settled + more == settled + init + [more[|more| - 1]];
      CountPush(settled + init, more[|more| - 1], task);
      CountAppend(settled, init, task);
    }
  }

  lemma {:induction false} ClearedShape(items: seq<Item>)
    ensures |Cleared(items)| == |items| && forall i :: 0 <= i < |items| ==> Cleared(items)[i] == ClearedAs(items[i])
  {
    if items != [] { ClearedShape(items[1..]); }
  }

  lemma {:induction false} CountCleared(items: seq<Item>, settled: seq<Settlement>, task: nat)
    requires |settled| == |items| && forall i :: 0 <= i < |items| ==> settled[i] == ClearedAs(items[i])
    requires forall i, j :: 0 <= i < j < |items| ==> items[i].task != items[j].task
    ensures Count(settled, task) == if exists i :: 0 <= i < |items| && items[i].task == task then 1 else 0
    decreases |items|
  {
    if items != [] {
      var init := items[..|items| - 1];
      CountCleared(init, settled[..|items| - 1], task);
      if i :| 0 <= i < |init| && init[i].task == task { assert items[i].task == task; }
      if i :| 0 <= i < |items| && items[i].task == task { assert i < |init| ==> init[i].task == task; }
    }
  }

  lemma {:induction false} ClearKeeps(q: Queue)
    requires Invariant(q)
    ensures Invariant(AfterClearPending(q))
  {
    var after, cleared := AfterClearPending(q), Cleared(q.pendingTasks);
    ClearedShape(q.pendingTasks);
    forall task: nat ensures Count(after.settled, task) == Count(q.settled, task) + if Waits(q, task) then 1 else 0 {
      CountAppend(q.settled, cleared, task);
      CountCleared(q.pendingTasks, cleared, task);
    }
  }

  lemma {:induction false} StepKeeps(q: Queue, event: Event)
    requires Invariant(q) && Enabled(q, event)
    ensures Invariant(Step(q, event))
  {
    match event
    case Schedule(kind) => ScheduleKeeps(q, kind);
    case Finish(succeeds) => FinishKeeps(q, succeeds);
    case ClearPending => ClearKeeps(q);
  }

  lemma {:induction false} EmptyIsFine()
    ensures Invariant(EMPTY)
  {
  }

  lemma {:induction false} StepExtends(q: Queue, event: Event)
    requires Enabled(q, event)
    ensures q.started <= Step(q, event).started && q.settled <= Step(q, event).settled
        && q.kinds <= Step(q, event).kinds
  {
  }

  /** In every run, whatever is scheduled, cleared and finished in whatever order; and what has started
      or was settled stays so. */
  lemma {:induction false} RunKeeps(q: Queue, events: seq<Event>)
    requires Invariant(q) && Possible(q, events)
    ensures Invariant(Run(q, events))
    ensures q.started <= Run(q, events).started && q.settled <= Run(q, events).settled
        && q.kinds <= Run(q, events).kinds
    decreases |events|
  {
    hide Invariant, Step;
    if events != [] {
      StepKeeps(q, events[0]);
      StepExtends(q, events[0]);
      RunKeeps(Step(q, events[0]), events[1..]);
    }
  }

  // ---- How tasks are settled, told from the events ----

  /** The task returns, or throws, while it is running. */
  predicate Finishes(q: Queue, events: seq<Event>, task: nat, succeeds: bool)
    requires Possible(q, events)
    decreases |events|
  {
    events != [] &&
    ((events[0] == Finish(succeeds) && q.runningTask == Some(task))
     || Finishes(Step(q, events[0]), events[1..], task, succeeds))
  }

  /** The queue is cleared while the task is waiting. */
  ghost predicate IsCleared(q: Queue, events: seq<Event>, task: nat)
    requires Possible(q, events)
    decreases |events|
  {
    events != [] && ((events[0].ClearPending? && Waits(q, task)) || IsCleared(Step(q, events[0]), events[1..], task))
  }

  /** For each call that schedules, whether clearing is to resolve the task. */
  function Kinds(events: seq<Event>): seq<bool> {
    if events == [] then []
    else (if events[0].Schedule? then [events[0].setUndefinedWhenCleared] else []) + Kinds(events[1..])
  }

  lemma {:induction false} KindsAreScheduled(q: Queue, events: seq<Event>)
    requires Possible(q, events)
    ensures Run(q, events).kinds == q.kinds + Kinds(events)
    decreases |events|
  {
    if events == [] {
      assert q.kinds + [] == q.kinds;
    } else {
      KindsAreScheduled(Step(q, events[0]), events[1..]);
      StepKinds(q, events[0]);
      Join(q.kinds, if events[0].Schedule? then [events[0].setUndefinedWhenCleared] else [], Kinds(events[1..]));
    }
  }

  lemma {:induction false} StepKinds(q: Queue, event: Event)
    requires Enabled(q, event)
    ensures Step(q, event).kinds == q.kinds + if event.Schedule? then [event.setUndefinedWhenCleared] else []
  {
    assert q.kinds + [] == q.kinds;
  }

  lemma {:induction false} Join<T>(a: seq<T>, b: seq<T>, c: seq<T>)
    ensures a + b + c == a + (b + c)
  {
  }

  /** What an event settles. */
  lemma {:induction false} StepSettles(q: Queue, event: Event, task: nat, outcome: Outcome)
    requires Enabled(q, event)
    ensures Settlement(task, outcome) in Step(q, event).settled
       <==> || Settlement(task, outcome) in q.settled
            || (event == Finish(true) && q.runningTask == Some(task) && outcome == Completed)
            || (event == Finish(false) && q.runningTask == Some(task) && outcome == Failed)
            || (event.ClearPending? && Item(task, true) in q.pendingTasks && outcome == ResolvedUndefined)
            || (event.ClearPending? && Item(task, false) in q.pendingTasks && outcome == Cancelled)
  {
    if event.ClearPending? {
      ClearedShape(q.pendingTasks);
      var s, cleared := Settlement(task, outcome), Cleared(q.pendingTasks);
      if s in cleared {
        var i :| 0 <= i < |cleared| && cleared[i] == s;
        assert cleared[i] == ClearedAs(q.pendingTasks[i]);
      }
      forall kind | Item(task, kind) in q.pendingTasks ensures ClearedAs(Item(task, kind)) in cleared {
        var i :| 0 <= i < |q.pendingTasks| && q.pendingTasks[i] == Item(task, kind);
        assert cleared[i] == ClearedAs(q.pendingTasks[i]);
      }
    }
  }

  /** A waiting task is waiting as what it was scheduled as. */
  lemma {:induction false} WaitsAsScheduled(q: Queue, task: nat, kinds: seq<bool>)
    requires Invariant(q) && q.kinds <= kinds
    ensures Waits(q, task) ==> task < |kinds|
    ensures forall kind :: Item(task, kind) in q.pendingTasks <==> Waits(q, task) && kinds[task] == kind
  {
    if Waits(q, task) {
      var i :| 0 <= i < |q.pendingTasks| && q.pendingTasks[i].task == task;
      assert q.pendingTasks[i] == Item(task, kinds[task]);
    }
    forall kind | Item(task, kind) in q.pendingTasks ensures Waits(q, task) && kinds[task] == kind {
      var i :| 0 <= i < |q.pendingTasks| && q.pendingTasks[i] == Item(task, kind);
    }
  }

  /** The outcome, if any, that a task has been settled with is the one its own events give it. */
  ghost predicate SettledAs(q: Queue, before: Queue, events: seq<Event>, kinds: seq<bool>, task: nat)
    requires Possible(before, events)
  {
    && (Settlement(task, Completed) in q.settled
        <==> Settlement(task, Completed) in before.settled || Finishes(before, events, task, true))
    && (Settlement(task, Failed) in q.settled
        <==> Settlement(task, Failed) in before.settled || Finishes(before, events, task, false))
    && (Settlement(task, ResolvedUndefined) in q.settled
        <==> || Settlement(task, ResolvedUndefined) in before.settled
             || (IsCleared(before, events, task) && task < |kinds| && kinds[task]))
    && (Settlement(task, Cancelled) in q.settled
        <==> || Settlement(task, Cancelled) in before.settled
             || (IsCleared(before, events, task) && task < |kinds| && !kinds[task]))
  }

  lemma {:induction false} RunSettlesAs(q: Queue, events: seq<Event>, kinds: seq<bool>, task: nat)
    requires Invariant(q) && Possible(q, events) && kinds == q.kinds + Kinds(events)
    ensures SettledAs(Run(q, events), q, events, kinds, task)
    decreases |events|
  {
    hide Invariant, Step, Enabled, Waits;
    if events != [] {
      StepKeeps(q, events[0]);
      StepKinds(q, events[0]);
      Join(q.kinds, if events[0].Schedule? then [events[0].setUndefinedWhenCleared] else [], Kinds(events[1..]));
      RunSettlesAs(Step(q, events[0]), events[1..], kinds, task);
      WaitsAsScheduled(q, task, kinds);
      StepSettles(q, events[0], task, Completed);
      StepSettles(q, events[0], task, Failed);
      StepSettles(q, events[0], task, ResolvedUndefined);
      StepSettles(q, events[0], task, Cancelled);
    }
  }

  /** In every run from the start: a task is completed exactly when it has returned, failed exactly when it has
      thrown, and, when it was cleared while waiting, resolved or cancelled as the call that scheduled it asked
      for. */
  lemma {:induction false} OutcomesAreTheirOwn(events: seq<Event>, task: nat)
    requires Possible(EMPTY, events)
    ensures var settled, kinds := Run(EMPTY, events).settled, Kinds(events);
      && (Settlement(task, Completed) in settled <==> Finishes(EMPTY, events, task, true))
      && (Settlement(task, Failed) in settled <==> Finishes(EMPTY, events, task, false))
      && (Settlement(task, ResolvedUndefined) in settled
          <==> IsCleared(EMPTY, events, task) && task < |kinds| && kinds[task])
      && (Settlement(task, Cancelled) in settled
          <==> IsCleared(EMPTY, events, task) && task < |kinds| && !kinds[task])
  {
    hide Invariant, Run, Finishes, IsCleared;
    EmptyIsFine();
    assert [] + Kinds(events) == Kinds(events);
    RunSettlesAs(EMPTY, events, Kinds(events), task);
  }

  // ---- Nothing is forgotten ----

  function Tasks(items: seq<Item>): seq<nat> {
    if items == [] then [] else [items[0].task] + Tasks(items[1..])
  }

  /** When nothing new comes in, as many finishes as there are tasks start all pending tasks, in order,
      and leave the queue idle with everything settled. */
  lemma {:induction false} FinishesDrain(q: Queue, finishes: seq<Event>)
    requires Invariant(q) && |finishes| == |q.pendingTasks| + (if q.runningTask.Some? then 1 else 0)
    requires forall i :: 0 <= i < |finishes| ==> finishes[i].Finish?
    ensures Possible(q, finishes)
    ensures var after := Run(q, finishes);
      && after.runningTask.None? && after.pendingTasks == []
      && after.started == q.started + Tasks(q.pendingTasks)
      && forall task: nat :: Count(after.settled, task) == if task < |q.kinds| then 1 else 0
    decreases |finishes|
  {
    if finishes == [] {
      assert q.started + [] == q.started;
    } else {
      var next := Step(q, finishes[0]);
      StepKeeps(q, finishes[0]);
      FinishesDrain(next, finishes[1..]);
      if q.pendingTasks != [] {
        assert q.started + Tasks(q.pendingTasks) == q.started + [q.pendingTasks[0].task] + Tasks(q.pendingTasks[1..]);
      }
    }
  }

  lemma {:induction false} ClearedNext(settled: seq<Settlement>, items: seq<Item>)
    requires items != []
    ensures settled + Cleared(items) == settled + [ClearedAs(items[0])] + Cleared(items[1..])
  {
  }

  // ---- The class ----

  class TaskQueue {
    var runningTask: Option<nat>
    var pendingTasks: seq<Item>
    /** For each task scheduled so far, whether clearing resolves it. */
    var kinds: seq<bool>
    var started: seq<nat>
    var settled: seq<Settlement>
    /** Whether BugIndicatingError has been thrown. */
    var bugIndicated: bool

    ghost function AsQueue(): Queue
      reads this
    {
      Queue(runningTask, pendingTasks, kinds, started, settled, bugIndicated)
    }

    ghost predicate Valid()
      reads this
    {
      Invariant(AsQueue())
    }

    constructor ()
      ensures Valid() && AsQueue() == EMPTY
    {
      runningTask, pendingTasks, kinds, started, settled, bugIndicated := None, [], [], [], [], false;
    }

    method Schedule()
      requires Valid()
      modifies this
      ensures Valid() && AsQueue() == AfterSchedule(old(AsQueue()), false)
    {
      ScheduleKeeps(AsQueue(), false);
      pendingTasks := pendingTasks + [Item(|kinds|, false)];
      kinds := kinds + [false];
      RunIfNotRunning();
    }

    method ScheduleSkipIfCleared()
      requires Valid()
      modifies this
      ensures Valid() && AsQueue() == AfterSchedule(old(AsQueue()), true)
    {
      ScheduleKeeps(AsQueue(), true);
      pendingTasks := pendingTasks + [Item(|kinds|, true)];
      kinds := kinds + [true];
      RunIfNotRunning();
    }

    method RunIfNotRunning()
      modifies this
      ensures AsQueue() == if old(runningTask).None? then AfterProcessQueue(old(AsQueue())) else old(AsQueue())
    {
      if runningTask.None? {
        ProcessQueue();
      }
    }

    /** Up to the point where the task has been called. */
    method ProcessQueue()
      modifies this
      ensures AsQueue() == AfterProcessQueue(old(AsQueue()))
      ensures old(runningTask).Some? && old(pendingTasks) != [] ==>
          bugIndicated && runningTask == old(runningTask) && started == old(started)
      ensures old(runningTask).None? && old(pendingTasks) != [] ==>
          runningTask == Some(old(pendingTasks)[0].task) && bugIndicated == old(bugIndicated)
    {
      if |pendingTasks| == 0 {
        return;
      }
      var next := pendingTasks[0];
      pendingTasks := pendingTasks[1..];
      if runningTask.Some? {
        bugIndicated := true;
        return;
      }
      runningTask := Some(next.task);
      started := started + [next.task];
    }

    /** From the point where the task has returned or thrown. */
    method FinishTask(succeeds: bool)
      requires Valid() && runningTask.Some?
      modifies this
      ensures Valid() && AsQueue() == AfterFinish(old(AsQueue()), succeeds)
    {
      FinishKeeps(AsQueue(), succeeds);
      settled := settled + [Settlement(runningTask.value, if succeeds then Completed else Failed)];
      runningTask := None;
      ProcessQueue();
    }

    method ClearPending()
      requires Valid()
      modifies this
      ensures Valid() && AsQueue() == AfterClearPending(old(AsQueue()))
    {
      hide Invariant;
      ClearKeeps(AsQueue());
      var tasks := pendingTasks;
      ghost var before := settled;
      pendingTasks := [];
      var i := 0;
      while i < |tasks|
        modifies this`settled
        invariant i <= |tasks|
        invariant before + Cleared(tasks) == settled + Cleared(tasks[i..])
      {
        var task := tasks[i];
        ClearedNext(settled, tasks[i..]);
        assert tasks[i..][1..] == tasks[i + 1..];
        if task.setUndefinedWhenCleared {
          settled := settled + [Settlement(task.task, ResolvedUndefined)];
        } else {
          settled := settled + [Settlement(task.task, Cancelled)];
        }
        i := i + 1;
      }
      assert settled + Cleared([]) == settled;
    }
  }
}
