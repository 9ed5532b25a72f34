/** The driver of copilot-fork/src/util/common/timeTravelScheduler.ts that runs the tasks of a scheduler
    one after the other, each in a callback of its own. */
module AsyncSchedulerProcessor {
  import opened Wrappers

  import opened TimeTravelScheduler

  /** `outstanding` counts the callbacks asked for that have not come yet; `running` is the task whose
      body the current callback runs, with tasks that it schedules and disposes of meanwhile. */
  datatype Driver = Driver(timeline: Timeline, isProcessing: bool, outstanding: nat, running: Option<Task>,
      history: seq<Task>, stopped: bool)

  datatype Event = Schedule(time: int) | Dispose(task: Task) | Callback | BodyReturns | BodyThrows

  const START := Driver(IDLE, false, 0, None, [], false)

  // ---- The steps ----

  /** The scheduler tells the driver of every task it takes. */
  function AfterSchedule(d: Driver, time: int): Driver {
    var added := d.(timeline := AfterAdd(d.timeline, time));
    if time < d.timeline.now || d.isProcessing then added
    else added.(isProcessing := true, outstanding := d.outstanding + 1)
  }

  function AfterDisposal(d: Driver, task: Task): Driver {
    d.(timeline := AfterDispose(d.timeline, task))
  }

  /** The end of a callback: ask for the next one, or rest. */
  function Continued(d: Driver): Driver {
    if d.timeline.pending != [] then d.(outstanding := d.outstanding + 1) else d.(isProcessing := false)
  }

  function AfterCallback(d: Driver): Driver
    requires d.outstanding > 0
  {
    var begun := d.(outstanding := d.outstanding - 1, timeline := AfterRunNext(d.timeline));
    if d.timeline.pending == [] then Continued(begun) else begun.(running := Some(d.timeline.pending[0]))
  }

  /** Too many tasks are an error, which leaves the driver as it is. */
  function AfterBody(d: Driver, maxTaskCount: nat): Driver
    requires d.running.Some?
  {
    var recorded := d.(history := d.history + [d.running.value], running := None);
    if |recorded.history| >= maxTaskCount && recorded.timeline.pending != [] then recorded.(stopped := true)
    else Continued(recorded)
  }

  function AfterThrow(d: Driver): Driver {
    d.(running := None, stopped := true)
  }

  predicate Enabled(d: Driver, event: Event) {
    match event
    case Schedule(_) => true
    case Dispose(_) => true
    case Callback => d.outstanding > 0 && d.running.None?
    case BodyReturns => d.running.Some?
    case BodyThrows => d.running.Some?
  }

  function Step(d: Driver, event: Event, maxTaskCount: nat): Driver
    requires Enabled(d, event)
  {
    match event
    case Schedule(time) => AfterSchedule(d, time)
    case Dispose(task) => AfterDisposal(d, task)
    case Callback => AfterCallback(d)
    case BodyReturns => AfterBody(d, maxTaskCount)
    case BodyThrows => AfterThrow(d)
  }

  predicate Possible(d: Driver, events: seq<Event>, maxTaskCount: nat)
    decreases |events|
  {
    events != [] ==> Enabled(d, events[0]) && Possible(Step(d, events[0], maxTaskCount), events[1..], maxTaskCount)
  }

  function Run(d: Driver, events: seq<Event>, maxTaskCount: nat): Driver
    requires Possible(d, events, maxTaskCount)
    decreases |events|
  {
    if events == [] then d else Run(Step(d, events[0], maxTaskCount), events[1..], maxTaskCount)
  }

  // ---- What every run keeps ----

  /** Unless it has stopped, the driver is processing exactly when one callback is outstanding or
      running, and it rests only when no task is left.  Once stopped it waits for a callback that
      nobody has asked for. */
  ghost predicate OneCallback(d: Driver) {
    if d.stopped then d.isProcessing && d.outstanding == 0 && d.running.None?
    else if d.running.Some? then d.isProcessing && d.outstanding == 0
    else
      && (d.isProcessing <==> d.outstanding == 1) && d.outstanding <= 1
      && (d.outstanding == 0 ==> d.timeline.pending == [])
  }

  /** The history is what was executed, up to the running task. */
  ghost predicate Recorded(d: Driver) {
    !d.stopped ==> d.timeline.executed == d.history + if d.running.Some? then [d.running.value] else []
  }

  ghost predicate Consistent(d: Driver) {
    Invariant(d.timeline) && OneCallback(d) && Recorded(d)
  }

  lemma {:induction false} StepIsConsistent(d: Driver, event: Event, maxTaskCount: nat)
    requires Consistent(d) && Enabled(d, event)
    ensures Consistent(Step(d, event, maxTaskCount))
    ensures d.stopped ==>
        Step(d, event, maxTaskCount).stopped && Step(d, event, maxTaskCount).timeline.executed == d.timeline.executed
  {
    hide Invariant, Insert, Without;
    match event
    case Schedule(time) => AddKeeps(d.timeline, time);
    case Dispose(task) => DisposeKeeps(d.timeline, task); DisposeNone(d.timeline, task);
    case Callback => RunNextKeeps(d.timeline);
    case BodyReturns =>
    case BodyThrows =>
  }

  lemma {:induction false} DisposeNone(s: Timeline, task: Task)
    ensures s.pending == [] ==> AfterDispose(s, task).pending == []
  {
  }

  lemma {:induction false} RunIsConsistent(d: Driver, events: seq<Event>, maxTaskCount: nat)
    requires Consistent(d) && Possible(d, events, maxTaskCount)
    ensures Consistent(Run(d, events, maxTaskCount))
    ensures d.stopped ==> Run(d, events, maxTaskCount).timeline.executed == d.timeline.executed
    decreases |events|
  {
    hide Consistent, Step;
    if events != [] {
      StepIsConsistent(d, events[0], maxTaskCount);
      RunIsConsistent(Step(d, events[0], maxTaskCount), events[1..], maxTaskCount);
    }
  }

  lemma {:induction false} StartIsConsistent()
    ensures Consistent(START)
  {
    IdleIsFine();
  }

  /** A body throws, or one returns that fills the history to the limit while tasks are pending. */
  predicate Fails(d: Driver, event: Event, maxTaskCount: nat) {
    event.BodyThrows? || (event.BodyReturns? && |d.history| + 1 >= maxTaskCount && d.timeline.pending != [])
  }

  predicate SomeBodyFails(d: Driver, events: seq<Event>, maxTaskCount: nat)
    requires Possible(d, events, maxTaskCount)
    decreases |events|
  {
    events != [] &&
    (Fails(d, events[0], maxTaskCount) || SomeBodyFails(Step(d, events[0], maxTaskCount), events[1..], maxTaskCount))
  }

  lemma {:induction false} StepStops(d: Driver, event: Event, maxTaskCount: nat)
    requires Enabled(d, event)
    ensures Step(d, event, maxTaskCount).stopped <==> d.stopped || Fails(d, event, maxTaskCount)
  {
    hide AfterAdd, AfterDispose, AfterRunNext;
  }

  /** The driver has stopped exactly when some body has failed in this way. */
  lemma {:induction false} StoppedExactly(d: Driver, events: seq<Event>, maxTaskCount: nat)
    requires Possible(d, events, maxTaskCount)
    ensures Run(d, events, maxTaskCount).stopped <==> d.stopped || SomeBodyFails(d, events, maxTaskCount)
    decreases |events|
  {
    hide Step, Fails;
    if events != [] {
      StepStops(d, events[0], maxTaskCount);
      StoppedExactly(Step(d, events[0], maxTaskCount), events[1..], maxTaskCount);
    }
  }

  /** From an empty scheduler, while no body throws and no limit is exceeded: between callbacks the
      driver is processing exactly when one callback is outstanding, and if none is, no task is left. */
  lemma {:induction false} ProcessingMeansOutstanding(events: seq<Event>, maxTaskCount: nat)
    requires Possible(START, events, maxTaskCount)
    ensures var d := Run(START, events, maxTaskCount);
      !SomeBodyFails(START, events, maxTaskCount) && d.running.None? ==>
        && (d.isProcessing <==> d.outstanding == 1) && d.outstanding <= 1
        && (d.outstanding == 0 ==> d.timeline.pending == [])
        && d.history == d.timeline.executed
  {
    hide Invariant;
    StartIsConsistent();
    RunIsConsistent(START, events, maxTaskCount);
    StoppedExactly(START, events, maxTaskCount);
  }

  /** After a throwing body or the limit error no task runs any more, whatever is scheduled. */
  lemma {:induction false} StoppedForever(events: seq<Event>, more: seq<Event>, maxTaskCount: nat)
    requires Possible(START, events, maxTaskCount) && SomeBodyFails(START, events, maxTaskCount)
    requires Possible(Run(START, events, maxTaskCount), more, maxTaskCount)
    ensures var d := Run(START, events, maxTaskCount);
        Run(d, more, maxTaskCount).timeline.executed == d.timeline.executed
  {
    hide Consistent;
    StartIsConsistent();
    StoppedExactly(START, events, maxTaskCount);
    RunIsConsistent(START, events, maxTaskCount);
    RunIsConsistent(Run(START, events, maxTaskCount), more, maxTaskCount);
  }

  /** Such runs exist: a body that throws, and a limit of one task with two scheduled. */
  lemma {:induction false} ThrowStops(maxTaskCount: nat)
    ensures var events := [Schedule(0), Callback, BodyThrows];
      Possible(START, events, maxTaskCount) && SomeBodyFails(START, events, maxTaskCount)
  {
  }

  lemma {:induction false} LimitStops()
    ensures var events := [Schedule(0), Schedule(0), Callback, BodyReturns];
      && Possible(START, events, 1) && SomeBodyFails(START, events, 1)
      && Run(START, events, 1).timeline.pending != []
  {
  }

  /** The tasks whose bodies have returned, in order. */
  function Returned(d: Driver, events: seq<Event>, maxTaskCount: nat): seq<Task>
    requires Possible(d, events, maxTaskCount)
    decreases |events|
  {
    if events == [] then []
    else
      (if events[0].BodyReturns? then [d.running.value] else [])
      + Returned(Step(d, events[0], maxTaskCount), events[1..], maxTaskCount)
  }

  lemma {:induction false} StepRecords(d: Driver, event: Event, maxTaskCount: nat)
    requires Enabled(d, event)
    ensures Step(d, event, maxTaskCount).history == d.history + if event.BodyReturns? then [d.running.value] else []
  {
    hide AfterAdd, AfterDispose, AfterRunNext;
    assert d.history + [] == d.history;
  }

  /** The history is exactly those tasks, also after the driver has stopped. */
  lemma {:induction false} HistoryIsReturned(d: Driver, events: seq<Event>, maxTaskCount: nat)
    requires Possible(d, events, maxTaskCount)
    ensures Run(d, events, maxTaskCount).history == d.history + Returned(d, events, maxTaskCount)
    decreases |events|
  {
    hide Step;
    if events == [] {
      assert d.history + [] == d.history;
    } else {
      var first := if events[0].BodyReturns? then [d.running.value] else [];
      StepRecords(d, events[0], maxTaskCount);
      HistoryIsReturned(Step(d, events[0], maxTaskCount), events[1..], maxTaskCount);
      assert d.history + first + Returned(Step(d, events[0], maxTaskCount), events[1..], maxTaskCount)
          == d.history + (first + Returned(Step(d, events[0], maxTaskCount), events[1..], maxTaskCount));
    }
  }

  /** Scheduling asks for at most one callback, and only for a task that has been taken while at rest. */
  lemma {:induction false} AsksOnlyForTaken(d: Driver, time: int)
    ensures var after := AfterSchedule(d, time);
      && (time < d.timeline.now ==> after == d)
      && after.outstanding == d.outstanding + (if time >= d.timeline.now && !d.isProcessing then 1 else 0)
      && after.isProcessing == (d.isProcessing || time >= d.timeline.now)
  {
  }

  // ---- How far the driver gets ----

  /** One callback and the return of its task, that many times. */
  function Rounds(n: nat): seq<Event> {
    if n == 0 then [] else [Callback, BodyReturns] + Rounds(n - 1)
  }

  lemma {:induction false} OneRound(d: Driver, n: nat, maxTaskCount: nat)
    requires n > 0 && Enabled(d, Callback) && Enabled(AfterCallback(d), BodyReturns)
    ensures var after := AfterBody(AfterCallback(d), maxTaskCount);
      && Possible(d, Rounds(n), maxTaskCount) == Possible(after, Rounds(n - 1), maxTaskCount)
      && (Possible(after, Rounds(n - 1), maxTaskCount) ==>
          Run(d, Rounds(n), maxTaskCount) == Run(after, Rounds(n - 1), maxTaskCount))
  {
    var events := Rounds(n);
    assert events[1..][1..] == Rounds(n - 1);
    assert events[0] == Callback && events[1..][0] == BodyReturns;
  }

  /** When nothing new comes in, all pending tasks run in order exactly when the limit leaves room for
      them. */
  lemma {:induction false} DrainsWithinLimit(d: Driver, maxTaskCount: nat)
    requires Consistent(d) && !d.stopped && d.running.None? && d.timeline.pending != []
    ensures Possible(d, Rounds(|d.timeline.pending|), maxTaskCount)
        && !Run(d, Rounds(|d.timeline.pending|), maxTaskCount).stopped
       <==> |d.history| + |d.timeline.pending| <= maxTaskCount || |d.timeline.pending| == 1
    ensures Possible(d, Rounds(|d.timeline.pending|), maxTaskCount) ==>
      var after := Run(d, Rounds(|d.timeline.pending|), maxTaskCount);
      !after.stopped ==>
          !after.isProcessing && after.timeline.pending == [] && after.history == d.history + d.timeline.pending
    decreases |d.timeline.pending|
  {
    hide Invariant;
    var begun := AfterCallback(d);
    var after := AfterBody(begun, maxTaskCount);
    StepIsConsistent(d, Callback, maxTaskCount);
    StepIsConsistent(begun, BodyReturns, maxTaskCount);
    OneRound(d, |d.timeline.pending|, maxTaskCount);
    assert d.history + d.timeline.pending == after.history + after.timeline.pending;
    if after.timeline.pending != [] && !after.stopped {
      DrainsWithinLimit(after, maxTaskCount);
    }
  }

  // ---- The class ----

  class AsyncSchedulerProcessor {
    const scheduler: TimeTravelScheduler
    const maxTaskCount: nat
    var isProcessing: bool
    var history: seq<Task>
    var outstanding: nat
    var running: Option<Task>
    var stopped: bool

    ghost function AsDriver(): Driver
      reads this, scheduler, scheduler.queue
    {
      Driver(scheduler.AsTimeline(), isProcessing, outstanding, running, history, stopped)
    }

    ghost predicate Valid()
      reads this, scheduler, scheduler.queue
    {
      scheduler.Valid() && Consistent(AsDriver())
    }

    /** A count of zero stands for none given. */
    constructor (scheduler: TimeTravelScheduler, maxTaskCount: nat)
      requires scheduler.Valid() && scheduler.AsTimeline() == IDLE
      ensures Valid() && AsDriver() == START && this.scheduler == scheduler
      ensures this.maxTaskCount == if maxTaskCount == 0 then 100 else maxTaskCount
    {
      this.scheduler := scheduler;
      this.maxTaskCount := if maxTaskCount == 0 then 100 else maxTaskCount;
      isProcessing, history, outstanding, running, stopped := false, [], 0, None, false;
      new;
      StartIsConsistent();
    }

    /** A task is scheduled, and the scheduler tells the driver. */
    method Schedule(time: int) returns (r: Result<Task>)
      requires Valid()
      modifies this`isProcessing, this`outstanding, scheduler, scheduler.queue
      ensures Valid() && AsDriver() == AfterSchedule(old(AsDriver()), time)
      ensures r.Ok? <==> time >= old(scheduler.now)
      ensures r.Error? ==> AsDriver() == old(AsDriver())
    {
      hide Consistent, Invariant;
      StepIsConsistent(AsDriver(), Event.Schedule(time), maxTaskCount);
      r := scheduler.Schedule(time);
      if r.Ok? && !isProcessing {
        isProcessing := true;
        outstanding := outstanding + 1;
      }
    }

    method Dispose(task: Task)
      requires Valid()
      modifies scheduler.queue
      ensures Valid() && AsDriver() == AfterDisposal(old(AsDriver()), task)
    {
      hide Consistent, Invariant;
      StepIsConsistent(AsDriver(), Event.Dispose(task), maxTaskCount);
      scheduler.Dispose(task);
    }

    /** A callback comes, up to the call of the task it runs. */
    method ProcessStart()
      requires Valid() && outstanding > 0 && running.None?
      modifies this, scheduler, scheduler.queue
      ensures Valid() && AsDriver() == AfterCallback(old(AsDriver()))
    {
      hide Consistent, Invariant;
      StepIsConsistent(AsDriver(), Callback, maxTaskCount);
      outstanding := outstanding - 1;
      running := scheduler.RunNext();
      if running.None? {
        Continue();
      }
    }

    /** The task has returned. */
    method ProcessEnd()
      requires Valid() && running.Some?
      modifies this
      ensures Valid() && AsDriver() == AfterBody(old(AsDriver()), maxTaskCount)
    {
      hide Consistent, Invariant;
      StepIsConsistent(AsDriver(), BodyReturns, maxTaskCount);
      history := history + [running.value];
      running := None;
      var has := scheduler.HasScheduledTasks();
      if |history| >= maxTaskCount && has {
        stopped := true;
        return;
      }
      Continue();
    }

    method Continue()
      requires scheduler.Valid()
      modifies this`outstanding, this`isProcessing
      ensures AsDriver() == Continued(old(AsDriver()))
    {
      var has := scheduler.HasScheduledTasks();
      if has {
        outstanding := outstanding + 1;
      } else {
        isProcessing := false;
      }
    }
  }
}
