/** The repeating timer of copilot-fork/src/util/common/timeTravelScheduler.ts, as a client of the
    scheduler among any others. */
module Interval {
  import opened TimeTravelScheduler

  /** A timer whose first task was scheduled at `start`; `lastTask` is the task it scheduled last, and
      `handled` records the times its handler was called. */
  datatype Timer = Timer(start: int, interval: nat, iterCount: nat, lastTask: Task, disposed: bool, handled: seq<int>)

  datatype System = System(timeline: Timeline, timer: Timer)

  /** Other code adds and disposes of tasks of its own; running the next task may run the timer's. */
  datatype Event = AddOther(time: int) | DisposeOther(task: Task) | RunNextTask | DisposeTimer

  function SetInterval(timeline: Timeline, interval: nat): System {
    var task := Task(timeline.now + interval, timeline.taskCounter);
    System(AfterAdd(timeline, timeline.now + interval), Timer(timeline.now, interval, 1, task, false, []))
  }

  /** The timer's task: schedule the next one, then call the handler. */
  function AfterTimerTask(s: System): System {
    if s.timer.disposed then s
    else
      var next := Task(s.timeline.now + s.timer.interval, s.timeline.taskCounter);
      System(AfterAdd(s.timeline, s.timeline.now + s.timer.interval),
          s.timer.(iterCount := s.timer.iterCount + 1, lastTask := next, handled := s.timer.handled + [s.timeline.now]))
  }

  function AfterRunNextTask(s: System): System {
    var ran := s.(timeline := AfterRunNext(s.timeline));
    if s.timeline.pending != [] && s.timeline.pending[0] == s.timer.lastTask then AfterTimerTask(ran) else ran
  }

  function AfterDisposeTimer(s: System): System {
    if s.timer.disposed then s
    else System(AfterDispose(s.timeline, s.timer.lastTask), s.timer.(disposed := true))
  }

  predicate CanHappen(s: System, event: Event) {
    event.DisposeOther? ==> event.task != s.timer.lastTask
  }

  function After(s: System, event: Event): System {
    match event
    case AddOther(time) => s.(timeline := AfterAdd(s.timeline, time))
    case DisposeOther(task) => s.(timeline := AfterDispose(s.timeline, task))
    case RunNextTask => AfterRunNextTask(s)
    case DisposeTimer => AfterDisposeTimer(s)
  }

  predicate AllCanHappen(s: System, events: seq<Event>)
    decreases |events|
  {
    events != [] ==> CanHappen(s, events[0]) && AllCanHappen(After(s, events[0]), events[1..])
  }

  function AfterAll(s: System, events: seq<Event>): System
    decreases |events|
  {
    if events == [] then s else AfterAll(After(s, events[0]), events[1..])
  }

  // ---- What every run keeps ----

  /** The k-th call of the handler comes exactly k intervals after the start. */
  ghost predicate OnTime(timer: Timer) {
    forall k :: 0 <= k < |timer.handled| ==> timer.handled[k] == timer.start + (k + 1) * timer.interval
  }

  /** One task of the timer is pending until it is disposed of, for the next multiple of the interval. */
  ghost predicate OnePending(s: System) {
    && s.timer.lastTask.id < s.timeline.taskCounter
    && (!s.timer.disposed ==>
          && s.timer.lastTask in s.timeline.pending
          && |s.timer.handled| == s.timer.iterCount - 1
          && s.timer.lastTask.time == s.timer.start + s.timer.iterCount * s.timer.interval)
    && (s.timer.disposed ==> s.timer.lastTask !in s.timeline.pending)
  }

  ghost predicate Ticks(s: System) {
    Invariant(s.timeline) && OnTime(s.timer) && OnePending(s)
  }

  lemma {:induction false} SetIntervalTicks(timeline: Timeline, interval: nat)
    requires Invariant(timeline)
    ensures Ticks(SetInterval(timeline, interval))
  {
    hide Invariant, Insert;
    AddKeeps(timeline, timeline.now + interval);
    InsertHas(Task(timeline.now + interval, timeline.taskCounter), timeline.pending);
  }

  lemma {:induction false} TimerTaskTicks(s: System)
    requires Ticks(s) && !s.timer.disposed && s.timeline.pending != [] && s.timeline.pending[0] == s.timer.lastTask
    ensures Ticks(AfterRunNextTask(s))
  {
    hide Invariant, Insert;
    var ran := AfterRunNext(s.timeline);
    RunNextKeeps(s.timeline);
    AddKeeps(ran, ran.now + s.timer.interval);
    InsertHas(Task(ran.now + s.timer.interval, ran.taskCounter), ran.pending);
    var n, d := s.timer.iterCount, s.timer.interval;
    assert (n + 1) * d == n * d + d;
  }

  lemma {:induction false} EventTicks(s: System, event: Event)
    requires Ticks(s) && CanHappen(s, event)
    ensures Ticks(After(s, event))
    ensures s.timer.disposed ==> After(s, event).timer == s.timer
  {
    hide Invariant, Insert, Without;
    var task := s.timer.lastTask;
    NumberedPending(s.timeline);
    match event
    case AddOther(time) =>
      AddKeeps(s.timeline, time);
      InsertHas(Task(time, s.timeline.taskCounter), s.timeline.pending);
    case DisposeOther(other) =>
      DisposeKeeps(s.timeline, other);
      WithoutHas(s.timeline.pending, other);
    case RunNextTask =>
      RunNextKeeps(s.timeline);
      if s.timeline.pending != [] && s.timeline.pending[0] == task {
        assert task in s.timeline.pending;
        TimerTaskTicks(s);
      } else if s.timeline.pending != [] {
        assert s.timeline.pending == [s.timeline.pending[0]] + s.timeline.pending[1..];
      }
    case DisposeTimer =>
      DisposeKeeps(s.timeline, task);
      WithoutHas(s.timeline.pending, task);
  }

  lemma {:induction false} NumberedPending(s: Timeline)
    requires Invariant(s)
    ensures Numbered(s.pending)
  {
  }

  /** The timer keeps its start and its interval, and is disposed of by that event alone. */
  lemma {:induction false} EventKeepsTimer(s: System, event: Event)
    ensures var timer := After(s, event).timer;
      && timer.start == s.timer.start && timer.interval == s.timer.interval
      && timer.disposed == (s.timer.disposed || event.DisposeTimer?)
  {
    hide Insert, Without;
  }

  /** Over any run: the timer keeps ticking, and once disposed of it is never called again. */
  lemma {:induction false} TimerTicks(s: System, events: seq<Event>)
    requires Ticks(s) && AllCanHappen(s, events)
    ensures var after := AfterAll(s, events);
      && Ticks(after) && after.timer.start == s.timer.start && after.timer.interval == s.timer.interval
      && after.timer.disposed == (s.timer.disposed || DisposeTimer in events)
      && (s.timer.disposed ==> after.timer.handled == s.timer.handled)
    decreases |events|
  {
    hide Ticks, After, CanHappen;
    if events != [] {
      EventTicks(s, events[0]);
      EventKeepsTimer(s, events[0]);
      TimerTicks(After(s, events[0]), events[1..]);
      assert events == [events[0]] + events[1..];
    }
  }

  /** The events before the first that disposes of the timer. */
  function UntilDisposed(events: seq<Event>): seq<Event> {
    if events == [] || events[0].DisposeTimer? then [] else [events[0]] + UntilDisposed(events[1..])
  }

  lemma {:induction false} SilentOnceDisposed(s: System, events: seq<Event>)
    requires Ticks(s) && AllCanHappen(s, events)
    ensures AfterAll(s, events).timer.handled == AfterAll(s, UntilDisposed(events)).timer.handled
    decreases |events|
  {
    hide Ticks, After, CanHappen;
    if events != [] {
      EventTicks(s, events[0]);
      if events[0].DisposeTimer? {
        EventKeepsTimer(s, events[0]);
        TimerTicks(After(s, events[0]), events[1..]);
        DisposingCallsNothing(s);
      } else {
        SilentOnceDisposed(After(s, events[0]), events[1..]);
        assert UntilDisposed(events)[1..] == UntilDisposed(events[1..]);
      }
    }
  }

  lemma {:induction false} DisposingCallsNothing(s: System)
    ensures After(s, DisposeTimer).timer.handled == s.timer.handled
  {
  }

  /** One task is pending for the next call, at its time. */
  ghost predicate NextCallPending(s: Timeline, time: int) {
    exists task :: task in s.pending && task.time == time
  }

  /** Whatever other code schedules and disposes of: the handler is called at the scheduler's time of the call to
      setInterval plus exact multiples of the interval, and the next call stands ready, until the timer is
      disposed of; from then on it is not called again. */
  lemma {:induction false} IntervalTicks(timeline: Timeline, interval: nat, events: seq<Event>)
    requires Invariant(timeline) && AllCanHappen(SetInterval(timeline, interval), events)
    ensures var start := SetInterval(timeline, interval);
      var after := AfterAll(start, events);
      var calls := after.timer.handled;
      && (forall k :: 0 <= k < |calls| ==> calls[k] == timeline.now + (k + 1) * interval)
      && calls == AfterAll(start, UntilDisposed(events)).timer.handled
      && (DisposeTimer !in events ==>
            var next := timeline.now + (|calls| + 1) * interval;
            NextCallPending(after.timeline, next) && after.timeline.now <= next)
  {
    hide Invariant, After, CanHappen, UntilDisposed, Insert;
    var start := SetInterval(timeline, interval);
    SetIntervalTicks(timeline, interval);
    StartsNow(timeline, interval);
    TimerTicks(start, events);
    SilentOnceDisposed(start, events);
    PendingIsAhead(AfterAll(start, events).timeline);
  }

  lemma {:induction false} PendingIsAhead(s: Timeline)
    requires Invariant(s)
    ensures forall task :: task in s.pending ==> task.time >= s.now
  {
  }

  lemma {:induction false} StartsNow(timeline: Timeline, interval: nat)
    ensures var timer := SetInterval(timeline, interval).timer;
      timer.start == timeline.now && timer.interval == interval && !timer.disposed
  {
  }
}
