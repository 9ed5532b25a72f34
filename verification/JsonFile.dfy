/** The value behind a JSON file of copilot-fork/src/util/node/jsonFile.ts: every new value asks for a
    write, and the write queue lets at most one of the writes wait. */
module JsonFile {
  import opened Wrappers

  import opened TaskQueue

  datatype Event<+V> = SetValue(value: V) | WriteEnds(succeeds: bool)

  /** All values set so far, numbered like the writes asked for; the contents the started writes took;
      and the number of the write that reached the disk last. */
  datatype File<+V> = File(writeQueue: Queue, values: seq<V>, contents: seq<V>, onDisk: Option<nat>)

  function NewFile<V>(): File<V> {
    File(EMPTY, [], [], None)
  }

  /** A write takes the current value when it starts. */
  function TakeContent<V>(f: File<V>): File<V> {
    if |f.writeQueue.started| > |f.contents| && f.values != [] then
      f.(contents := f.contents + [f.values[|f.values| - 1]])
    else f
  }

  function AfterSetValue<V>(f: File<V>, value: V): File<V> {
    TakeContent(f.(values := f.values + [value], writeQueue := AfterSchedule(AfterClearPending(f.writeQueue), true)))
  }

  function AfterWrite<V>(f: File<V>, succeeds: bool): File<V>
    requires f.writeQueue.runningTask.Some?
  {
    TakeContent(f.(
      onDisk := if succeeds then f.writeQueue.runningTask else f.onDisk,
      writeQueue := AfterFinish(f.writeQueue, succeeds)))
  }

  predicate CanHappen<V>(f: File<V>, event: Event<V>) {
    event.WriteEnds? ==> f.writeQueue.runningTask.Some?
  }

  function Next<V>(f: File<V>, event: Event<V>): File<V>
    requires CanHappen(f, event)
  {
    match event
    case SetValue(value) => AfterSetValue(f, value)
    case WriteEnds(succeeds) => AfterWrite(f, succeeds)
  }

  predicate AllCanHappen<V>(f: File<V>, events: seq<Event<V>>)
    decreases |events|
  {
    events != [] ==> CanHappen(f, events[0]) && AllCanHappen(Next(f, events[0]), events[1..])
  }

  function After<V>(f: File<V>, events: seq<Event<V>>): File<V>
    requires AllCanHappen(f, events)
    decreases |events|
  {
    if events == [] then f else After(Next(f, events[0]), events[1..])
  }

  // ---- What every interleaving keeps ----

  ghost predicate LastStarted(q: Queue, task: int) {
    q.started != [] && q.started[|q.started| - 1] == task
  }

  /** At most one write waits, and it is the latest; if none waits, the latest has started. */
  ghost predicate LatestIsNext<V>(f: File<V>) {
    var q := f.writeQueue;
    && |q.kinds| == |f.values| && (forall i :: 0 <= i < |q.kinds| ==> q.kinds[i])
    && |q.pendingTasks| <= 1
    && (q.pendingTasks != [] ==> q.pendingTasks[0].task == |f.values| - 1)
    && (q.pendingTasks == [] && f.values != [] ==> LastStarted(q, |f.values| - 1))
  }

  /** Every write that started took the value it was asked for. */
  ghost predicate TakesOwnValue<V>(f: File<V>) {
    && |f.contents| == |f.writeQueue.started|
    && forall i :: 0 <= i < |f.contents| ==>
        f.writeQueue.started[i] < |f.values| && f.contents[i] == f.values[f.writeQueue.started[i]]
  }

  /** What is on disk is a write that has started and is no longer running. */
  ghost predicate DiskFollows<V>(f: File<V>) {
    f.onDisk.Some? ==> f.onDisk.value in f.writeQueue.started && !Runs(f.writeQueue, f.onDisk.value)
  }

  ghost predicate Consistent<V>(f: File<V>) {
    Invariant(f.writeQueue) && LatestIsNext(f) && TakesOwnValue(f) && DiskFollows(f)
  }

  lemma {:induction false} SetValueKeeps<V>(f: File<V>, value: V)
    requires Consistent(f)
    ensures Consistent(AfterSetValue(f, value))
  {
    hide Invariant, LatestIsNext, TakesOwnValue, DiskFollows;
    ClearKeeps(f.writeQueue);
    ScheduleKeeps(AfterClearPending(f.writeQueue), true);
    SerialAndInOrder(f.writeQueue);
    SetValueLatest(f, value);
    SetValueTakes(f, value);
    SetValueDisk(f, value);
  }

  lemma {:induction false} SetValueLatest<V>(f: File<V>, value: V)
    requires LatestIsNext(f) && Serial(f.writeQueue)
    ensures LatestIsNext(AfterSetValue(f, value))
  {
  }

  lemma {:induction false} SetValueTakes<V>(f: File<V>, value: V)
    requires LatestIsNext(f) && TakesOwnValue(f) && Serial(f.writeQueue)
    ensures TakesOwnValue(AfterSetValue(f, value))
  {
  }

  lemma {:induction false} SetValueDisk<V>(f: File<V>, value: V)
    requires DiskFollows(f) && LatestIsNext(f) && Serial(f.writeQueue) && InOrder(f.writeQueue)
    ensures DiskFollows(AfterSetValue(f, value))
  {
  }

  lemma {:induction false} SerialAndInOrder(q: Queue)
    requires Invariant(q)
    ensures Serial(q) && InOrder(q)
  {
  }

  lemma {:induction false} WriteKeeps<V>(f: File<V>, succeeds: bool)
    requires Consistent(f) && f.writeQueue.runningTask.Some?
    ensures Consistent(AfterWrite(f, succeeds))
  {
    hide Invariant, LatestIsNext, TakesOwnValue, DiskFollows;
    FinishKeeps(f.writeQueue, succeeds);
    SerialAndInOrder(f.writeQueue);
    WriteLatest(f, succeeds);
    WriteDisk(f, succeeds);
  }

  lemma {:induction false} WriteLatest<V>(f: File<V>, succeeds: bool)
    requires LatestIsNext(f) && TakesOwnValue(f) && Serial(f.writeQueue) && f.writeQueue.runningTask.Some?
    ensures LatestIsNext(AfterWrite(f, succeeds)) && TakesOwnValue(AfterWrite(f, succeeds))
  {
  }

  lemma {:induction false} WriteDisk<V>(f: File<V>, succeeds: bool)
    requires DiskFollows(f) && LatestIsNext(f) && Serial(f.writeQueue) && InOrder(f.writeQueue)
    requires f.writeQueue.runningTask.Some?
    ensures DiskFollows(AfterWrite(f, succeeds))
  {
  }

  lemma {:induction false} NewIsConsistent<V>()
    ensures Consistent(NewFile<V>())
  {
  }

  lemma {:induction false} RunIsConsistent<V>(f: File<V>, events: seq<Event<V>>)
    requires Consistent(f) && AllCanHappen(f, events)
    ensures Consistent(After(f, events))
    decreases |events|
  {
    hide Consistent, Next;
    if events != [] {
      StepIsConsistent(f, events[0]);
      RunIsConsistent(Next(f, events[0]), events[1..]);
    }
  }

  lemma {:induction false} StepIsConsistent<V>(f: File<V>, event: Event<V>)
    requires Consistent(f) && CanHappen(f, event)
    ensures Consistent(Next(f, event))
  {
    match event
    case SetValue(value) => SetValueKeeps(f, value);
    case WriteEnds(succeeds) => WriteKeeps(f, succeeds);
  }

  // ---- What callers rely on ----

  ghost predicate Idle(q: Queue) {
    q.runningTask.None? && q.pendingTasks == []
  }

  function Values<V>(events: seq<Event<V>>): seq<V> {
    if events == [] then []
    else (if events[0].SetValue? then [events[0].value] else []) + Values(events[1..])
  }

  /** How the last write ended, if one has. */
  function LastEnd<V>(events: seq<Event<V>>, before: Option<bool>): Option<bool>
    decreases |events|
  {
    if events == [] then before
    else LastEnd(events[1..], if events[0].WriteEnds? then Some(events[0].succeeds) else before)
  }

  /** The write that was running when a write last ended without an error, if any. */
  function LastWritten<V>(f: File<V>, events: seq<Event<V>>, before: Option<nat>): Option<nat>
    requires AllCanHappen(f, events)
    decreases |events|
  {
    if events == [] then before
    else LastWritten(Next(f, events[0]), events[1..],
        if events[0].WriteEnds? && events[0].succeeds then f.writeQueue.runningTask else before)
  }

  /** When nothing runs, the last write that started is on disk exactly when it ended without an error. */
  ghost predicate DiskKnows<V>(f: File<V>, end: Option<bool>) {
    var q := f.writeQueue;
    q.started != [] && q.runningTask.None? ==> (f.onDisk == Some(q.started[|q.started| - 1]) <==> end == Some(true))
  }

  lemma {:induction false} StepRecords<V>(f: File<V>, event: Event<V>)
    requires CanHappen(f, event)
    ensures Next(f, event).onDisk
         == if event.WriteEnds? && event.succeeds then f.writeQueue.runningTask else f.onDisk
    ensures Next(f, event).values == f.values + if event.SetValue? then [event.value] else []
  {
    hide AfterSchedule, AfterClearPending, AfterFinish;
    assert f.values + [] == f.values;
  }

  lemma {:induction false} SetValueKnows<V>(f: File<V>, value: V, end: Option<bool>)
    requires DiskKnows(f, end) && Serial(f.writeQueue)
    ensures DiskKnows(AfterSetValue(f, value), end)
  {
  }

  lemma {:induction false} WriteKnows<V>(f: File<V>, succeeds: bool)
    requires DiskFollows(f) && Serial(f.writeQueue) && InOrder(f.writeQueue) && f.writeQueue.runningTask.Some?
    ensures DiskKnows(AfterWrite(f, succeeds), Some(succeeds))
  {
  }

  lemma {:induction false} StepKnows<V>(f: File<V>, event: Event<V>, end: Option<bool>)
    requires Consistent(f) && DiskKnows(f, end) && CanHappen(f, event)
    ensures DiskKnows(Next(f, event), if event.WriteEnds? then Some(event.succeeds) else end)
  {
    hide DiskKnows, SettledOnce, SettledFitly, InOrder, Serial, TakesOwnValue, DiskFollows, AfterSetValue, AfterWrite;
    match event
    case SetValue(value) => SetValueKnows(f, value, end);
    case WriteEnds(succeeds) => WriteKnows(f, succeeds);
  }

  lemma {:induction false} RunKnows<V>(f: File<V>, events: seq<Event<V>>, end: Option<bool>)
    requires Consistent(f) && DiskKnows(f, end) && AllCanHappen(f, events)
    ensures var after := After(f, events);
      && DiskKnows(after, LastEnd(events, end)) && after.onDisk == LastWritten(f, events, f.onDisk)
      && after.values == f.values + Values(events)
    decreases |events|
  {
    hide Consistent, Next, DiskKnows;
    if events == [] {
      assert f.values + [] == f.values;
    } else {
      StepIsConsistent(f, events[0]);
      StepKnows(f, events[0], end);
      StepRecords(f, events[0]);
      RunKnows(Next(f, events[0]), events[1..], if events[0].WriteEnds? then Some(events[0].succeeds) else end);
      Join(f.values, if events[0].SetValue? then [events[0].value] else [], Values(events[1..]));
    }
  }

  /** Once the queue is idle, the last write that ran took the latest value, and it is what the disk holds
      exactly when the last write to end has succeeded; at most one write waits at any time. */
  ghost predicate LatestWrittenWhenIdle<V>(f: File<V>, end: Option<bool>) {
    && |f.writeQueue.pendingTasks| <= 1 && !f.writeQueue.bugIndicated
    && (Idle(f.writeQueue) && f.values != [] ==>
          && f.contents != [] && f.contents[|f.contents| - 1] == f.values[|f.values| - 1]
          && (f.onDisk == Some(|f.values| - 1) <==> end == Some(true)))
  }

  /** The content of the write that reached the disk last. */
  ghost predicate DiskHolds<V>(f: File<V>, value: V) {
    && f.onDisk.Some?
    && exists i :: 0 <= i < |f.contents| && i < |f.writeQueue.started| && f.writeQueue.started[i] == f.onDisk.value
        && f.contents[i] == value
  }

  lemma {:induction false} ConsistentMeans<V>(f: File<V>, end: Option<bool>)
    requires Consistent(f) && DiskKnows(f, end)
    ensures LatestWrittenWhenIdle(f, end)
    ensures f.onDisk.Some? ==> f.onDisk.value < |f.values| && DiskHolds(f, f.values[f.onDisk.value])
  {
    hide InOrder, SettledOnce, SettledFitly;
    if f.onDisk.Some? {
      var i :| 0 <= i < |f.writeQueue.started| && f.writeQueue.started[i] == f.onDisk.value;
      assert f.contents[i] == f.values[f.onDisk.value];
    }
  }

  /** In every interleaving, with the values and the ends of the writes as the events tell them: the disk holds
      what the write that last succeeded wrote, which is the value it was asked for; and once the queue is
      idle, it holds the latest value exactly when the last write to end has succeeded. */
  lemma {:induction false} LatestIsWritten<V>(events: seq<Event<V>>)
    requires AllCanHappen(NewFile<V>(), events)
    ensures var f := After(NewFile<V>(), events);
      && f.values == Values(events) && f.onDisk == LastWritten(NewFile<V>(), events, None)
      && (f.onDisk.Some? ==> f.onDisk.value < |f.values| && DiskHolds(f, f.values[f.onDisk.value]))
      && LatestWrittenWhenIdle(f, LastEnd(events, None))
  {
    hide Consistent, LatestWrittenWhenIdle, AllCanHappen, After, LastWritten;
    NewIsConsistent<V>();
    RunIsConsistent(NewFile<V>(), events);
    assert [] + Values(events) == Values(events);
    RunKnows(NewFile<V>(), events, None);
    ConsistentMeans(After(NewFile<V>(), events), LastEnd(events, None));
  }

  /** A call of setValue ends without an error from its own write only if its value was written or a
      later one was set. */
  lemma {:induction false} SupersededByLater<V>(events: seq<Event<V>>, i: nat)
    requires AllCanHappen(NewFile<V>(), events)
    requires i < |After(NewFile<V>(), events).writeQueue.settled|
    ensures var f := After(NewFile<V>(), events); var Settlement(task, outcome) := f.writeQueue.settled[i];
      && outcome != Cancelled
      && (outcome == ResolvedUndefined ==> task < |f.values| - 1)
  {
    hide Consistent, AllCanHappen, After;
    NewIsConsistent<V>();
    RunIsConsistent(NewFile<V>(), events);
    LatestNotSuperseded(After(NewFile<V>(), events), i);
  }

  lemma {:induction false} LatestNotSuperseded<V>(f: File<V>, i: nat)
    requires Consistent(f) && i < |f.writeQueue.settled|
    ensures var Settlement(task, outcome) := f.writeQueue.settled[i];
      outcome != Cancelled && (outcome == ResolvedUndefined ==> task < |f.values| - 1)
  {
    var q, task := f.writeQueue, f.writeQueue.settled[i].task;
    if Waits(q, task) { CountNone(q.settled, task); }
    if q.pendingTasks != [] { assert Waits(q, q.pendingTasks[0].task); }
  }

  // ---- The class ----

  class JSONFile<V> {
    var value: V
    const writeQueue: TaskQueue
    /** The contents taken by the writes started so far, and the number of the write that reached the disk
        last. */
    var contents: seq<V>
    var onDisk: Option<nat>
    /** All values set so far; the last one is the current value. */
    ghost var values: seq<V>

    ghost function AsFile(): File<V>
      reads this, writeQueue
    {
      File(writeQueue.AsQueue(), values, contents, onDisk)
    }

    ghost predicate Valid()
      reads this, writeQueue
    {
      Consistent(AsFile()) && (values != [] ==> value == values[|values| - 1])
    }

    constructor (initialValue: V)
      ensures Valid() && fresh(writeQueue) && AsFile() == NewFile<V>() && value == initialValue
    {
      value := initialValue;
      writeQueue := new TaskQueue();
      contents := [];
      onDisk := None;
      values := [];
      new;
      NewIsConsistent<V>();
    }

    method SetValue(value: V)
      requires Valid()
      modifies this, writeQueue
      ensures Valid() && this.value == value
      ensures AsFile() == AfterSetValue(old(AsFile()), value)
    {
      hide Consistent, Invariant;
      SetValueKeeps(AsFile(), value);
      QueueIsFine(AsFile());
      this.value := value;
      values := values + [value];
      writeQueue.ClearPending();
      writeQueue.ScheduleSkipIfCleared();
      Write();
    }

    /** What a started write does at once: it takes the current value as its content. */
    method Write()
      modifies this`contents
      ensures contents == if |writeQueue.started| > |old(contents)| then old(contents) + [value] else old(contents)
    {
      if |writeQueue.started| > |contents| {
        contents := contents + [value];
      }
    }

    /** The running write has reached the disk, or has failed. */
    method WriteEnded(succeeds: bool)
      requires Valid() && writeQueue.runningTask.Some?
      modifies this, writeQueue
      ensures Valid() && value == old(value)
      ensures AsFile() == AfterWrite(old(AsFile()), succeeds)
    {
      hide Consistent, Invariant;
      WriteKeeps(AsFile(), succeeds);
      QueueIsFine(AsFile());
      if succeeds {
        onDisk := writeQueue.runningTask;
      }
      writeQueue.FinishTask(succeeds);
      Write();
    }
  }

  lemma {:induction false} QueueIsFine<V>(f: File<V>)
    requires Consistent(f)
    ensures Invariant(f.writeQueue) && (f.writeQueue.runningTask.Some? ==> f.values != [])
  {
  }
}
