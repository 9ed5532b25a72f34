/** The virtual-time scheduler of copilot-fork/src/util/common/timeTravelScheduler.ts. */
module TimeTravelScheduler {
  import opened Wrappers

  /** A scheduled task; the scheduler numbers them in the order they come. */
  datatype Task = Task(time: int, id: nat)

  // ---- The order of tasks ----

  predicate Before(a: Task, b: Task) {
    a.time < b.time || (a.time == b.time && a.id < b.id)
  }

  predicate Ordered(tasks: seq<Task>) {
    forall i, j :: 0 <= i < j < |tasks| ==> Before(tasks[i], tasks[j])
  }

  predicate SameTasks(a: seq<Task>, b: seq<Task>) {
    (forall task :: task in a ==> task in b) && (forall task :: task in b ==> task in a)
  }

  /** No two tasks have the same number. */
  predicate Numbered(tasks: seq<Task>) {
    forall i, j :: 0 <= i < j < |tasks| ==> tasks[i].id != tasks[j].id
  }

  function Insert(task: Task, tasks: seq<Task>): seq<Task> {
    if tasks == [] || Before(task, tasks[0]) then [task] + tasks else [tasks[0]] + Insert(task, tasks[1..])
  }

  function Sorted(tasks: seq<Task>): seq<Task> {
    if tasks == [] then [] else Insert(tasks[|tasks| - 1], Sorted(tasks[..|tasks| - 1]))
  }

  function Without(tasks: seq<Task>, task: Task): seq<Task> {
    if tasks == [] then [] else if tasks[0] == task then tasks[1..] else [tasks[0]] + Without(tasks[1..], task)
  }

  lemma {:induction false} InsertHas(task: Task, tasks: seq<Task>)
    ensures |Insert(task, tasks)| == |tasks| + 1
    ensures forall other :: other in Insert(task, tasks) <==> other == task || other in tasks
  {
    if tasks != [] && !Before(task, tasks[0]) {
      InsertHas(task, tasks[1..]);
      assert tasks == [tasks[0]] + tasks[1..];
    }
  }

  lemma {:induction false} InsertOrdered(task: Task, tasks: seq<Task>)
    requires Ordered(tasks) && forall i :: 0 <= i < |tasks| ==> tasks[i].id != task.id
    ensures Ordered(Insert(task, tasks))
  {
    if tasks != [] && !Before(task, tasks[0]) {
      InsertOrdered(task, tasks[1..]);
      InsertHas(task, tasks[1..]);
      FirstBefore(tasks[0], Insert(task, tasks[1..]));
    }
  }

  lemma {:induction false} FirstBefore(first: Task, tasks: seq<Task>)
    requires Ordered(tasks) && forall task :: task in tasks ==> Before(first, task)
    ensures Ordered([first] + tasks)
  {
  }

  lemma {:induction false} SortedIs(tasks: seq<Task>)
    requires Numbered(tasks)
    ensures Ordered(Sorted(tasks)) && SameTasks(Sorted(tasks), tasks) && |Sorted(tasks)| == |tasks|
    decreases |tasks|
  {
    if tasks != [] {
      var init, last := tasks[..|tasks| - 1], tasks[|tasks| - 1];
      SortedIs(init);
      assert tasks == init + [last];
      InsertHas(last, Sorted(init));
      forall i | 0 <= i < |Sorted(init)| ensures Sorted(init)[i].id != last.id {
        assert Sorted(init)[i] in init;
      }
      InsertOrdered(last, Sorted(init));
    }
  }

  /** There is only one order. */
  lemma {:induction false} OrderedUnique(a: seq<Task>, b: seq<Task>)
    requires Ordered(a) && Ordered(b) && SameTasks(a, b)
    ensures a == b
    decreases |a|
  {
    assert b != [] ==> b[0] in b;
    if a != [] {
      assert a[0] in b && b[0] in a;
      assert a[0] == b[0];
      forall task ensures task in a[1..] <==> task in b[1..] {
        RestHas(a, task);
        RestHas(b, task);
      }
      OrderedUnique(a[1..], b[1..]);
      assert a == [a[0]] + a[1..] && b == [b[0]] + b[1..];
    }
  }

  lemma {:induction false} RestHas(tasks: seq<Task>, task: Task)
    requires Ordered(tasks) && tasks != []
    ensures task in tasks[1..] <==> task in tasks && task != tasks[0]
  {
    assert tasks == [tasks[0]] + tasks[1..];
  }

  lemma {:induction false} WithoutHas(tasks: seq<Task>, task: Task)
    requires Numbered(tasks)
    ensures forall other :: other in Without(tasks, task) <==> other in tasks && other != task
  {
    if tasks != [] {
      assert tasks == [tasks[0]] + tasks[1..];
      if tasks[0] != task { WithoutHas(tasks[1..], task); }
    }
  }

  lemma {:induction false} WithoutOrdered(tasks: seq<Task>, task: Task)
    requires Ordered(tasks)
    ensures Ordered(Without(tasks, task)) && forall other :: other in Without(tasks, task) ==> other in tasks
  {
    if tasks != [] && tasks[0] != task {
      WithoutOrdered(tasks[1..], task);
      assert tasks == [tasks[0]] + tasks[1..];
      FirstBefore(tasks[0], Without(tasks[1..], task));
    }
  }

  lemma {:induction false} WithoutNumbered(tasks: seq<Task>, task: Task)
    requires Numbered(tasks)
    ensures Numbered(Without(tasks, task)) && forall other :: other in Without(tasks, task) ==> other in tasks
  {
    if tasks != [] && tasks[0] != task {
      WithoutNumbered(tasks[1..], task);
      assert tasks == [tasks[0]] + tasks[1..];
      var rest := Without(tasks[1..], task);
      forall i | 0 <= i < |rest| ensures rest[i].id != tasks[0].id {
        assert rest[i] in tasks[1..];
      }
    }
  }

  // ---- The priority queue: sorted late, but as if it were always sorted ----

  lemma {:induction false} AddSorted(items: seq<Task>, value: Task)
    ensures Sorted(items + [value]) == Insert(value, Sorted(items))
  {
    assert (items + [value])[..|items|] == items;
  }

  lemma {:induction false} RemoveSorted(items: seq<Task>, value: Task)
    requires Numbered(items)
    ensures Sorted(Without(items, value)) == Without(Sorted(items), value)
  {
    SortedIs(items);
    WithoutNumbered(items, value);
    SortedIs(Without(items, value));
    WithoutOrdered(Sorted(items), value);
    WithoutHas(items, value);
    SortedNumbered(items);
    WithoutHas(Sorted(items), value);
    OrderedUnique(Sorted(Without(items, value)), Without(Sorted(items), value));
  }

  lemma {:induction false} SortedNumbered(items: seq<Task>)
    requires Numbered(items)
    ensures Numbered(Sorted(items))
  {
    SortedIs(items);
    var sorted := Sorted(items);
    forall i, j | 0 <= i < j < |sorted| ensures sorted[i].id != sorted[j].id {
      assert Before(sorted[i], sorted[j]) && sorted[i] in items && sorted[j] in items;
    }
  }

  lemma {:induction false} SortedOnce(items: seq<Task>)
    requires Numbered(items) && Ordered(items)
    ensures Sorted(items) == items
  {
    SortedIs(items);
    OrderedUnique(Sorted(items), items);
  }

  class SimplePriorityQueue {
    var isSorted: bool
    var items: seq<Task>

    ghost predicate Valid()
      reads this
    {
      Numbered(items) && (isSorted ==> Ordered(items))
    }

    /** The queue as if it were always sorted. */
    ghost function Contents(): seq<Task>
      reads this
    {
      Sorted(items)
    }

    constructor ()
      ensures Valid() && Contents() == []
    {
      isSorted, items := false, [];
    }

    method Length() returns (length: nat)
      requires Valid()
      ensures length == |Contents()|
    {
      SortedIs(items);
      length := |items|;
    }

    method Add(value: Task)
      requires Valid() && forall task :: task in Contents() ==> task.id != value.id
      modifies this
      ensures Valid() && Contents() == Insert(value, old(Contents()))
    {
      SortedIs(items);
      AddSorted(items, value);
      assert forall i :: 0 <= i < |items| ==> items[i] in items;
      items := items + [value];
      isSorted := false;
    }

    method Remove(value: Task)
      requires Valid()
      modifies this
      ensures Valid() && Contents() == Without(old(Contents()), value)
    {
      RemoveSorted(items, value);
      WithoutNumbered(items, value);
      if value in items {
        items := Without(items, value);
        isSorted := false;
      } else {
        WithoutNone(items, value);
      }
    }

    method EnsureSorted()
      requires Valid()
      modifies this
      ensures Valid() && Ordered(items) && Contents() == old(Contents()) == items
    {
      SortedIs(items);
      SortedNumbered(items);
      if !isSorted {
        SortedOnce(Sorted(items));
        items := Sorted(items);
        isSorted := true;
      }
      SortedOnce(items);
    }

    method RemoveMin() returns (min: Option<Task>)
      requires Valid()
      modifies this
      ensures Valid() && min == (if old(Contents()) == [] then None else Some(old(Contents())[0]))
      ensures Contents() == if old(Contents()) == [] then [] else old(Contents())[1..]
    {
      EnsureSorted();
      if |items| == 0 {
        return None;
      }
      min := Some(items[0]);
      items := items[1..];
      SortedOnce(items);
    }

    method ToSortedArray() returns (tasks: seq<Task>)
      requires Valid()
      modifies this
      ensures Valid() && tasks == Contents() == old(Contents())
    {
      EnsureSorted();
      tasks := items;
    }
  }

  lemma {:induction false} WithoutNone(tasks: seq<Task>, task: Task)
    requires task !in tasks
    ensures Without(tasks, task) == tasks
  {
    if tasks != [] {
      assert tasks == [tasks[0]] + tasks[1..];
      WithoutNone(tasks[1..], task);
    }
  }

  // ---- The scheduler, step by step ----

  /** `pending` stands in order.  `executed` records the tasks run so far. */
  datatype Timeline = Timeline(now: int, taskCounter: nat, pending: seq<Task>, executed: seq<Task>)

  /** Scheduling and disposing can happen between runs or inside a running task. */
  datatype Event = Add(time: int) | Dispose(task: Task) | RunNext

  const IDLE := Timeline(0, 0, [], [])

  /** A time in the past is an error and changes nothing. */
  function AfterAdd(s: Timeline, time: int): Timeline {
    if time < s.now then s
    else s.(taskCounter := s.taskCounter + 1, pending := Insert(Task(time, s.taskCounter), s.pending))
  }

  function AfterDispose(s: Timeline, task: Task): Timeline {
    s.(pending := Without(s.pending, task))
  }

  function AfterRunNext(s: Timeline): Timeline {
    if s.pending == [] then s
    else s.(now := s.pending[0].time, pending := s.pending[1..], executed := s.executed + [s.pending[0]])
  }

  function Step(s: Timeline, event: Event): Timeline {
    match event
    case Add(time) => AfterAdd(s, time)
    case Dispose(task) => AfterDispose(s, task)
    case RunNext => AfterRunNext(s)
  }

  function Run(s: Timeline, events: seq<Event>): Timeline
    decreases |events|
  {
    if events == [] then s else Run(Step(s, events[0]), events[1..])
  }

  ghost predicate PendingFits(s: Timeline) {
    && Ordered(s.pending) && Numbered(s.pending)
    && forall i :: 0 <= i < |s.pending| ==> s.pending[i].id < s.taskCounter && s.pending[i].time >= s.now
  }

  /** Tasks have run in the order of time, then number, and before every pending one; the clock shows
      the time of the last. */
  ghost predicate ExecutedFits(s: Timeline) {
    && Ordered(s.executed)
    && (forall i :: 0 <= i < |s.executed| ==> s.executed[i].id < s.taskCounter && s.executed[i].time <= s.now)
    && (s.executed != [] ==> s.now == s.executed[|s.executed| - 1].time)
    && (forall i, j :: 0 <= i < |s.executed| && 0 <= j < |s.pending| ==>
          Before(s.executed[i], s.pending[j]) && s.executed[i].id != s.pending[j].id)
  }

  ghost predicate Invariant(s: Timeline) {
    PendingFits(s) && ExecutedFits(s)
  }

  lemma {:induction false} AddKeeps(s: Timeline, time: int)
    requires Invariant(s)
    ensures Invariant(AfterAdd(s, time))
  {
    if time >= s.now {
      hide Insert;
      var task, after := Task(time, s.taskCounter), AfterAdd(s, time);
      InsertOrdered(task, s.pending);
      InsertHas(task, s.pending);
      InsertNumbered(task, s.pending);
      forall i | 0 <= i < |after.pending| ensures after.pending[i] == task || after.pending[i] in s.pending {
        assert after.pending[i] in after.pending;
      }
    }
  }

  lemma {:induction false} InsertNumbered(task: Task, tasks: seq<Task>)
    requires Numbered(tasks) && forall i :: 0 <= i < |tasks| ==> tasks[i].id != task.id
    ensures Numbered(Insert(task, tasks))
  {
    if tasks != [] && !Before(task, tasks[0]) {
      InsertNumbered(task, tasks[1..]);
      InsertHas(task, tasks[1..]);
      var rest := Insert(task, tasks[1..]);
      forall i | 0 <= i < |rest| ensures rest[i].id != tasks[0].id {
        assert rest[i] in rest;
      }
    }
  }

  lemma {:induction false} DisposeKeeps(s: Timeline, task: Task)
    requires Invariant(s)
    ensures Invariant(AfterDispose(s, task))
  {
    hide Without;
    WithoutOrdered(s.pending, task);
    WithoutNumbered(s.pending, task);
    var after := AfterDispose(s, task);
    assert forall i :: 0 <= i < |after.pending| ==> after.pending[i] in s.pending;
  }

  lemma {:induction false} RunNextKeeps(s: Timeline)
    requires Invariant(s)
    ensures Invariant(AfterRunNext(s))
  {
  }

  lemma {:induction false} StepKeeps(s: Timeline, event: Event)
    requires Invariant(s)
    ensures Invariant(Step(s, event))
    ensures Step(s, event).now >= s.now && Step(s, event).taskCounter >= s.taskCounter
  {
    hide Insert, Without, Numbered, Ordered;
    match event
    case Add(time) => AddKeeps(s, time);
    case Dispose(task) => DisposeKeeps(s, task);
    case RunNext => RunNextKeeps(s);
  }

  lemma {:induction false} IdleIsFine()
    ensures Invariant(IDLE)
  {
  }

  ghost predicate InOrderOfTime(tasks: seq<Task>) {
    forall i, j :: 0 <= i < j < |tasks| ==>
      tasks[i].time < tasks[j].time || (tasks[i].time == tasks[j].time && tasks[i].id < tasks[j].id)
  }

  /** Over whole runs, with tasks scheduling and disposing of others: tasks run in strictly increasing
      order of time and number, hence each at most once, and the clock never goes back. */
  lemma {:induction false} RunKeeps(s: Timeline, events: seq<Event>)
    requires Invariant(s)
    ensures Invariant(Run(s, events)) && InOrderOfTime(Run(s, events).executed)
    ensures Run(s, events).now >= s.now && s.executed <= Run(s, events).executed
    decreases |events|
  {
    hide Invariant, Step;
    if events == [] {
      InvariantMeans(s);
    } else {
      StepKeeps(s, events[0]);
      StepExtends(s, events[0]);
      RunKeeps(Step(s, events[0]), events[1..]);
    }
  }

  lemma {:induction false} InvariantMeans(s: Timeline)
    requires Invariant(s)
    ensures InOrderOfTime(s.executed)
  {
  }

  /** The next task is the pending one with the least time, and among those the one scheduled first; the clock
      goes to its time. */
  lemma {:induction false} RunNextTakesLeast(s: Timeline)
    requires Invariant(s) && s.pending != []
    ensures var after := AfterRunNext(s);
      && |after.executed| == |s.executed| + 1 && s.executed <= after.executed
      && var task := after.executed[|s.executed|];
         && after.now == task.time && multiset(s.pending) == multiset(after.pending) + multiset{task}
         && forall other :: other in s.pending && other != task ==>
              task.time < other.time || (task.time == other.time && task.id < other.id)
  {
    assert s.pending == [s.pending[0]] + s.pending[1..];
    forall other | other in s.pending && other != s.pending[0]
      ensures Before(s.pending[0], other) && s.pending[0].id != other.id
    {
      var j :| 0 <= j < |s.pending| && s.pending[j] == other;
      assert j > 0;
    }
  }

  lemma {:induction false} StepExtends(s: Timeline, event: Event)
    ensures s.executed <= Step(s, event).executed
  {
  }

  /** A task that is neither pending nor executed, but has its number, never runs again. */
  ghost predicate Gone(s: Timeline, task: Task) {
    task.id < s.taskCounter && task !in s.pending && task !in s.executed
  }

  /** A task disposed of before its turn never runs, whatever happens afterwards. */
  lemma {:induction false} DisposedNeverRuns(s: Timeline, task: Task, events: seq<Event>)
    requires Invariant(s) && task in s.pending
    ensures task !in Run(AfterDispose(s, task), events).executed
  {
    DisposeKeeps(s, task);
    WithoutHas(s.pending, task);
    GoneForever(AfterDispose(s, task), task, events);
  }

  lemma {:induction false} GoneForever(s: Timeline, task: Task, events: seq<Event>)
    requires Invariant(s) && Gone(s, task)
    ensures Gone(Run(s, events), task)
    decreases |events|
  {
    hide Invariant, Insert, Without;
    if events != [] {
      StepKeeps(s, events[0]);
      match events[0] {
        case Add(time) => InsertHas(Task(time, s.taskCounter), s.pending);
        case Dispose(other) => StillWithout(s.pending, other, task);
        case RunNext =>
      }
      GoneForever(Step(s, events[0]), task, events[1..]);
    }
  }

  lemma {:induction false} StillWithout(tasks: seq<Task>, other: Task, task: Task)
    requires task !in tasks
    ensures task !in Without(tasks, other)
  {
    if tasks != [] && tasks[0] != other {
      assert tasks == [tasks[0]] + tasks[1..];
      StillWithout(tasks[1..], other, task);
    }
  }

  // ---- Nothing is lost ----

  /** The task an event schedules, unless its time is in the past. */
  function Taken(s: Timeline, event: Event): seq<Task> {
    if event.Add? && event.time >= s.now then [Task(event.time, s.taskCounter)] else []
  }

  /** The pending task an event disposes of. */
  function Disposed(s: Timeline, event: Event): seq<Task> {
    if event.Dispose? && event.task in s.pending then [event.task] else []
  }

  function AllTaken(s: Timeline, events: seq<Event>): seq<Task>
    decreases |events|
  {
    if events == [] then [] else Taken(s, events[0]) + AllTaken(Step(s, events[0]), events[1..])
  }

  function AllDisposed(s: Timeline, events: seq<Event>): seq<Task>
    decreases |events|
  {
    if events == [] then [] else Disposed(s, events[0]) + AllDisposed(Step(s, events[0]), events[1..])
  }

  function Held(s: Timeline): multiset<Task> {
    multiset(s.pending) + multiset(s.executed)
  }

  lemma {:induction false} InsertAddsOne(task: Task, tasks: seq<Task>)
    ensures multiset(Insert(task, tasks)) == multiset(tasks) + multiset([task])
  {
    if tasks != [] && !Before(task, tasks[0]) {
      InsertAddsOne(task, tasks[1..]);
      assert tasks == [tasks[0]] + tasks[1..];
    }
  }

  lemma {:induction false} WithoutTakesOne(tasks: seq<Task>, task: Task)
    ensures multiset(tasks) == multiset(Without(tasks, task)) + multiset(if task in tasks then [task] else [])
  {
    if tasks != [] {
      assert tasks == [tasks[0]] + tasks[1..];
      if tasks[0] != task {
        WithoutTakesOne(tasks[1..], task);
      }
    }
  }

  lemma {:induction false} StepAccounts(s: Timeline, event: Event)
    ensures Held(s) + multiset(Taken(s, event)) == Held(Step(s, event)) + multiset(Disposed(s, event))
  {
    hide Insert, Without;
    match event
    case Add(time) => InsertAddsOne(Task(time, s.taskCounter), s.pending);
    case Dispose(task) => WithoutTakesOne(s.pending, task);
    case RunNext =>
      if s.pending != [] {
        assert s.pending == [s.pending[0]] + s.pending[1..];
      }
  }

  lemma {:induction false} Chain(held: multiset<Task>, taken: multiset<Task>, next: multiset<Task>,
          gone: multiset<Task>, taken': multiset<Task>, end: multiset<Task>, gone': multiset<Task>)
    requires held + taken == next + gone && next + taken' == end + gone'
    ensures held + (taken + taken') == end + (gone + gone')
  {
    assert held + (taken + taken') == (held + taken) + taken';
    assert (next + gone) + taken' == (next + taken') + gone;
  }

  lemma {:induction false} RunAccounts(s: Timeline, events: seq<Event>)
    ensures Held(s) + multiset(AllTaken(s, events)) == Held(Run(s, events)) + multiset(AllDisposed(s, events))
    decreases |events|
  {
    hide Held, Step, Taken, Disposed;
    if events != [] {
      var next := Step(s, events[0]);
      StepAccounts(s, events[0]);
      RunAccounts(next, events[1..]);
      Chain(Held(s), multiset(Taken(s, events[0])), Held(next), multiset(Disposed(s, events[0])),
          multiset(AllTaken(next, events[1..])), Held(Run(next, events[1..])),
          multiset(AllDisposed(next, events[1..])));
    }
  }

  /** The tasks taken are numbered in the order in which they were taken. */
  lemma {:induction false} TakenAreNumbered(s: Timeline, events: seq<Event>)
    ensures var taken := AllTaken(s, events);
      && Run(s, events).taskCounter == s.taskCounter + |taken|
      && forall i :: 0 <= i < |taken| ==> taken[i].id == s.taskCounter + i
    decreases |events|
  {
    if events != [] {
      TakenAreNumbered(Step(s, events[0]), events[1..]);
    }
  }

  /** From an empty scheduler, in every run: the tasks taken differ from each other, and each is pending, has
      been executed or has been disposed of while pending, exactly one of the three and once. */
  lemma {:induction false} NothingIsLost(events: seq<Event>)
    ensures var s, taken := Run(IDLE, events), AllTaken(IDLE, events);
      && (forall i, j :: 0 <= i < j < |taken| ==> taken[i] != taken[j])
      && multiset(taken) == multiset(s.pending) + multiset(s.executed) + multiset(AllDisposed(IDLE, events))
  {
    RunAccounts(IDLE, events);
    TakenAreNumbered(IDLE, events);
  }

  class TimeTravelScheduler {
    var taskCounter: nat
    var now: int
    const queue: SimplePriorityQueue
    ghost var executed: seq<Task>

    ghost function AsTimeline(): Timeline
      reads this, queue
    {
      Timeline(now, taskCounter, queue.Contents(), executed)
    }

    ghost predicate Valid()
      reads this, queue
    {
      queue.Valid() && Invariant(AsTimeline())
    }

    constructor ()
      ensures Valid() && fresh(queue) && AsTimeline() == IDLE
    {
      taskCounter, now, executed := 0, 0, [];
      queue := new SimplePriorityQueue();
      new;
      IdleIsFine();
    }

    method Schedule(time: int) returns (r: Result<Task>)
      requires Valid()
      modifies this, queue
      ensures Valid() && AsTimeline() == AfterAdd(old(AsTimeline()), time)
      ensures r.Ok? <==> time >= old(now)
      ensures r.Ok? ==> r.value == Task(time, old(taskCounter))
    {
      hide Insert, Sorted;
      AddKeeps(AsTimeline(), time);
      if time < now {
        return Error("Scheduled time must be equal to or greater than the current time");
      }
      var extendedTask := Task(time, taskCounter);
      taskCounter := taskCounter + 1;
      queue.Add(extendedTask);
      r := Ok(extendedTask);
    }

    /** What disposing of the result of Schedule does. */
    method Dispose(task: Task)
      requires Valid()
      modifies queue
      ensures Valid() && AsTimeline() == AfterDispose(old(AsTimeline()), task)
    {
      hide Without, Sorted;
      DisposeKeeps(AsTimeline(), task);
      queue.Remove(task);
    }

    method HasScheduledTasks() returns (has: bool)
      requires Valid()
      ensures has <==> AsTimeline().pending != []
    {
      var length := queue.Length();
      has := length > 0;
    }

    /** Up to the call of the task. */
    method RunNext() returns (task: Option<Task>)
      requires Valid()
      modifies this, queue
      ensures Valid() && AsTimeline() == AfterRunNext(old(AsTimeline()))
      ensures task == if old(AsTimeline()).pending == [] then None else Some(old(AsTimeline()).pending[0])
    {
      hide Sorted;
      RunNextKeeps(AsTimeline());
      task := queue.RemoveMin();
      if task.Some? {
        now := task.value.time;
        executed := executed + [task.value];
      }
    }
  }
}
