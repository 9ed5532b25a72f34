/** The batching of copilot-fork/src/util/common/async.ts: requests are gathered until a timer fires, and
    then answered together.  Promises are numbered in the order of the requests. */
module BatchedProcessor {
  import opened Sequences

  datatype Entry<+A> = Entry(arg: A, promise: nat)

  datatype Answer<+R> = Result(value: R) | Failure

  datatype Settled<+R> = Settled(promise: nat, answer: Answer<R>)

  /** `batches` are the calls under way; `orphaned` the promises that no call under way, queued request
      or answer will settle; `overrun` tells that a call gave more results than it had arguments. */
  datatype Batcher<+A, +R> = Batcher(queue: seq<Entry<A>>, timeout: bool, batches: seq<seq<Entry<A>>>, requested: nat,
          settled: seq<Settled<R>>, orphaned: seq<nat>, overrun: bool)

  function AfterRequest<A, R>(b: Batcher<A, R>, arg: A): Batcher<A, R> {
    b.(timeout := true, queue := b.queue + [Entry(arg, b.requested)], requested := b.requested + 1)
  }

  function AfterFlush<A, R>(b: Batcher<A, R>): Batcher<A, R> {
    b.(queue := [], timeout := false, batches := b.batches + [b.queue])
  }

  function Promises<A>(entries: seq<Entry<A>>): seq<nat> {
    seq(|entries|, i requires 0 <= i < |entries| => entries[i].promise)
  }

  /** Each result goes to the entry of its position. */
  function Answered<A, R>(batch: seq<Entry<A>>, answers: seq<Answer<R>>): (r: seq<Settled<R>>)
    requires |answers| <= |batch|
  {
    seq(|answers|, i requires 0 <= i < |answers| => Settled(batch[i].promise, answers[i]))
  }

  function AfterAnswers<A, R>(b: Batcher<A, R>, i: nat, answers: seq<Answer<R>>): Batcher<A, R>
    requires i < |b.batches|
  {
    var batch := b.batches[i];
    var n := if |answers| < |batch| then |answers| else |batch|;
    b.(batches := RemoveAt(b.batches, i), settled := b.settled + Answered(batch, answers[..n]),
       orphaned := b.orphaned + Promises(batch[n..]), overrun := b.overrun || |answers| > |batch|)
  }

  function AllFailures<R>(n: nat): seq<Answer<R>> {
    seq(n, _ => Failure)
  }

  function AfterThrow<A, R>(b: Batcher<A, R>, i: nat): Batcher<A, R>
    requires i < |b.batches|
  {
    AfterAnswers(b, i, AllFailures(|b.batches[i]|))
  }

  datatype Event<+A, +R> = Request(arg: A) | TimerFires | Returns(batch: nat, results: seq<R>) | Throws(batch: nat)

  function Results<R>(values: seq<R>): seq<Answer<R>> {
    seq(|values|, i requires 0 <= i < |values| => Result(values[i]))
  }

  predicate Enabled<A, R>(b: Batcher<A, R>, event: Event<A, R>) {
    match event
    case Request(_) => true
    case TimerFires => b.timeout
    case Returns(i, _) => i < |b.batches|
    case Throws(i) => i < |b.batches|
  }

  function Step<A, R>(b: Batcher<A, R>, event: Event<A, R>): Batcher<A, R>
    requires Enabled(b, event)
  {
    match event
    case Request(arg) => AfterRequest(b, arg)
    case TimerFires => AfterFlush(b)
    case Returns(i, results) => AfterAnswers(b, i, Results(results))
    case Throws(i) => AfterThrow(b, i)
  }

  predicate Possible<A, R>(b: Batcher<A, R>, events: seq<Event<A, R>>)
    decreases |events|
  {
    events != [] ==> Enabled(b, events[0]) && Possible(Step(b, events[0]), events[1..])
  }

  function Run<A, R>(b: Batcher<A, R>, events: seq<Event<A, R>>): Batcher<A, R>
    requires Possible(b, events)
    decreases |events|
  {
    if events == [] then b else Run(Step(b, events[0]), events[1..])
  }

  function Empty<A, R>(): Batcher<A, R> {
    Batcher([], false, [], 0, [], [], false)
  }

  // ---- Every promise is somewhere, once ----

  function SettledPromises<R>(settled: seq<Settled<R>>): seq<nat> {
    seq(|settled|, i requires 0 <= i < |settled| => settled[i].promise)
  }

  function Flat<A>(batches: seq<seq<Entry<A>>>): seq<nat> {
    if batches == [] then [] else Promises(batches[0]) + Flat(batches[1..])
  }

  function UpTo(n: nat): seq<nat> {
    if n == 0 then [] else UpTo(n - 1) + [n - 1]
  }

  ghost predicate Accounted<A, R>(b: Batcher<A, R>) {
    multiset(UpTo(b.requested)) ==
      multiset(Promises(b.queue)) + multiset(Flat(b.batches)) + multiset(SettledPromises(b.settled))
          + multiset(b.orphaned)
  }

  /** A timer runs exactly when requests are waiting for it. */
  ghost predicate TimerIffWaiting<A, R>(b: Batcher<A, R>) {
    b.timeout <==> b.queue != []
  }

  lemma {:induction false} FlatPush<A>(batches: seq<seq<Entry<A>>>, last: seq<Entry<A>>)
    ensures multiset(Flat(batches + [last])) == multiset(Flat(batches)) + multiset(Promises(last))
  {
    if batches == [] {
      assert [last][1..] == [];
    } else {
      FlatPush(batches[1..], last);
      assert (batches + [last])[1..] == batches[1..] + [last];
    }
  }

  lemma {:induction false} Exchange<T>(first: multiset<T>, rest: multiset<T>, others: multiset<T>, taken: multiset<T>)
    requires rest == others + taken
    ensures first + rest == first + others + taken
  {
  }

  lemma {:induction false} FlatRemove<A>(batches: seq<seq<Entry<A>>>, i: nat)
    requires i < |batches|
    ensures multiset(Flat(batches)) == multiset(Flat(RemoveAt(batches, i))) + multiset(Promises(batches[i]))
  {
    hide Promises;
    var after, first := RemoveAt(batches, i), Promises(batches[0]);
    if i == 0 {
      assert after == batches[1..];
    } else {
      FlatRemove(batches[1..], i - 1);
      assert after[1..] == RemoveAt(batches[1..], i - 1) && after[0] == batches[0];
      Exchange(multiset(first), multiset(Flat(batches[1..])), multiset(Flat(after[1..])),
          multiset(Promises(batches[i])));
    }
  }

  lemma {:induction false} AddOne<T>(all: multiset<T>, queued: multiset<T>, rest: multiset<T>, one: multiset<T>)
    requires all == queued + rest
    ensures all + one == queued + one + rest
  {
  }

  lemma {:induction false} RequestKeeps<A, R>(b: Batcher<A, R>, arg: A)
    requires Accounted(b)
    ensures Accounted(AfterRequest(b, arg))
  {
    hide Promises, Flat;
    PromisesPush(b.queue, Entry(arg, b.requested));
    AddOne(multiset(UpTo(b.requested)), multiset(Promises(b.queue)),
        multiset(Flat(b.batches)) + multiset(SettledPromises(b.settled)) + multiset(b.orphaned),
        multiset([b.requested]));
  }

  lemma {:induction false} PromisesPush<A>(entries: seq<Entry<A>>, last: Entry<A>)
    ensures Promises(entries + [last]) == Promises(entries) + [last.promise]
  {
  }

  lemma {:induction false} FlushKeeps<A, R>(b: Batcher<A, R>)
    requires Accounted(b)
    ensures Accounted(AfterFlush(b))
  {
    FlatPush(b.batches, b.queue);
    assert Promises<A>([]) == [];
  }

  lemma {:induction false} Distribute<T>(all: multiset<T>, queued: multiset<T>, flat: multiset<T>, others: multiset<T>,
          settled: multiset<T>, orphaned: multiset<T>, answered: multiset<T>, left: multiset<T>)
    requires all == queued + flat + settled + orphaned && flat == others + (answered + left)
    ensures all == queued + others + (settled + answered) + (orphaned + left)
  {
  }

  lemma {:induction false} AnswersKeep<A, R>(b: Batcher<A, R>, i: nat, answers: seq<Answer<R>>)
    requires Accounted(b) && i < |b.batches|
    ensures Accounted(AfterAnswers(b, i, answers))
  {
    hide RemoveAt, Flat, UpTo;
    var batch := b.batches[i];
    var n := if |answers| < |batch| then |answers| else |batch|;
    FlatRemove(b.batches, i);
    var settled, left := Answered(batch, answers[..n]), Promises(batch[n..]);
    assert SettledPromises(b.settled + settled) == SettledPromises(b.settled) + SettledPromises(settled);
    assert Promises(batch) == SettledPromises(settled) + left;
    Distribute(multiset(UpTo(b.requested)), multiset(Promises(b.queue)), multiset(Flat(b.batches)),
        multiset(Flat(RemoveAt(b.batches, i))), multiset(SettledPromises(b.settled)), multiset(b.orphaned),
        multiset(SettledPromises(settled)), multiset(left));
  }

  lemma {:induction false} RunKeeps<A, R>(b: Batcher<A, R>, events: seq<Event<A, R>>)
    requires Accounted(b) && TimerIffWaiting(b) && Possible(b, events)
    ensures Accounted(Run(b, events)) && TimerIffWaiting(Run(b, events))
    decreases |events|
  {
    hide Accounted, AfterAnswers;
    if events != [] {
      match events[0] {
        case Request(arg) => RequestKeeps(b, arg);
        case TimerFires => FlushKeeps(b);
        case Returns(i, results) =>
          AnswersKeep(b, i, Results(results));
          AnswersWait(b, i, Results(results));
        case Throws(i) =>
          AnswersKeep(b, i, AllFailures(|b.batches[i]|));
          AnswersWait(b, i, AllFailures(|b.batches[i]|));
      }
      RunKeeps(Step(b, events[0]), events[1..]);
    }
  }

  lemma {:induction false} AnswersWait<A, R>(b: Batcher<A, R>, i: nat, answers: seq<Answer<R>>)
    requires i < |b.batches|
    ensures AfterAnswers(b, i, answers).queue == b.queue && AfterAnswers(b, i, answers).timeout == b.timeout
    ensures AfterAnswers(b, i, answers).orphaned == b.orphaned <==> |answers| >= |b.batches[i]|
  {
  }

  lemma {:induction false} EachOnce(n: nat)
    ensures |UpTo(n)| == n && forall k: nat :: multiset(UpTo(n))[k] == if k < n then 1 else 0
  {
    if n > 0 { EachOnce(n - 1); }
  }

  // ---- Each answer reaches the request it belongs to ----

  function Asked<A, R>(event: Event<A, R>): seq<A> {
    if event.Request? then [event.arg] else []
  }

  /** The arguments, in the order of the requests. */
  function Arguments<A, R>(events: seq<Event<A, R>>): seq<A> {
    if events == [] then [] else Asked(events[0]) + Arguments(events[1..])
  }

  /** Each entry has the argument its promise was requested with. */
  predicate Carries<A(==)>(entries: seq<Entry<A>>, args: seq<A>) {
    forall i :: 0 <= i < |entries| ==> entries[i].promise < |args| && entries[i].arg == args[entries[i].promise]
  }

  predicate ArgumentsFit<A(==), R>(b: Batcher<A, R>, args: seq<A>) {
    && |args| == b.requested && Carries(b.queue, args)
    && forall k :: 0 <= k < |b.batches| ==> Carries(b.batches[k], args)
  }

  /** The call ends, and the promise of one of its arguments gets the result at the same position, or the
      failure.  The argument is the one the promise was requested with. */
  ghost predicate Answers<A, R>(b: Batcher<A, R>, event: Event<A, R>, args: seq<A>, s: Settled<R>)
    requires Enabled(b, event)
  {
    match event
    case Returns(i, results) =>
      exists j :: 0 <= j < |results| && AnswersAt(b.batches[i], j, args, s, Result(results[j]))
    case Throws(i) => exists j :: 0 <= j < |b.batches[i]| && AnswersAt(b.batches[i], j, args, s, Failure)
    case _ => false
  }

  ghost predicate AnswersAt<A, R>(batch: seq<Entry<A>>, j: nat, args: seq<A>, s: Settled<R>, answer: Answer<R>) {
    && j < |batch| && s == Settled(batch[j].promise, answer)
    && batch[j].promise < |args| && batch[j].arg == args[batch[j].promise]
  }

  ghost predicate SomeCallAnswers<A, R>(b: Batcher<A, R>, events: seq<Event<A, R>>, args: seq<A>, s: Settled<R>)
    requires Possible(b, events)
    decreases |events|
  {
    events != [] && (Answers(b, events[0], args, s) || SomeCallAnswers(Step(b, events[0]), events[1..], args, s))
  }

  lemma {:induction false} CarriesMore<A>(entries: seq<Entry<A>>, args: seq<A>, more: seq<A>)
    requires Carries(entries, args)
    ensures Carries(entries, args + more)
  {
  }

  lemma {:induction false} StepFits<A, R>(b: Batcher<A, R>, event: Event<A, R>, args: seq<A>)
    requires ArgumentsFit(b, args) && Enabled(b, event)
    ensures ArgumentsFit(Step(b, event), args + Asked(event))
  {
    hide Carries;
    var asked := Asked(event);
    var after := Step(b, event);
    CarriesMore(b.queue, args, asked);
    match event
    case Request(arg) =>
      CarriesPush(b.queue, Entry(arg, b.requested), args + asked);
      forall k | 0 <= k < |after.batches| ensures Carries(after.batches[k], args + asked) {
        CarriesMore(b.batches[k], args, asked);
      }
    case TimerFires =>
      CarriesNone(args + asked);
      forall k | 0 <= k < |after.batches| ensures Carries(after.batches[k], args + asked) {
        if k < |b.batches| { CarriesMore(b.batches[k], args, asked); }
      }
    case _ =>
      var i := event.batch;
      RemoveAtShape(b.batches, i);
      forall k | 0 <= k < |after.batches| ensures Carries(after.batches[k], args + asked) {
        CarriesMore(b.batches[if k < i then k else k + 1], args, asked);
      }
  }

  lemma {:induction false} CarriesPush<A>(entries: seq<Entry<A>>, last: Entry<A>, args: seq<A>)
    requires Carries(entries, args) && last.promise < |args| && last.arg == args[last.promise]
    ensures Carries(entries + [last], args)
  {
  }

  lemma {:induction false} CarriesNone<A>(args: seq<A>)
    ensures Carries([], args)
  {
  }

  lemma {:induction false} AnswersSettle<A, R>(b: Batcher<A, R>, i: nat, answers: seq<Answer<R>>, args: seq<A>,
          all: seq<A>, s: Settled<R>)
    requires ArgumentsFit(b, args) && i < |b.batches| && args <= all
    ensures s in AfterAnswers(b, i, answers).settled
        <==> s in b.settled || exists j :: 0 <= j < |answers| && AnswersAt(b.batches[i], j, all, s, answers[j])
  {
    var batch := b.batches[i];
    var n := if |answers| < |batch| then |answers| else |batch|;
    var given := Answered(batch, answers[..n]);
    AnsweredAre(batch, answers[..n]);
    forall j | 0 <= j < n
      ensures AnswersAt(batch, j, all, s, answers[j]) <==> s == given[j]
    {
      assert given[j] == Settled(batch[j].promise, answers[j]);
    }
    assert forall j :: n <= j < |answers| ==> !AnswersAt(batch, j, all, s, answers[j]);
  }

  lemma {:induction false} StepSettles<A, R>(b: Batcher<A, R>, event: Event<A, R>, args: seq<A>, all: seq<A>,
          s: Settled<R>)
    requires ArgumentsFit(b, args) && Enabled(b, event) && args <= all
    ensures s in Step(b, event).settled <==> s in b.settled || Answers(b, event, all, s)
  {
    hide AnswersAt, AfterAnswers, ArgumentsFit, Results;
    match event
    case Returns(i, results) =>
      ResultsAre(results);
      AnswersSettle(b, i, Results(results), args, all, s);
      forall j | 0 <= j < |results|
        ensures AnswersAt(b.batches[i], j, all, s, Results(results)[j])
           == AnswersAt(b.batches[i], j, all, s, Result(results[j]))
      {
      }
    case Throws(i) =>
      var failures := AllFailures<R>(|b.batches[i]|);
      AnswersSettle(b, i, failures, args, all, s);
      forall j | 0 <= j < |failures|
        ensures AnswersAt(b.batches[i], j, all, s, failures[j]) == AnswersAt(b.batches[i], j, all, s, Failure)
      {
      }
    case _ =>
  }

  /** In every run a promise is settled with an answer exactly when some call has given it that answer: the
      result at the position of the promise's own argument, or the failure of the call. */
  lemma {:induction false} SettledByCalls<A, R>(b: Batcher<A, R>, events: seq<Event<A, R>>, args: seq<A>, s: Settled<R>)
    requires ArgumentsFit(b, args) && Possible(b, events)
    ensures s in Run(b, events).settled <==> s in b.settled || SomeCallAnswers(b, events, args + Arguments(events), s)
    decreases |events|
  {
    hide Answers, Step, Enabled, ArgumentsFit, Asked;
    if events != [] {
      var all, asked := args + Arguments(events), Asked(events[0]);
      assert all == args + asked + Arguments(events[1..]);
      StepFits(b, events[0], args);
      StepSettles(b, events[0], args, all, s);
      SettledByCalls(Step(b, events[0]), events[1..], args + asked, s);
    }
  }

  /** The same from the start: the answers given are the results at the positions of the promises' own
      arguments, in calls made with them, and the failures of such calls. */
  lemma {:induction false} AnswersReachTheirRequests<A, R>(events: seq<Event<A, R>>, s: Settled<R>)
    requires Possible(Empty<A, R>(), events)
    ensures s in Run(Empty<A, R>(), events).settled
        <==> SomeCallAnswers(Empty<A, R>(), events, Arguments(events), s)
  {
    hide Run, SomeCallAnswers, Possible;
    assert [] + Arguments(events) == Arguments(events);
    SettledByCalls(Empty<A, R>(), events, [], s);
  }

  // ---- The arguments of a call ----

  /** Promises numbered one after the other. */
  predicate Consecutive<A>(entries: seq<Entry<A>>, first: int) {
    forall i :: 0 <= i < |entries| ==> entries[i].promise == first + i
  }

  /** The requests that wait are the latest ones, and each call has requests that came one after the other, all in
      the order in which they came. */
  ghost predicate InOrder<A, R>(b: Batcher<A, R>) {
    && Consecutive(b.queue, b.requested - |b.queue|)
    && forall k :: 0 <= k < |b.batches| ==> b.batches[k] != [] ==> Consecutive(b.batches[k], b.batches[k][0].promise)
  }

  lemma {:induction false} StepInOrder<A, R>(b: Batcher<A, R>, event: Event<A, R>)
    requires InOrder(b) && Enabled(b, event)
    ensures InOrder(Step(b, event))
  {
    match event
    case Request(_) =>
    case TimerFires =>
    case _ => RemoveAtShape(b.batches, event.batch);
  }

  /** In every run a call is made with requests that came one after the other, in this order. */
  lemma {:induction false} CallsInOrder<A, R>(b: Batcher<A, R>, events: seq<Event<A, R>>)
    requires InOrder(b) && Possible(b, events)
    ensures InOrder(Run(b, events))
    decreases |events|
  {
    hide InOrder, Step, Enabled;
    if events != [] {
      StepInOrder(b, events[0]);
      CallsInOrder(Step(b, events[0]), events[1..]);
    }
  }

  /** A call returns more results than it had arguments. */
  predicate SomeTooMany<A, R>(b: Batcher<A, R>, events: seq<Event<A, R>>)
    requires Possible(b, events)
    decreases |events|
  {
    events != [] &&
    ((events[0].Returns? && |events[0].results| > |b.batches[events[0].batch]|)
     || SomeTooMany(Step(b, events[0]), events[1..]))
  }

  lemma {:induction false} StepOverruns<A, R>(b: Batcher<A, R>, event: Event<A, R>)
    requires Enabled(b, event)
    ensures Step(b, event).overrun
       <==> b.overrun || (event.Returns? && |event.results| > |b.batches[event.batch]|)
  {
  }

  lemma {:induction false} OverrunExactly<A, R>(b: Batcher<A, R>, events: seq<Event<A, R>>)
    requires Possible(b, events)
    ensures Run(b, events).overrun <==> b.overrun || SomeTooMany(b, events)
    decreases |events|
  {
    hide Step, Enabled;
    if events != [] {
      StepOverruns(b, events[0]);
      OverrunExactly(Step(b, events[0]), events[1..]);
    }
  }

  /** No call returns fewer results than it had arguments. */
  predicate NeverTooFew<A, R>(b: Batcher<A, R>, events: seq<Event<A, R>>)
    requires Possible(b, events)
    decreases |events|
  {
    events != [] ==>
      && !(events[0].Returns? && |events[0].results| < |b.batches[events[0].batch]|)
      && NeverTooFew(Step(b, events[0]), events[1..])
  }

  lemma {:induction false} StepOrphans<A, R>(b: Batcher<A, R>, event: Event<A, R>)
    requires Enabled(b, event)
    ensures b.orphaned <= Step(b, event).orphaned
    ensures |Step(b, event).orphaned| == |b.orphaned|
       <==> !(event.Returns? && |event.results| < |b.batches[event.batch]|)
  {
  }

  /** A run leaves a promise to nobody exactly when one of its calls returns too few results. */
  lemma {:induction false} OrphansExactly<A, R>(b: Batcher<A, R>, events: seq<Event<A, R>>)
    requires Possible(b, events)
    ensures b.orphaned <= Run(b, events).orphaned
    ensures |Run(b, events).orphaned| == |b.orphaned| <==> NeverTooFew(b, events)
    decreases |events|
  {
    hide Step, Enabled;
    if events != [] {
      StepOrphans(b, events[0]);
      OrphansExactly(Step(b, events[0]), events[1..]);
    }
  }

  /** Once nothing waits and no call is under way, every promise has been settled, and only once, exactly
      when no call has returned fewer results than it had arguments. */
  lemma {:induction false} AllSettledOnce<A, R>(events: seq<Event<A, R>>)
    requires Possible(Empty<A, R>(), events)
    ensures var b := Run(Empty<A, R>(), events);
      b.queue == [] && b.batches == [] ==>
        (NeverTooFew(Empty(), events)
         <==> forall p: nat :: multiset(SettledPromises(b.settled))[p] == if p < b.requested then 1 else 0)
  {
    hide Accounted, Run, Possible, NeverTooFew;
    var b := Run(Empty<A, R>(), events);
    EmptyIsFine<A, R>();
    RunKeeps(Empty<A, R>(), events);
    OrphansExactly(Empty<A, R>(), events);
    EachOnce(b.requested);
    if b.queue == [] && b.batches == [] {
      NothingElsewhere(b);
      var settled := multiset(SettledPromises(b.settled));
      if b.orphaned != [] {
        var p := b.orphaned[0];
        assert p in b.orphaned && multiset(b.orphaned)[p] > 0;
        assert multiset(UpTo(b.requested))[p] == settled[p] + multiset(b.orphaned)[p];
        assert settled[p] != if p < b.requested then 1 else 0;
      } else {
        assert settled == multiset(UpTo(b.requested));
      }
    }
  }

  /** Such a call exists: one request, and a call that returns no results. */
  lemma {:induction false} NoResults<A, R>(arg: A)
    ensures var events := [Event<A, R>.Request(arg), TimerFires, Returns(0, [])];
      && Possible(Empty(), events) && !NeverTooFew(Empty(), events)
      && var b := Run(Empty(), events); b.requested == 1 && b.queue == [] && b.batches == [] && b.settled == []
  {
    var events := [Event<A, R>.Request(arg), TimerFires, Returns(0, [])];
    assert events[1..] == [TimerFires, Returns(0, [])] && events[1..][1..] == [Returns(0, [])];
    var b1 := Step(Empty(), events[0]);
    assert b1.queue == [Entry(arg, 0)];
    var b2 := Step(b1, events[1]);
    assert b2.batches == [[Entry(arg, 0)]];
    var b3 := Step(b2, events[2]);
    assert events[2..] == [Returns(0, [])] && events[2..][1..] == [];
    assert Possible(b3, []) && Run(b3, []) == b3;
    assert Possible(b2, events[2..]) && Run(b2, events[2..]) == b3 && !NeverTooFew(b2, events[2..]);
    assert Possible(b1, events[1..]) && Run(b1, events[1..]) == b3 && !NeverTooFew(b1, events[1..]);
  }

  lemma {:induction false} NothingElsewhere<A, R>(b: Batcher<A, R>)
    requires Accounted(b) && b.queue == [] && b.batches == []
    ensures multiset(UpTo(b.requested)) == multiset(SettledPromises(b.settled)) + multiset(b.orphaned)
  {
    assert Promises(b.queue) == [] && Flat(b.batches) == [];
  }

  lemma {:induction false} EmptyIsFine<A, R>()
    ensures Accounted(Empty<A, R>()) && TimerIffWaiting(Empty<A, R>())
  {
    assert Promises<A>([]) == [] && SettledPromises<R>([]) == [];
  }

  lemma {:induction false} AnsweredAre<A, R>(batch: seq<Entry<A>>, answers: seq<Answer<R>>)
    requires |answers| <= |batch|
    ensures |Answered(batch, answers)| == |answers|
    ensures forall i :: 0 <= i < |answers| ==> Answered(batch, answers)[i] == Settled(batch[i].promise, answers[i])
  {
  }

  lemma {:induction false} ResultsAre<R>(values: seq<R>)
    ensures |Results(values)| == |values| && forall i :: 0 <= i < |values| ==> Results(values)[i] == Result(values[i])
  {
  }

  lemma {:induction false} NoPromises<A>(entries: seq<Entry<A>>)
    requires entries == []
    ensures Promises(entries) == []
  {
  }

  // ---- The class ----

  class BatchedProcessor<A, R> {
    var queue: seq<Entry<A>>
    var timeout: bool
    var batches: seq<seq<Entry<A>>>
    var requested: nat
    var settled: seq<Settled<R>>
    var orphaned: seq<nat>
    var overrun: bool

    ghost function AsBatcher(): Batcher<A, R>
      reads this
    {
      Batcher(queue, timeout, batches, requested, settled, orphaned, overrun)
    }

    ghost predicate Valid()
      reads this
    {
      Accounted(AsBatcher()) && TimerIffWaiting(AsBatcher())
    }

    constructor ()
      ensures Valid() && AsBatcher() == Empty()
    {
      queue, timeout, batches, requested, settled, orphaned, overrun := [], false, [], 0, [], [], false;
      new;
      EmptyIsFine<A, R>();
    }

    method Request(arg: A)
      requires Valid()
      modifies this
      ensures Valid() && AsBatcher() == AfterRequest(old(AsBatcher()), arg)
    {
      hide Accounted;
      RequestKeeps(AsBatcher(), arg);
      if !timeout {
        timeout := true;
      }
      queue := queue + [Entry(arg, requested)];
      requested := requested + 1;
    }

    /** The timer fires, up to the call with the gathered arguments. */
    method Flush()
      requires Valid() && timeout
      modifies this
      ensures Valid() && AsBatcher() == AfterFlush(old(AsBatcher()))
    {
      hide Accounted;
      FlushKeeps(AsBatcher());
      batches := batches + [queue];
      queue := [];
      timeout := false;
    }

    /** A call returns: the results are handed out one by one, and one too many is an error. */
    method Return(i: nat, results: seq<R>)
      requires Valid() && i < |batches|
      modifies this
      ensures Valid() && AsBatcher() == AfterAnswers(old(AsBatcher()), i, Results(results))
    {
      hide Accounted, Answered, Results, Promises;
      AnswersKeep(AsBatcher(), i, Results(results));
      AnswersWait(AsBatcher(), i, Results(results));
      ResultsAre(results);
      var batch := batches[i];
      ghost var n := if |results| < |batch| then |results| else |batch|;
      ghost var before, all := settled, Answered(batch, Results(results)[..n]);
      AnsweredAre(batch, Results(results)[..n]);
      batches := RemoveAt(batches, i);
      var k := 0;
      while k < |results| && k < |batch|
        modifies this`settled
        invariant k <= n && settled == before + all[..k]
      {
        PushTaken(before, all, k);
        settled := settled + [Settled(batch[k].promise, Result(results[k]))];
        k := k + 1;
      }
      assert k == n && all[..k] == all;
      orphaned := orphaned + Promises(batch[k..]);
      overrun := overrun || k < |results|;
    }

    /** A call throws: every promise of its batch fails. */
    method Throw(i: nat)
      requires Valid() && i < |batches|
      modifies this
      ensures Valid() && AsBatcher() == AfterThrow(old(AsBatcher()), i)
    {
      hide Accounted, Answered, Promises;
      var batch := batches[i];
      AnswersKeep(AsBatcher(), i, AllFailures<R>(|batch|));
      AnswersWait(AsBatcher(), i, AllFailures<R>(|batch|));
      ghost var before, all := settled, Answered(batch, AllFailures<R>(|batch|)[..|batch|]);
      AnsweredAre(batch, AllFailures<R>(|batch|)[..|batch|]);
      batches := RemoveAt(batches, i);
      var k := 0;
      while k < |batch|
        modifies this`settled
        invariant k <= |batch| && settled == before + all[..k]
      {
        PushTaken(before, all, k);
        settled := settled + [Settled(batch[k].promise, Failure)];
        k := k + 1;
      }
      assert all[..k] == all;
      NoPromises(batch[|batch|..]);
    }
  }
}
