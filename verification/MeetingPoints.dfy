/** What follows from an overlap of the two searches, and from its absence. */
module MeetingPoints {
  import opened Sequences

  import opened EditGraph
  import opened DiagonalSearch
  import opened RecordedWalk

  /** The recording of a search suffices to walk back from a cell of the current round, starting at any
      point `to` between the landing point of its step and the point stored. */
  lemma {:induction false} CellWalks<T>(original: seq<T>, modified: seq<T>, range: SearchRange, a: seq<T>, b: seq<T>,
          forward: bool, levels: seq<seq<int>>, history: seq<seq<int>>, points: seq<int>, cell: int, x: int, to: int)
    requires Seen(original, modified, range, a, b, forward) && Levels(a, b, levels, forward)
    requires |levels| == 1 || |a| + |b| > 2
    requires |history| == |levels| - 1 && History(range, |a|, |b|, history, levels, forward)
    requires Holds(range, |a|, |b|, points, levels[|levels| - 1], |levels| - 1, forward)
    requires Stepped(a, b, levels[|levels| - 1], cell, |levels|, forward, x)
    requires Landing(|a|, |b|, levels[|levels| - 1], cell, |levels|, forward) <= to <= x
    ensures var n, m, r := |a|, |b|, |levels|;
      Walk(original, modified, range, forward, history, points, if forward then m else n,
           WindowMin(n, m, 0, r, forward), WindowMax(n, m, 0, r, forward), if forward then cell - m else m - cell,
           X(range, to, forward), Y(range, to, cell - m, forward))
  {
    hide EditInto, Landing, InRound, Walk, LeadsTo, History, Levels;
    var n, m, r := |a|, |b|, |levels|;
    var level := levels[r - 1];
    var t := Landing(n, m, level, cell, r, forward);
    EditIntoPoints(range, n, m, level, r, cell, forward);
    assert Snake(a, b, t, to, cell - m);
    SeenUnchanged(original, modified, range, a, b, forward, t, to, cell - m,
        EditInto(range, n, m, level, r, cell, forward));
    WindowFromVector(range, n, m, level, points, r, forward);
    HistoryWalks(original, modified, range, a, b, forward, levels, history, cell, points, 0,
        X(range, to, forward), Y(range, to, cell - m, forward));
  }

  /** On odd delta a diagonal within d - 1 of the reverse base that the forward search visits in round
      d was visited by the reverse search in round d - 1; on even delta the rounds agree. */
  lemma {:induction false} OtherRound(n: nat, m: nat, d: nat, e: nat, i: int)
    requires InRound(n, m, d, i) && Abs(i - n) <= e
    requires if (n - m) % 2 == 0 then e == d else e + 1 == d
    ensures InRound(n, m, e, n + m - i)
  {
    EvenIsRemainder(i - m + d);
    EvenIsRemainder(n - i + e);
  }

  /** The parity of the distance is that of delta. */
  lemma {:induction false} DistanceParity<T>(a: seq<T>, b: seq<T>)
    ensures Distance(a, b) % 2 == (|a| - |b|) % 2
  {
    hide Dist;
    DistBounds(a, b, |a|, |b|);
    SameParity(|a| - |b|, Distance(a, b));
  }

  lemma {:induction false} SameParity(x: int, y: int)
    requires Even(x + y)
    ensures x % 2 == y % 2
  {
    EvenIsRemainder(x + y);
  }

  /** If round d forward and round e backward show no overlap, the distance is larger than d + e. */
  lemma {:induction false} NoMeeting<T>(a: seq<T>, b: seq<T>, f: seq<int>, r: seq<int>, d: nat, e: nat)
    requires Furthest(a, b, f, d) && Furthest(Rev(a), Rev(b), r, e)
    requires (|a| - |b|) % 2 == (d + e) % 2
    requires Distance(a, b) >= d + e
    requires forall i :: InRound(|a|, |b|, d, i) && InRound(|a|, |b|, e, |a| + |b| - i) ==>
        f[i] < |a| - r[|a| + |b| - i]
    ensures Distance(a, b) >= d + e + 2
  {
    DistanceParity(a, b);
    if Distance(a, b) == d + e {
      var i := SearchesMeet(a, b, f, r, d, e);
      assert false;
    }
  }

  lemma {:induction false} ViewOfSlice(range: SearchRange, points: seq<int>, start: nat, end: nat, forward: bool)
    requires start <= end < |points|
    ensures var first := Cell(|points| - 1, if forward then start else end, forward);
      View(range, points[start..end + 1], forward) == View(range, points, forward)[first..first + end + 1 - start]
  {
    var slice, first := points[start..end + 1], Cell(|points| - 1, if forward then start else end, forward);
    var view, whole := View(range, slice, forward), View(range, points, forward)[first..first + end + 1 - start];
    forall i | 0 <= i < |slice| ensures view[i] == whole[i] {
      var k := Cell(|slice| - 1, i, forward);
      assert slice[k] == points[start + k];
      assert view[i] == Count(range, slice[k], forward);
      assert whole[i] == View(range, points, forward)[first + i] == Count(range, points[start + k], forward);
    }
  }

  /** The history entry written after round r. */
  lemma {:induction false} EntryIsRecorded(range: SearchRange, n: nat, m: nat, points: seq<int>, r: nat, forward: bool)
    requires n > 0 && m > 0 && r > 0 && |points| == n + m + 1
    ensures var start, end := WindowMin(n, m, 0, r, forward), WindowMax(n, m, 0, r, forward);
      && 0 <= start <= end < |points|
      && Recorded(range, n, m, [(if forward then m else n) - start + 1] + points[start..end + 1],
          View(range, points, forward), r, forward)
  {
    hide View, Lo, Hi;
    ClipIsNearest(n, m, r);
    var start, end := WindowMin(n, m, 0, r, forward), WindowMax(n, m, 0, r, forward);
    var entry := [(if forward then m else n) - start + 1] + points[start..end + 1];
    assert entry[1..] == points[start..end + 1];
    ViewOfSlice(range, points, start, end, forward);
  }

  // ---- The state of the two searches between rounds ----

  /** After d - 1 rounds: all levels so far, and the current vectors, which hold the last ones. */
  ghost predicate Searching<T>(original: seq<T>, modified: seq<T>, range: SearchRange, a: seq<T>, b: seq<T>,
          forward: bool, levels: seq<seq<int>>, d: nat)
  {
    && Seen(original, modified, range, a, b, forward)
    && d > 0 && |levels| == d && Levels(a, b, levels, forward)
    && AllReached(a, b, levels[d - 1], d - 1) && Furthest(a, b, levels[d - 1], d - 1)
  }

  /** The history holds all rounds so far. */
  ghost predicate Recording(range: SearchRange, n: nat, m: nat, history: seq<seq<int>>, levels: seq<seq<int>>,
          forward: bool)
  {
    |history| == |levels| - 1 && History(range, n, m, history, levels, forward)
  }

  /** Before the first round only the start is known, and trimming has made that all there is. */
  lemma {:induction false} SearchStarts<T>(original: seq<T>, modified: seq<T>, range: SearchRange, a: seq<T>, b: seq<T>,
      forward: bool, points: seq<int>)
    requires Seen(original, modified, range, a, b, forward) && a[0] != b[0]
    requires |points| == |a| + |b| + 1
    requires if forward then points[|b|] == range.originalStart else points[|a|] == range.originalEnd
    ensures Searching(original, modified, range, a, b, forward, [View(range, points, forward)], 1)
    ensures Recording(range, |a|, |b|, [], [View(range, points, forward)], forward)
  {
    var start := View(range, points, forward);
    StartMeaning(a, b, start);
    forall r: nat
      ensures LevelDone(a, b, [start], forward, r)
    {
    }
    forall r: nat
      ensures EntryRecorded(range, |a|, |b|, [], [start], forward, r)
    {
    }
  }

  /** Every round keeps the meaning of the vectors, and of the history if the round is recorded. */
  lemma {:induction false} SearchContinues<T>(original: seq<T>, modified: seq<T>, range: SearchRange,
          a: seq<T>, b: seq<T>, forward: bool, levels: seq<seq<int>>, d: nat, level: seq<int>)
    requires Searching(original, modified, range, a, b, forward, levels, d)
    requires RoundDone(a, b, levels[d - 1], level, d, forward)
    ensures Searching(original, modified, range, a, b, forward, levels + [level], d + 1)
  {
    RoundKeepsMeaning(a, b, levels[d - 1], level, d, forward);
    hide RoundDone, AllReached, Furthest;
    forall r: nat
      ensures LevelDone(a, b, levels + [level], forward, r)
    {
      assert LevelDone(a, b, levels, forward, r);
      if r == d {
        RoundDoneSizes(a, b, levels[d - 1], level, d, forward);
      }
    }
  }

  lemma {:induction false} RoundDoneSizes<T>(a: seq<T>, b: seq<T>, before: seq<int>, after: seq<int>, d: nat,
          forward: bool)
    requires RoundDone(a, b, before, after, d, forward)
    ensures |after| == |a| + |b| + 1
  {
  }

  lemma {:induction false} RecordingContinues(range: SearchRange, n: nat, m: nat, history: seq<seq<int>>,
          levels: seq<seq<int>>, forward: bool, points: seq<int>)
    requires n > 0 && m > 0 && |points| == n + m + 1 && |levels| > 0
    requires Recording(range, n, m, history, levels, forward)
    ensures var start, end := WindowMin(n, m, 0, |levels|, forward), WindowMax(n, m, 0, |levels|, forward);
      && 0 <= start <= end < |points|
      && Recording(range, n, m, history + [[(if forward then m else n) - start + 1] + points[start..end + 1]],
          levels + [View(range, points, forward)], forward)
  {
    EntryIsRecorded(range, n, m, points, |levels|, forward);
    hide Recorded, Lo, Hi, View;
    var start, end := WindowMin(n, m, 0, |levels|, forward), WindowMax(n, m, 0, |levels|, forward);
    var entry := [(if forward then m else n) - start + 1] + points[start..end + 1];
    var more, longer := history + [entry], levels + [View(range, points, forward)];
    forall r: nat
      ensures EntryRecorded(range, n, m, more, longer, forward, r)
    {
      assert EntryRecorded(range, n, m, history, levels, forward, r);
    }
  }

  // ---- Overlap during a forward round (odd delta) ----

  /** The forward point that overlaps lies on a shortest path.  Round 1 cannot overlap. */
  lemma {:induction false} ForwardMeeting<T>(original: seq<T>, modified: seq<T>, range: SearchRange,
          a: seq<T>, b: seq<T>, fl: seq<seq<int>>, rl: seq<seq<int>>, d: nat, reversePoints: seq<int>,
          k: int, originalIndex: int)
    requires Searching(original, modified, range, a, b, true, fl, d)
    requires Searching(original, modified, range, Rev(a), Rev(b), false, rl, d)
    requires View(range, reversePoints, false) == rl[d - 1]
    requires InRound(|a|, |b|, d, k) && Abs(k - |a|) <= d - 1 && (|a| - |b|) % 2 == 1
    requires Stepped(a, b, fl[d - 1], k, d, true, originalIndex - range.originalStart)
    requires reversePoints[k] <= originalIndex
    requires Distance(a, b) >= 2 * d - 1 && Distance(a, b) >= 2
    ensures d >= 2 && OnShortest(a, b, originalIndex - range.originalStart, k - |b|, d, d - 1)
    ensures OnShortest(a, b, reversePoints[k] - range.originalStart, k - |b|, d, d - 1)
  {
    hide Stepped, OnShortest, Furthest, Levels, Dist, Reached, RDist;
    var n, m, x := |a|, |b|, originalIndex - range.originalStart;
    SteppedReached(a, b, fl[d - 1], k, d, true, x);
    OtherRound(n, m, d, d - 1, k);
    assert Reached(Rev(a), Rev(b), rl[d - 1], n + m - k, d - 1);
    assert View(range, reversePoints, false)[n + m - k] == range.originalEnd - reversePoints[k];
    MeetingPoint(a, b, fl[d - 1][k := x], rl[d - 1], d, d - 1, k);
  }

  lemma {:induction false} SteppedReached<T>(a: seq<T>, b: seq<T>, before: seq<int>, i: int, d: nat, forward: bool,
          x: int)
    requires Stepped(a, b, before, i, d, forward, x) && AllReached(a, b, before, d - 1)
    ensures 0 <= i < |before| && Reached(a, b, before[i := x], i, d)
  {
    StepReached(a, b, before, i, d, forward, x);
  }

  /** If the reverse point lies on the snake that the forward search just followed, both recordings lead
      from it to the two ends. */
  lemma {:induction false} ForwardMeetingWalks<T>(original: seq<T>, modified: seq<T>, range: SearchRange,
          a: seq<T>, b: seq<T>, fl: seq<seq<int>>, rl: seq<seq<int>>, fh: seq<seq<int>>, rh: seq<seq<int>>, d: nat,
          forwardPoints: seq<int>, reversePoints: seq<int>, k: int, originalIndex: int, tempOriginalIndex: int)
    requires Searching(original, modified, range, a, b, true, fl, d)
    requires Searching(original, modified, range, Rev(a), Rev(b), false, rl, d)
    requires Recording(range, |a|, |b|, fh, fl, true) && Recording(range, |a|, |b|, rh, rl, false)
    requires Holds(range, |a|, |b|, forwardPoints, fl[d - 1], d - 1, true)
    requires |reversePoints| == |a| + |b| + 1 && View(range, reversePoints, false) == rl[d - 1]
    requires InRound(|a|, |b|, d, k) && Abs(k - |a|) <= d - 1 && (|a| - |b|) % 2 == 1
    requires Stepped(a, b, fl[d - 1], k, d, true, originalIndex - range.originalStart)
    requires tempOriginalIndex - range.originalStart == Landing(|a|, |b|, fl[d - 1], k, d, true)
    requires tempOriginalIndex <= reversePoints[k] <= originalIndex
    requires d >= 2 && |a| + |b| > 2
    ensures var n, m, x := |a|, |b|, reversePoints[k] + 1;
      var y := x - (k - m) - range.DiagonalForwardOffset();
      && Walk(original, modified, range, true, fh, forwardPoints, m, Lo(n, m, d), Hi(n, m, d), k - m, x, y)
      && Walk(original, modified, range, false, rh[..d - 2], reversePoints, n,
          n + m - Hi(n, m, d - 1), n + m - Lo(n, m, d - 1), k - n, x, y)
  {
    hide Stepped, Landing, Walk, AllReached, Furthest, History, RoundDone;
    var n, m, ra, rb := |a|, |b|, Rev(a), Rev(b);
    CellWalks(original, modified, range, a, b, true, fl, fh, forwardPoints, k, originalIndex - range.originalStart,
        reversePoints[k] - range.originalStart);
    OtherRound(n, m, d, d - 1, k);
    LevelsPrefix(range, ra, rb, rl, rh, false);
    assert LevelDone(ra, rb, rl, false, d - 1);
    var cell := n + m - k;
    RoundDoneAt(range, ra, rb, rl[d - 2], reversePoints, d - 1, false, cell);
    assert rl[d - 1][cell] == range.originalEnd - reversePoints[k];
    CellWalks(original, modified, range, ra, rb, false, rl[..d - 1], rh[..d - 2], reversePoints, cell, rl[d - 1][cell],
        rl[d - 1][cell]);
  }

  /** After a round its vector still holds the cells of the round before, and each of its own cells is a
      step. */
  lemma {:induction false} RoundDoneAt<T>(range: SearchRange, a: seq<T>, b: seq<T>, before: seq<int>, points: seq<int>,
      d: nat, forward: bool, cell: int)
    requires d > 0 && |points| == |a| + |b| + 1 && InRound(|a|, |b|, d, cell)
    requires RoundDone(a, b, before, View(range, points, forward), d, forward)
    ensures Holds(range, |a|, |b|, points, before, d - 1, forward)
    ensures Stepped(a, b, before, cell, d, forward, View(range, points, forward)[cell])
    ensures Landing(|a|, |b|, before, cell, d, forward) <= View(range, points, forward)[cell]
  {
    var previous, last := d - 1, |a| + |b|;
    forall j | InRound(|a|, |b|, previous, j)
      ensures Count(range, points[Cell(last, j, forward)], forward) == before[j]
    {
      EvenStep(j - |b| + previous);
      assert View(range, points, forward)[j] == before[j];
    }
  }

  /** A forward round without overlap raises the lower bound on the distance. */
  lemma {:induction false} NoForwardMeeting<T>(range: SearchRange, a: seq<T>, b: seq<T>, f: seq<int>, r: seq<int>,
          d: nat, forwardPoints: seq<int>, reversePoints: seq<int>)
    requires d > 0 && Furthest(a, b, f, d) && Furthest(Rev(a), Rev(b), r, d - 1)
    requires f == View(range, forwardPoints, true) && r == View(range, reversePoints, false)
    requires |a| == range.originalEnd - range.originalStart
    requires (|a| - |b|) % 2 == 1 && Distance(a, b) >= 2 * d - 1
    requires forall k :: InRound(|a|, |b|, d, k) && Abs(k - |a|) <= d - 1 ==> forwardPoints[k] < reversePoints[k]
    ensures Distance(a, b) >= 2 * d + 1
  {
    forall i | InRound(|a|, |b|, d, i) && InRound(|a|, |b|, d - 1, |a| + |b| - i)
      ensures f[i] < |a| - r[|a| + |b| - i]
    {
      assert forwardPoints[i] < reversePoints[i];
    }
    hide Furthest;
    NoMeeting(a, b, f, r, d, d - 1);
  }

  // ---- Overlap during a reverse round (even delta) ----

  /** The reverse point that overlaps lies on a shortest path. */
  lemma {:induction false} ReverseMeeting<T>(original: seq<T>, modified: seq<T>, range: SearchRange,
          a: seq<T>, b: seq<T>, fl: seq<seq<int>>, rl: seq<seq<int>>, d: nat, f: seq<int>, forwardPoints: seq<int>,
          k: int, originalIndex: int)
    requires Searching(original, modified, range, Rev(a), Rev(b), false, rl, d)
    requires Seen(original, modified, range, a, b, true)
    requires f == View(range, forwardPoints, true) && AllReached(a, b, f, d)
    requires InRound(|a|, |b|, d, |a| + |b| - k) && Abs(k - |b|) <= d && (|a| - |b|) % 2 == 0
    requires Stepped(Rev(a), Rev(b), rl[d - 1], |a| + |b| - k, d, false, range.originalEnd - originalIndex)
    requires originalIndex <= forwardPoints[k]
    requires Distance(a, b) >= 2 * d
    ensures OnShortest(a, b, originalIndex - range.originalStart, k - |b|, d, d)
    ensures OnShortest(a, b, forwardPoints[k] - range.originalStart, k - |b|, d, d)
  {
    hide Stepped, OnShortest, Furthest, Levels, Dist, Reached, RDist;
    var n, m, x := |a|, |b|, range.originalEnd - originalIndex;
    SteppedReached(Rev(a), Rev(b), rl[d - 1], n + m - k, d, false, x);
    MirrorRound(n, m, d, k);
    assert Reached(a, b, f, k, d);
    MeetingPoint(a, b, f, rl[d - 1][n + m - k := x], d, d, k);
  }

  lemma {:induction false} MirrorRound(n: nat, m: nat, d: nat, k: int)
    requires InRound(n, m, d, n + m - k) && m - d <= k <= m + d && (n - m) % 2 == 0
    ensures InRound(n, m, d, k)
  {
    EvenIsRemainder(n - k + d);
    EvenIsRemainder(k - m + d);
  }

  /** If the forward point lies on the snake that the reverse search just followed, both recordings lead
      from it to the two ends. */
  lemma {:induction false} ReverseMeetingWalks<T>(original: seq<T>, modified: seq<T>, range: SearchRange,
          a: seq<T>, b: seq<T>, fl: seq<seq<int>>, rl: seq<seq<int>>, fh: seq<seq<int>>, rh: seq<seq<int>>, d: nat,
          forwardPoints: seq<int>, reversePoints: seq<int>, k: int, originalIndex: int, tempOriginalIndex: int)
    requires Searching(original, modified, range, a, b, true, fl, d)
    requires Searching(original, modified, range, Rev(a), Rev(b), false, rl, d)
    requires Recording(range, |a|, |b|, fh, fl, true) && Recording(range, |a|, |b|, rh, rl, false)
    requires |forwardPoints| == |a| + |b| + 1 && RoundDone(a, b, fl[d - 1], View(range, forwardPoints, true), d, true)
    requires Holds(range, |a|, |b|, reversePoints, rl[d - 1], d - 1, false)
    requires InRound(|a|, |b|, d, |a| + |b| - k) && Abs(k - |b|) <= d && (|a| - |b|) % 2 == 0
    requires Stepped(Rev(a), Rev(b), rl[d - 1], |a| + |b| - k, d, false, range.originalEnd - originalIndex)
    requires range.originalEnd - tempOriginalIndex == Landing(|a|, |b|, rl[d - 1], |a| + |b| - k, d, false)
    requires originalIndex <= forwardPoints[k] <= tempOriginalIndex
    requires d == 1 || |a| + |b| > 2
    ensures var n, m, x := |a|, |b|, forwardPoints[k] + 1;
      var y := x - (k - m) - range.DiagonalForwardOffset();
      && Walk(original, modified, range, true, fh, forwardPoints, m, Lo(n, m, d), Hi(n, m, d), k - m, x, y)
      && Walk(original, modified, range, false, rh, reversePoints, n, n + m - Hi(n, m, d), n + m - Lo(n, m, d), k - n,
          x, y)
  {
    hide Stepped, Landing, Walk, AllReached, Furthest, History, RoundDone;
    var n, m, ra, rb := |a|, |b|, Rev(a), Rev(b);
    MirrorRound(n, m, d, k);
    RoundDoneAt(range, a, b, fl[d - 1], forwardPoints, d, true, k);
    var x := forwardPoints[k] - range.originalStart;
    assert View(range, forwardPoints, true)[k] == x;
    CellWalks(original, modified, range, a, b, true, fl, fh, forwardPoints, k, x, x);
    CellWalks(original, modified, range, ra, rb, false, rl, rh, reversePoints, n + m - k,
        range.originalEnd - originalIndex, range.originalEnd - forwardPoints[k]);
  }

  /** A reverse round without overlap raises the lower bound on the distance. */
  lemma {:induction false} NoReverseMeeting<T>(range: SearchRange, a: seq<T>, b: seq<T>, f: seq<int>, r: seq<int>,
          d: nat, forwardPoints: seq<int>, reversePoints: seq<int>)
    requires d > 0 && Furthest(a, b, f, d) && Furthest(Rev(a), Rev(b), r, d)
    requires f == View(range, forwardPoints, true) && r == View(range, reversePoints, false)
    requires |a| == range.originalEnd - range.originalStart
    requires (|a| - |b|) % 2 == 0 && Distance(a, b) >= 2 * d
    requires forall i :: InRound(|a|, |b|, d, i) && Abs(|a| - i) <= d ==>
        reversePoints[|a| + |b| - i] > forwardPoints[|a| + |b| - i]
    ensures Distance(a, b) >= 2 * d + 2
  {
    var last := |a| + |b|;
    forall i | InRound(|a|, |b|, d, i) && InRound(|a|, |b|, d, last - i)
      ensures f[i] < |a| - r[last - i]
    {
      assert reversePoints[last - (last - i)] > forwardPoints[last - (last - i)];
    }
    hide Furthest;
    NoMeeting(a, b, f, r, d, d);
  }
}
