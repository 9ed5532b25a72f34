/** The difference algorithm of copilot-fork/src/util/common/diff.ts: trimming, the search from both
    ends, the walk back through the stored rounds, and the recursion at a midpoint. */
module LcsDiff {
  import opened Sequences
  import opened Wrappers

  import opened EditGraph
  import opened EditScript
  import opened DiagonalSearch
  import opened RecordedWalk
  import opened DiffChanges
  import opened MeetingPoints

  /** Trimming is done: neither the first nor the last elements of the range are equal. */
  ghost predicate Trimmed<T>(a: seq<T>, b: seq<T>) {
    |a| > 0 && |b| > 0 && a[0] != b[0] && a[|a| - 1] != b[|b| - 1]
  }

  /** (x, y) splits a shortest path of the range into two proper parts. */
  ghost predicate SplitsShortest<T>(a: seq<T>, b: seq<T>, x: int, y: int) {
    && 0 <= x <= |a| && 0 <= y <= |b|
    && Dist(a, b, x, y) > 0 && RDist(a, b, x, y) > 0
    && Dist(a, b, x, y) + RDist(a, b, x, y) == Distance(a, b)
  }

  /** Where the two searches were found to overlap; `diagonal` counts cells from the left. */
  datatype Meeting = Meeting(diagonal: int, originalIndex: int, modifiedIndex: int, tempOriginalIndex: int)

  /** A walk towards the end never passes it. */
  lemma {:induction false} WalkStaysInRange<T>(original: seq<T>, modified: seq<T>, range: SearchRange,
          history: seq<seq<int>>, points: seq<int>, base: int, diagonalMin: int, diagonalMax: int, relative: int,
          px: int, py: int)
    requires Walk(original, modified, range, false, history, points, base, diagonalMin, diagonalMax, relative, px, py)
    ensures var edit := ReadEdit(range, points, diagonalMin, diagonalMax, relative + base, relative, false).0;
      edit.x <= range.originalEnd + 1 && edit.y <= range.modifiedEnd + 1
    decreases |history|
  {
    if |history| > 0 {
      var (edit, next) := ReadEdit(range, points, diagonalMin, diagonalMax, relative + base, relative, false);
      var entry := history[|history| - 1];
      WalkStaysInRange(original, modified, range, history[..|history| - 1], entry, entry[0], 1, |entry| - 1, next,
          Near(edit, false).0, Near(edit, false).1);
    }
  }

  lemma {:induction false} NothingCosts(left: seq<DiffChange>, right: seq<DiffChange>)
    requires left == [] || right == []
    ensures Cost(left + right) == Cost(left) + Cost(right)
  {
    assert left + right == if left == [] then right else left;
  }

  class LcsDiff<T(==)> {
    const original: seq<T>
    const modified: seq<T>
    /** How many rounds the history may hold; 1447 in the source. */
    const MaxDifferencesHistory: nat

    var m_forwardHistory: seq<seq<int>>
    var m_reverseHistory: seq<seq<int>>

    constructor (original: seq<T>, modified: seq<T>, maxDifferencesHistory: nat)
      ensures this.original == original && this.modified == modified
      ensures MaxDifferencesHistory == maxDifferencesHistory
    {
      this.original, this.modified := original, modified;
      MaxDifferencesHistory := maxDifferencesHistory;
      m_forwardHistory, m_reverseHistory := [], [];
    }

    /** The first half of WALKTRACE: from the meeting diagonal back to the start of the range. */
    method WalkForward(range: SearchRange, diagonalForwardStart: int, diagonalForwardEnd: int,
            forwardPoints: array<int>, midOriginal: int, midModified: int, ghost x1: int, ghost y1: int)
      returns (changes: seq<DiffChange>)
      requires x1 <= MAX_SAFE_SMALL_INTEGER && y1 <= MAX_SAFE_SMALL_INTEGER
      requires Walk(original, modified, range, true, m_forwardHistory, forwardPoints[..], range.DiagonalForwardBase(),
          diagonalForwardStart, diagonalForwardEnd, midOriginal - midModified - range.DiagonalForwardOffset(), x1, y1)
      ensures Script(original, modified, changes, range.originalStart + 1, range.modifiedStart + 1, x1, y1)
      ensures Cost(changes) == |m_forwardHistory| + 1
    {
      hide Walk, WalkOn, Unchanged, Script, Cost, Rev, Collect, CollectedBackward, CollectedForward;
      NothingCollected(original, modified, x1, y1);
      var changeHelper := new DiffChangeHelper();
      var points := forwardPoints[..];
      var diagonalForwardBase := range.DiagonalForwardBase();
      var diagonalMin, diagonalMax := diagonalForwardStart, diagonalForwardEnd;
      var diagonalRelative := midOriginal - midModified - range.DiagonalForwardOffset();
      var lastOriginalIndex := MIN_SAFE_SMALL_INTEGER;
      var historyIndex := |m_forwardHistory| - 1;

      ghost var stored, history := m_forwardHistory, m_forwardHistory;
      ghost var px, py := x1, y1;
      ghost var closed, x, xs, y, ys := changeHelper.m_changes, MAX_SAFE_SMALL_INTEGER, 0, MAX_SAFE_SMALL_INTEGER, 0;
      while historyIndex >= -1
        invariant m_forwardHistory == stored && -2 <= historyIndex < |stored|
        invariant historyIndex >= -1 ==> history == stored[..historyIndex + 1]
        invariant px <= x1 && py <= y1
        invariant if historyIndex >= -1 then
            Walk(original, modified, range, true, history, points, diagonalForwardBase, diagonalMin, diagonalMax,
                diagonalRelative, px, py)
          else
            px == range.originalStart + 1 && py == range.modifiedStart + 1
        invariant closed == changeHelper.m_changes
        invariant x == changeHelper.m_originalStart && xs == changeHelper.m_originalCount
        invariant y == changeHelper.m_modifiedStart && ys == changeHelper.m_modifiedCount
        invariant CollectedBackward(original, modified, closed, x, xs, y, ys, px, py, x1, y1,
            |stored| - 1 - historyIndex)
        invariant xs + ys > 0 ==> lastOriginalIndex == px - 1
        invariant fresh(changeHelper)
        decreases historyIndex + 2
      {
        WalkStep(original, modified, range, true, history, points, diagonalForwardBase, diagonalMin, diagonalMax,
            diagonalRelative, px, py);
        var diagonal := diagonalRelative + diagonalForwardBase;
        ghost var (edit, next) := ReadEdit(range, points, diagonalMin, diagonalMax, diagonal, diagonalRelative, true);
        var originalIndex, modifiedIndex;
        ghost var marked := edit.EndX() - 1 < lastOriginalIndex;
        if diagonal == diagonalMin || (diagonal < diagonalMax && points[diagonal - 1] < points[diagonal + 1]) {
          originalIndex := points[diagonal + 1];
          modifiedIndex := originalIndex - diagonalRelative - range.DiagonalForwardOffset();
          if originalIndex < lastOriginalIndex {
            changeHelper.MarkNextChange();
          }
          lastOriginalIndex := originalIndex;
          changeHelper.AddModifiedElement(originalIndex + 1, modifiedIndex);
          diagonalRelative := diagonal + 1 - diagonalForwardBase;
        } else {
          originalIndex := points[diagonal - 1] + 1;
          modifiedIndex := originalIndex - diagonalRelative - range.DiagonalForwardOffset();
          if originalIndex < lastOriginalIndex {
            changeHelper.MarkNextChange();
          }
          lastOriginalIndex := originalIndex - 1;
          changeHelper.AddOriginalElement(originalIndex, modifiedIndex + 1);
          diagonalRelative := diagonal - 1 - diagonalForwardBase;
        }
        CollectBackward(original, modified, closed, x, xs, y, ys, edit, marked, changeHelper.m_changes,
            changeHelper.m_originalStart, changeHelper.m_originalCount, changeHelper.m_modifiedStart,
            changeHelper.m_modifiedCount, px, py, x1, y1, |stored| - 1 - historyIndex);
        px, py, closed := edit.x, edit.y, changeHelper.m_changes;
        x, xs, y, ys := changeHelper.m_originalStart, changeHelper.m_originalCount, changeHelper.m_modifiedStart,
            changeHelper.m_modifiedCount;

        if historyIndex >= 0 {
          points := m_forwardHistory[historyIndex];
          diagonalForwardBase := points[0];
          diagonalMin := 1;
          diagonalMax := |points| - 1;
          history := history[..historyIndex];
        }
        historyIndex := historyIndex - 1;
      }
      AllCollectedBackward(original, modified, closed, x, xs, y, ys, px, py, x1, y1, |stored| + 1);
      changes := changeHelper.GetReverseChanges();
    }

    /** The second half of WALKTRACE: from the meeting diagonal on to the end of the range. */
    method WalkReverse(range: SearchRange, diagonalReverseStart: int, diagonalReverseEnd: int,
            reversePoints: array<int>, midOriginal: int, midModified: int, deltaIsEven: bool,
            ghost x0: int, ghost y0: int)
      returns (changes: seq<DiffChange>)
      requires range.originalEnd < MAX_SAFE_SMALL_INTEGER && range.modifiedEnd < MAX_SAFE_SMALL_INTEGER
      requires deltaIsEven || |m_reverseHistory| > 0
      requires Walk(original, modified, range, false, RoundsUndone(deltaIsEven), reversePoints[..],
          range.DiagonalReverseBase(), diagonalReverseStart, diagonalReverseEnd,
          midOriginal - midModified - range.DiagonalReverseOffset(), x0, y0)
      ensures Script(original, modified, changes, x0, y0, range.originalEnd + 1, range.modifiedEnd + 1)
      ensures Cost(changes) == |RoundsUndone(deltaIsEven)| + 1
    {
      hide Walk, WalkOn, Unchanged, Script, Cost, Rev, Collect, CollectedBackward, CollectedForward;
      NothingCollected(original, modified, x0, y0);
      var changeHelper := new DiffChangeHelper();
      var points := reversePoints[..];
      var diagonalReverseBase := range.DiagonalReverseBase();
      var diagonalMin, diagonalMax := diagonalReverseStart, diagonalReverseEnd;
      var diagonalRelative := midOriginal - midModified - range.DiagonalReverseOffset();
      var lastOriginalIndex := MAX_SAFE_SMALL_INTEGER;
      var historyIndex := if deltaIsEven then |m_reverseHistory| - 1 else |m_reverseHistory| - 2;

      ghost var stored, history, rounds := m_reverseHistory, RoundsUndone(deltaIsEven), |RoundsUndone(deltaIsEven)|;
      ghost var px, py := x0, y0;
      ghost var closed, x, xs, y, ys := changeHelper.m_changes, MAX_SAFE_SMALL_INTEGER, 0, MAX_SAFE_SMALL_INTEGER, 0;
      while historyIndex >= -1
        invariant m_reverseHistory == stored && -2 <= historyIndex < rounds <= |stored|
        invariant historyIndex >= -1 ==> history == stored[..historyIndex + 1]
        invariant if historyIndex >= -1 then
            Walk(original, modified, range, false, history, points, diagonalReverseBase, diagonalMin, diagonalMax,
                diagonalRelative, px, py)
          else
            px == range.originalEnd + 1 && py == range.modifiedEnd + 1
        invariant closed == changeHelper.m_changes
        invariant x == changeHelper.m_originalStart && xs == changeHelper.m_originalCount
        invariant y == changeHelper.m_modifiedStart && ys == changeHelper.m_modifiedCount
        invariant CollectedForward(original, modified, closed, x, xs, y, ys, x0, y0, px, py, rounds - 1 - historyIndex)
        invariant xs + ys > 0 ==> lastOriginalIndex == px - 1
        invariant fresh(changeHelper)
        decreases historyIndex + 2
      {
        WalkStep(original, modified, range, false, history, points, diagonalReverseBase, diagonalMin, diagonalMax,
            diagonalRelative, px, py);
        WalkStaysInRange(original, modified, range, history, points, diagonalReverseBase, diagonalMin, diagonalMax,
            diagonalRelative, px, py);
        var diagonal := diagonalRelative + diagonalReverseBase;
        ghost var (edit, next) := ReadEdit(range, points, diagonalMin, diagonalMax, diagonal, diagonalRelative, false);
        var originalIndex, modifiedIndex;
        ghost var marked := edit.x - 1 > lastOriginalIndex;
        if diagonal == diagonalMin || (diagonal < diagonalMax && points[diagonal - 1] >= points[diagonal + 1]) {
          originalIndex := points[diagonal + 1] - 1;
          modifiedIndex := originalIndex - diagonalRelative - range.DiagonalReverseOffset();
          if originalIndex > lastOriginalIndex {
            changeHelper.MarkNextChange();
          }
          lastOriginalIndex := originalIndex + 1;
          changeHelper.AddOriginalElement(originalIndex + 1, modifiedIndex + 1);
          diagonalRelative := diagonal + 1 - diagonalReverseBase;
        } else {
          originalIndex := points[diagonal - 1];
          modifiedIndex := originalIndex - diagonalRelative - range.DiagonalReverseOffset();
          if originalIndex > lastOriginalIndex {
            changeHelper.MarkNextChange();
          }
          lastOriginalIndex := originalIndex;
          changeHelper.AddModifiedElement(originalIndex + 1, modifiedIndex + 1);
          diagonalRelative := diagonal - 1 - diagonalReverseBase;
        }
        CollectForward(original, modified, closed, x, xs, y, ys, edit, marked, changeHelper.m_changes,
            changeHelper.m_originalStart, changeHelper.m_originalCount, changeHelper.m_modifiedStart,
            changeHelper.m_modifiedCount, x0, y0, px, py, rounds - 1 - historyIndex);
        px, py, closed := edit.EndX(), edit.EndY(), changeHelper.m_changes;
        x, xs, y, ys := changeHelper.m_originalStart, changeHelper.m_originalCount, changeHelper.m_modifiedStart,
            changeHelper.m_modifiedCount;

        if historyIndex >= 0 {
          points := m_reverseHistory[historyIndex];
          diagonalReverseBase := points[0];
          diagonalMin := 1;
          diagonalMax := |points| - 1;
          history := history[..historyIndex];
        }
        historyIndex := historyIndex - 1;
      }
      AllCollectedForward(original, modified, closed, x, xs, y, ys, x0, y0, px, py, rounds + 1);
      changes := changeHelper.GetChanges();
    }

    /** The recorded rounds the reverse walk undoes after the current one: on odd delta the last
        recorded round is the one whose vector is still current. */
    ghost function RoundsUndone(deltaIsEven: bool): seq<seq<int>>
      reads this
      requires deltaIsEven || |m_reverseHistory| > 0
    {
      if deltaIsEven then m_reverseHistory else m_reverseHistory[..|m_reverseHistory| - 1]
    }

    // ---- The search ----

    predicate ElementsAreEqual(originalIndex: int, newIndex: int)
      requires 0 <= originalIndex < |original| && 0 <= newIndex < |modified|
    {
      original[originalIndex] == modified[newIndex]
    }

    predicate FitsInt32(i: int) {
      -0x8000_0000 <= i < 0x8000_0000
    }

    /** Within the rounds of the search, the vectors' 32-bit cells never wrap. */
    predicate RoundFits(range: SearchRange, numDifferences: nat) {
      && 0 < numDifferences && 2 * numDifferences <= range.MaxDifferences() + 2
      && |original| < MAX_SAFE_SMALL_INTEGER && |modified| < MAX_SAFE_SMALL_INTEGER
    }

    lemma {:induction false} StoreFits(range: SearchRange, a: seq<T>, b: seq<T>, forward: bool, before: seq<int>,
            i: int, d: nat, index: int)
      requires Seen(original, modified, range, a, b, forward) && RoundFits(range, d)
      requires |before| == |a| + |b| + 1 && AllReached(a, b, before, d - 1)
      requires Stepped(a, b, before, i, d, forward, Count(range, index, forward))
      ensures FitsInt32(index)
    {
      StepReached(a, b, before, i, d, forward, Count(range, index, forward));
    }

    /** Steps 1 and 2 of the forward search on one diagonal. */
    method ForwardStep(range: SearchRange, numDifferences: nat, diagonal: int, diagonalForwardStart: int,
            diagonalForwardEnd: int, forwardPoints: array<int>, ghost a: seq<T>, ghost b: seq<T>,
            ghost before: seq<int>)
      returns (originalIndex: int, modifiedIndex: int, tempOriginalIndex: int)
      requires Seen(original, modified, range, a, b, true) && RoundFits(range, numDifferences)
      requires forwardPoints.Length == |before| == |a| + |b| + 1 && AllReached(a, b, before, numDifferences - 1)
      requires InRound(|a|, |b|, numDifferences, diagonal)
      requires diagonalForwardStart == Lo(|a|, |b|, numDifferences)
      requires diagonalForwardEnd == Hi(|a|, |b|, numDifferences)
      requires Holds(range, |a|, |b|, forwardPoints[..], before, numDifferences - 1, true)
      ensures Stepped(a, b, before, diagonal, numDifferences, true, originalIndex - range.originalStart)
      ensures tempOriginalIndex - range.originalStart == Landing(|a|, |b|, before, diagonal, numDifferences, true)
      ensures modifiedIndex - range.modifiedStart == originalIndex - range.originalStart - (diagonal - |b|)
      ensures FitsInt32(originalIndex)
    {
      hide InRound, Landing, Lo, Hi, Dist, Holds, Reached, Kept, FitsInt32, AllReached;
      ReadsLanding(range, |a|, |b|, forwardPoints[..], before, numDifferences, diagonal, true);
      LandingReached(a, b, before, diagonal, numDifferences, true);
      if diagonal == diagonalForwardStart
          || (diagonal < diagonalForwardEnd && forwardPoints[diagonal - 1] < forwardPoints[diagonal + 1]) {
        originalIndex := forwardPoints[diagonal + 1];
      } else {
        originalIndex := forwardPoints[diagonal - 1] + 1;
      }
      modifiedIndex := originalIndex - (diagonal - range.DiagonalForwardBase()) - range.DiagonalForwardOffset();
      tempOriginalIndex := originalIndex;
      KeptSeen(original, modified, range, a, b, true, originalIndex - range.originalStart, diagonal - |b|);
      while originalIndex < range.originalEnd && modifiedIndex < range.modifiedEnd
          && ElementsAreEqual(originalIndex + 1, modifiedIndex + 1)
        invariant tempOriginalIndex <= originalIndex
        invariant modifiedIndex - range.modifiedStart == originalIndex - range.originalStart - (diagonal - |b|)
        invariant modifiedIndex >= range.modifiedStart
        invariant Snake(a, b, tempOriginalIndex - range.originalStart, originalIndex - range.originalStart,
            diagonal - |b|)
        decreases range.originalEnd - originalIndex
      {
        KeptSeen(original, modified, range, a, b, true, originalIndex - range.originalStart, diagonal - |b|);
        originalIndex := originalIndex + 1;
        modifiedIndex := modifiedIndex + 1;
      }
      KeptSeen(original, modified, range, a, b, true, originalIndex - range.originalStart, diagonal - |b|);
      StoreFits(range, a, b, true, before, diagonal, numDifferences, originalIndex);
    }

    /** Steps 1 and 2 of the reverse search on one diagonal; `i` is the diagonal's mirrored cell. */
    method ReverseStep(range: SearchRange, numDifferences: nat, diagonal: int, diagonalReverseStart: int,
            diagonalReverseEnd: int, reversePoints: array<int>, ghost a: seq<T>, ghost b: seq<T>,
            ghost before: seq<int>, ghost i: int)
      returns (originalIndex: int, modifiedIndex: int, tempOriginalIndex: int)
      requires Seen(original, modified, range, a, b, false) && RoundFits(range, numDifferences)
      requires reversePoints.Length == |before| == |a| + |b| + 1 && AllReached(a, b, before, numDifferences - 1)
      requires InRound(|a|, |b|, numDifferences, i) && diagonal == |a| + |b| - i
      requires diagonalReverseStart == |a| + |b| - Hi(|a|, |b|, numDifferences)
      requires diagonalReverseEnd == |a| + |b| - Lo(|a|, |b|, numDifferences)
      requires Holds(range, |a|, |b|, reversePoints[..], before, numDifferences - 1, false)
      ensures Stepped(a, b, before, i, numDifferences, false, range.originalEnd - originalIndex)
      ensures range.originalEnd - tempOriginalIndex == Landing(|a|, |b|, before, i, numDifferences, false)
      ensures range.modifiedEnd - modifiedIndex == range.originalEnd - originalIndex - (i - |b|)
      ensures FitsInt32(originalIndex)
    {
      hide InRound, Landing, Lo, Hi, Dist, Holds, Reached, Kept, FitsInt32, AllReached;
      ReadsLanding(range, |a|, |b|, reversePoints[..], before, numDifferences, i, false);
      LandingReached(a, b, before, i, numDifferences, false);
      if diagonal == diagonalReverseStart
          || (diagonal < diagonalReverseEnd && reversePoints[diagonal - 1] >= reversePoints[diagonal + 1]) {
        originalIndex := reversePoints[diagonal + 1] - 1;
      } else {
        originalIndex := reversePoints[diagonal - 1];
      }
      modifiedIndex := originalIndex - (diagonal - range.DiagonalReverseBase()) - range.DiagonalReverseOffset();
      tempOriginalIndex := originalIndex;
      KeptSeen(original, modified, range, a, b, false, range.originalEnd - originalIndex, i - |b|);
      while originalIndex > range.originalStart && modifiedIndex > range.modifiedStart
          && ElementsAreEqual(originalIndex, modifiedIndex)
        invariant originalIndex <= tempOriginalIndex
        invariant range.modifiedEnd - modifiedIndex == range.originalEnd - originalIndex - (i - |b|)
        invariant modifiedIndex <= range.modifiedEnd
        invariant Snake(a, b, range.originalEnd - tempOriginalIndex, range.originalEnd - originalIndex, i - |b|)
        decreases originalIndex - range.originalStart
      {
        KeptSeen(original, modified, range, a, b, false, range.originalEnd - originalIndex, i - |b|);
        originalIndex := originalIndex - 1;
        modifiedIndex := modifiedIndex - 1;
      }
      KeptSeen(original, modified, range, a, b, false, range.originalEnd - originalIndex, i - |b|);
      StoreFits(range, a, b, false, before, i, numDifferences, originalIndex);
    }

    /** Whether the forward search checks a diagonal for overlap: on odd delta, within the reverse
        search's previous round. */
    predicate ForwardChecks(range: SearchRange, numDifferences: nat, diagonal: int) {
      !range.DeltaIsEven() && Abs(diagonal - range.DiagonalReverseBase()) <= numDifferences - 1
    }

    /** Whether the reverse search checks a diagonal for overlap: on even delta, within the forward
        search's current round. */
    predicate ReverseChecks(range: SearchRange, numDifferences: nat, diagonal: int) {
      range.DeltaIsEven() && Abs(diagonal - range.DiagonalForwardBase()) <= numDifferences
    }

    /** No diagonal below `bound` that the forward round checks shows an overlap. */
    ghost predicate ForwardApart(range: SearchRange, n: nat, m: nat, d: nat, bound: int,
            forwardPoints: seq<int>, reversePoints: seq<int>)
    {
      && |forwardPoints| == |reversePoints| == n + m + 1
      && forall k :: InRound(n, m, d, k) && k < bound && ForwardChecks(range, d, k) ==>
          forwardPoints[k] < reversePoints[k]
    }

    /** No diagonal below `bound` that the reverse round checks shows an overlap. */
    ghost predicate ReverseApart(range: SearchRange, n: nat, m: nat, d: nat, bound: int,
            forwardPoints: seq<int>, reversePoints: seq<int>)
    {
      && |forwardPoints| == |reversePoints| == n + m + 1
      && forall i :: InRound(n, m, d, i) && n + m - i < bound && ReverseChecks(range, d,
          n + m - i) ==> reversePoints[n + m - i] > forwardPoints[n + m - i]
    }

    /** Forward round d has overlapped with the reverse search: the diagonal is one it checks, and the
        meeting's indices are what the step on this diagonal has found. */
    ghost predicate ForwardMet(range: SearchRange, d: nat, meeting: Meeting, a: seq<T>, b: seq<T>, before: seq<int>,
        reversePoints: seq<int>) {
      var Meeting(k, originalIndex, modifiedIndex, tempOriginalIndex) := meeting;
      && d > 0 && |a| > 0 && |b| > 0 && |before| == |reversePoints| == |a| + |b| + 1
      && InRound(|a|, |b|, d, k) && ForwardChecks(range, d, k) && 0 <= k < |reversePoints|
      && reversePoints[k] <= originalIndex
      && Stepped(a, b, before, k, d, true, originalIndex - range.originalStart)
      && tempOriginalIndex - range.originalStart == Landing(|a|, |b|, before, k, d, true)
      && modifiedIndex - range.modifiedStart == originalIndex - range.originalStart - (k - |b|)
    }

    /** The same for reverse round d, with reversed elements and mirrored cells. */
    ghost predicate ReverseMet(range: SearchRange, d: nat, meeting: Meeting, a: seq<T>, b: seq<T>, before: seq<int>,
        forwardPoints: seq<int>) {
      var Meeting(k, originalIndex, modifiedIndex, tempOriginalIndex) := meeting;
      && d > 0 && |a| > 0 && |b| > 0 && |before| == |forwardPoints| == |a| + |b| + 1
      && InRound(|a|, |b|, d, |a| + |b| - k) && ReverseChecks(range, d, k) && 0 <= k < |forwardPoints|
      && forwardPoints[k] >= originalIndex
      && Stepped(a, b, before, |a| + |b| - k, d, false, range.originalEnd - originalIndex)
      && range.originalEnd - tempOriginalIndex == Landing(|a|, |b|, before, |a| + |b| - k, d, false)
      && range.modifiedEnd - modifiedIndex == range.originalEnd - originalIndex - (|a| - k)
    }

    lemma {:induction false} ReverseMeets(range: SearchRange, d: nat, meeting: Meeting, a: seq<T>, b: seq<T>,
        before: seq<int>, forwardPoints: seq<int>, i: int)
      requires d > 0 && |a| > 0 && |b| > 0 && |before| == |forwardPoints| == |a| + |b| + 1
      requires InRound(|a|, |b|, d, i) && meeting.diagonal == |a| + |b| - i && ReverseChecks(range, d, meeting.diagonal)
      requires forwardPoints[meeting.diagonal] >= meeting.originalIndex
      requires Stepped(a, b, before, i, d, false, range.originalEnd - meeting.originalIndex)
      requires range.originalEnd - meeting.tempOriginalIndex == Landing(|a|, |b|, before, i, d, false)
      requires range.modifiedEnd - meeting.modifiedIndex == range.originalEnd - meeting.originalIndex - (i - |b|)
      ensures ReverseMet(range, d, meeting, a, b, before, forwardPoints)
    {
      hide Stepped, Landing, ReverseChecks;
    }

    lemma {:induction false} NoneBelow(range: SearchRange, n: nat, m: nat, d: nat,
            forwardPoints: seq<int>, reversePoints: seq<int>)
      requires n > 0 && m > 0 && d > 0 && |forwardPoints| == |reversePoints| == n + m + 1
      ensures ForwardApart(range, n, m, d, Lo(n, m, d), forwardPoints, reversePoints)
      ensures ReverseApart(range, n, m, d, n + m - Hi(n, m, d), forwardPoints, reversePoints)
    {
      ClipIsNearest(n, m, d);
    }

    lemma {:induction false} AllBelow(range: SearchRange, n: nat, m: nat, d: nat, bound: int, end: int,
        forwardPoints: seq<int>, reversePoints: seq<int>)
      requires end <= bound
      ensures ForwardApart(range, n, m, d, bound, forwardPoints, reversePoints) ==> ForwardApart(range, n, m, d, end,
          forwardPoints, reversePoints)
      ensures ReverseApart(range, n, m, d, bound, forwardPoints, reversePoints) ==> ReverseApart(range, n, m, d, end,
          forwardPoints, reversePoints)
    {
    }

    lemma {:induction false} ForwardApartAdvances(range: SearchRange, n: nat, m: nat, d: nat, k: int,
        forwardPoints: seq<int>, reversePoints: seq<int>, index: int)
      requires ForwardApart(range, n, m, d, k, forwardPoints, reversePoints) && InRound(n, m, d, k)
      requires ForwardChecks(range, d, k) ==> index < reversePoints[k]
      ensures ForwardApart(range, n, m, d, k + 2, forwardPoints[k := index], reversePoints)
    {
      EvenStep(k - m + d);
    }

    lemma {:induction false} ReverseApartAdvances(range: SearchRange, n: nat, m: nat, d: nat, k: int,
        forwardPoints: seq<int>, reversePoints: seq<int>, index: int)
      requires ReverseApart(range, n, m, d, k, forwardPoints, reversePoints) && InRound(n, m, d, n + m - k)
      requires ReverseChecks(range, d, k) ==> index > forwardPoints[k]
      ensures ReverseApart(range, n, m, d, k + 2, forwardPoints, reversePoints[k := index])
    {
      EvenStep(n - k + d - 2);
      EvenStep(n - k + d - 1);
    }

    lemma {:induction false} ApartElsewhere(range: SearchRange, n: nat, m: nat, d: nat, k: nat,
        forwardPoints: seq<int>, reversePoints: seq<int>, index: int)
      requires k < n + m + 1
      ensures ForwardApart(range, n, m, d, k, forwardPoints, reversePoints) ==>
          ForwardApart(range, n, m, d, k, forwardPoints[k := index], reversePoints)
      ensures ReverseApart(range, n, m, d, k, forwardPoints, reversePoints) ==>
          ReverseApart(range, n, m, d, k, forwardPoints, reversePoints[k := index])
    {
    }

    /** One round of the forward search; it ends with the first diagonal that shows an overlap. */
    method ForwardRound(range: SearchRange, numDifferences: nat, diagonalForwardStart: int, diagonalForwardEnd: int,
            forwardPoints: array<int>, reversePoints: array<int>, ghost a: seq<T>, ghost b: seq<T>,
            ghost before: seq<int>)
      returns (meeting: Option<Meeting>)
      requires Seen(original, modified, range, a, b, true) && |a| > 0 && |b| > 0 && RoundFits(range, numDifferences)
      requires forwardPoints != reversePoints
      requires forwardPoints.Length == reversePoints.Length == |a| + |b| + 1
      requires AllReached(a, b, before, numDifferences - 1)
      requires diagonalForwardStart == Lo(|a|, |b|, numDifferences)
      requires diagonalForwardEnd == Hi(|a|, |b|, numDifferences)
      requires View(range, forwardPoints[..], true) == before
      modifies forwardPoints
      ensures Holds(range, |a|, |b|, forwardPoints[..], before, numDifferences - 1, true)
      ensures meeting.None? ==> RoundDone(a, b, before, View(range, forwardPoints[..], true), numDifferences, true)
      ensures meeting.None? ==>
          ForwardApart(range, |a|, |b|, numDifferences, diagonalForwardEnd + 1, forwardPoints[..], reversePoints[..])
      ensures meeting.Some? ==>
        && ForwardMet(range, numDifferences, meeting.value, a, b, before, reversePoints[..])
        && ForwardApart(range, |a|, |b|, numDifferences, meeting.value.diagonal, forwardPoints[..], reversePoints[..])
    {
      hide Stepped, Landing, Lo, Hi, Holds, View, AllReached, Reached, RoundSoFar, RoundDone, Even, Seen, ForwardApart,
          ReverseApart, FitsInt32;
      ClipIsNearest(|a|, |b|, numDifferences);
      EverySecondCell(|a|, |b|, numDifferences, diagonalForwardStart);
      NoneBelow(range, |a|, |b|, numDifferences, forwardPoints[..], reversePoints[..]);
      RoundStarts(a, b, before, numDifferences, true);
      var diagonal := diagonalForwardStart;
      RoundReadsPrevious(range, a, b, before, forwardPoints[..], numDifferences, true, diagonal);
      while diagonal <= diagonalForwardEnd
        invariant diagonalForwardStart <= diagonal && Even(diagonal - |b| + numDifferences)
        invariant RoundSoFar(a, b, before, View(range, forwardPoints[..], true), numDifferences, true, diagonal)
        invariant Holds(range, |a|, |b|, forwardPoints[..], before, numDifferences - 1, true)
        invariant ForwardApart(range, |a|, |b|, numDifferences, diagonal, forwardPoints[..], reversePoints[..])
        decreases diagonalForwardEnd - diagonal
      {
        EverySecondCell(|a|, |b|, numDifferences, diagonal);
        var originalIndex, modifiedIndex, tempOriginalIndex := ForwardStep(range, numDifferences, diagonal,
            diagonalForwardStart, diagonalForwardEnd, forwardPoints, a, b, before);
        ghost var was := forwardPoints[..];
        StepStored(range, a, b, before, was, numDifferences, true, diagonal, originalIndex);
        forwardPoints[diagonal] := originalIndex;
        assert forwardPoints[..] == was[diagonal := originalIndex];
        if ForwardChecks(range, numDifferences, diagonal) {
          if originalIndex >= reversePoints[diagonal] {
            ApartElsewhere(range, |a|, |b|, numDifferences, diagonal, was, reversePoints[..], originalIndex);
            return Some(Meeting(diagonal, originalIndex, modifiedIndex, tempOriginalIndex));
          }
        }
        ForwardApartAdvances(range, |a|, |b|, numDifferences, diagonal, was, reversePoints[..], originalIndex);
        EvenStep(diagonal - |b| + numDifferences);
        diagonal := diagonal + 2;
      }
      RoundFinishes(a, b, before, View(range, forwardPoints[..], true), numDifferences, true, diagonal);
      AllBelow(range, |a|, |b|, numDifferences, diagonal, diagonalForwardEnd + 1, forwardPoints[..], reversePoints[..]);
      meeting := None;
    }

    /** One round of the reverse search; it ends with the first diagonal that shows an overlap. */
    method ReverseRound(range: SearchRange, numDifferences: nat, diagonalReverseStart: int, diagonalReverseEnd: int,
            forwardPoints: array<int>, reversePoints: array<int>, ghost a: seq<T>, ghost b: seq<T>,
            ghost before: seq<int>)
      returns (meeting: Option<Meeting>)
      requires Seen(original, modified, range, a, b, false) && |a| > 0 && |b| > 0 && RoundFits(range, numDifferences)
      requires forwardPoints != reversePoints
      requires forwardPoints.Length == reversePoints.Length == |a| + |b| + 1
      requires AllReached(a, b, before, numDifferences - 1)
      requires diagonalReverseStart == |a| + |b| - Hi(|a|, |b|, numDifferences)
      requires diagonalReverseEnd == |a| + |b| - Lo(|a|, |b|, numDifferences)
      requires View(range, reversePoints[..], false) == before
      modifies reversePoints
      ensures Holds(range, |a|, |b|, reversePoints[..], before, numDifferences - 1, false)
      ensures meeting.None? ==> RoundDone(a, b, before, View(range, reversePoints[..], false), numDifferences, false)
      ensures meeting.None? ==>
          ReverseApart(range, |a|, |b|, numDifferences, diagonalReverseEnd + 1, forwardPoints[..], reversePoints[..])
      ensures meeting.Some? ==>
        && ReverseMet(range, numDifferences, meeting.value, a, b, before, forwardPoints[..])
        && ReverseApart(range, |a|, |b|, numDifferences, meeting.value.diagonal, forwardPoints[..], reversePoints[..])
    {
      hide Stepped, Landing, Lo, Hi, Holds, View, AllReached, Reached, RoundSoFar, RoundDone, Even, Seen, ForwardApart,
          ReverseApart, ReverseMet, ReverseChecks, InRound, FitsInt32;
      ClipIsNearest(|a|, |b|, numDifferences);
      EverySecondCell(|a|, |b|, numDifferences, Hi(|a|, |b|, numDifferences));
      NoneBelow(range, |a|, |b|, numDifferences, forwardPoints[..], reversePoints[..]);
      RoundStarts(a, b, before, numDifferences, false);
      var diagonal := diagonalReverseStart;
      RoundReadsPrevious(range, a, b, before, reversePoints[..], numDifferences, false, diagonal);
      ghost var i := Hi(|a|, |b|, numDifferences);
      while diagonal <= diagonalReverseEnd
        invariant diagonalReverseStart <= diagonal && diagonal == |a| + |b| - i && Even(i - |b| + numDifferences)
        invariant RoundSoFar(a, b, before, View(range, reversePoints[..], false), numDifferences, false, diagonal)
        invariant Holds(range, |a|, |b|, reversePoints[..], before, numDifferences - 1, false)
        invariant ReverseApart(range, |a|, |b|, numDifferences, diagonal, forwardPoints[..], reversePoints[..])
        decreases diagonalReverseEnd - diagonal
      {
        EverySecondCell(|a|, |b|, numDifferences, i);
        var originalIndex, modifiedIndex, tempOriginalIndex := ReverseStep(range, numDifferences, diagonal,
            diagonalReverseStart, diagonalReverseEnd, reversePoints, a, b, before, i);
        ghost var was := reversePoints[..];
        StepStored(range, a, b, before, was, numDifferences, false, i, originalIndex);
        reversePoints[diagonal] := originalIndex;
        assert reversePoints[..] == was[diagonal := originalIndex];
        if ReverseChecks(range, numDifferences, diagonal) {
          if originalIndex <= forwardPoints[diagonal] {
            meeting := Some(Meeting(diagonal, originalIndex, modifiedIndex, tempOriginalIndex));
            ApartElsewhere(range, |a|, |b|, numDifferences, diagonal, forwardPoints[..], was, originalIndex);
            ReverseMeets(range, numDifferences, meeting.value, a, b, before, forwardPoints[..], i);
            return;
          }
        }
        ReverseApartAdvances(range, |a|, |b|, numDifferences, diagonal, forwardPoints[..], was, originalIndex);
        EvenStep(i - 2 - |b| + numDifferences);
        EvenStep(i - 1 - |b| + numDifferences);
        diagonal := diagonal + 2;
        i := i - 2;
      }
      RoundFinishes(a, b, before, View(range, reversePoints[..], false), numDifferences, false, diagonal);
      AllBelow(range, |a|, |b|, numDifferences, diagonal, diagonalReverseEnd + 1, forwardPoints[..], reversePoints[..]);
      meeting := None;
    }

    // ---- The change list ----

    /** Whether the two changes touch, and the change they fuse into: it starts with the left one, and reaches as
        far as the right one in each sequence in which they touch. */
    method ChangesOverlap(left: DiffChange, right: DiffChange) returns (merged: Option<DiffChange>)
      requires left.originalStart <= right.originalStart && left.modifiedStart <= right.modifiedStart
      ensures merged.None? <==> left.OriginalEnd() < right.originalStart && left.ModifiedEnd() < right.modifiedStart
      ensures merged.Some? ==>
        && merged.value.originalStart == left.originalStart && merged.value.modifiedStart == left.modifiedStart
        && merged.value.OriginalEnd()
           == (if left.OriginalEnd() >= right.originalStart then right.OriginalEnd() else left.OriginalEnd())
        && merged.value.ModifiedEnd()
           == (if left.ModifiedEnd() >= right.modifiedStart then right.ModifiedEnd() else left.ModifiedEnd())
    {
      if left.originalStart + left.originalLength >= right.originalStart
          || left.modifiedStart + left.modifiedLength >= right.modifiedStart {
        var originalLength, modifiedLength := left.originalLength, left.modifiedLength;
        if left.originalStart + left.originalLength >= right.originalStart {
          originalLength := right.originalStart + right.originalLength - left.originalStart;
        }
        if left.modifiedStart + left.modifiedLength >= right.modifiedStart {
          modifiedLength := right.modifiedStart + right.modifiedLength - left.modifiedStart;
        }
        merged := Some(DiffChange(left.originalStart, originalLength, left.modifiedStart, modifiedLength));
      } else {
        merged := None;
      }
    }

    /** Scripts for two neighbouring stretches make a script for both together, at the same cost. */
    method ConcatenateChanges(left: seq<DiffChange>, right: seq<DiffChange>,
            ghost x0: int, ghost y0: int, ghost x1: int, ghost y1: int, ghost x2: int, ghost y2: int)
      returns (changes: seq<DiffChange>)
      requires Script(original, modified, left, x0, y0, x1, y1) && Script(original, modified, right, x1, y1, x2, y2)
      ensures Script(original, modified, changes, x0, y0, x2, y2)
      ensures Cost(changes) == Cost(left) + Cost(right)
    {
      hide Script, Cost, Unchanged;
      if |left| == 0 || |right| == 0 {
        ScriptJoin(original, modified, left, right, x0, y0, x1, y1, x2, y2);
        assert left + right == if |right| > 0 then right else left;
        NothingCosts(left, right);
        return if |right| > 0 then right else left;
      }
      InnerGap(original, modified, left, right, x0, y0, x1, y1, x2, y2);
      var merged := ChangesOverlap(left[|left| - 1], right[0]);
      if merged.Some? {
        ScriptFuse(original, modified, left, right, x0, y0, x1, y1, x2, y2, merged.value);
        changes := left[..|left| - 1] + [merged.value] + right[1..];
      } else {
        ScriptJoin(original, modified, left, right, x0, y0, x1, y1, x2, y2);
        changes := left + right;
      }
    }

    /** Turns the recorded rounds of both searches into the change list of the range. */
    method WALKTRACE(range: SearchRange, diagonalForwardStart: int, diagonalForwardEnd: int,
            diagonalReverseStart: int, diagonalReverseEnd: int,
            forwardPoints: array<int>, reversePoints: array<int>, midOriginal: int, midModified: int,
            deltaIsEven: bool, ghost x: int, ghost y: int)
      returns (changes: seq<DiffChange>)
      requires range.originalEnd < MAX_SAFE_SMALL_INTEGER && range.modifiedEnd < MAX_SAFE_SMALL_INTEGER
      requires x <= MAX_SAFE_SMALL_INTEGER && y <= MAX_SAFE_SMALL_INTEGER
      requires deltaIsEven || |m_reverseHistory| > 0
      requires Walk(original, modified, range, true, m_forwardHistory, forwardPoints[..], range.DiagonalForwardBase(),
          diagonalForwardStart, diagonalForwardEnd, midOriginal - midModified - range.DiagonalForwardOffset(), x, y)
      requires Walk(original, modified, range, false, RoundsUndone(deltaIsEven), reversePoints[..],
          range.DiagonalReverseBase(), diagonalReverseStart, diagonalReverseEnd,
          midOriginal - midModified - range.DiagonalReverseOffset(), x, y)
      ensures Script(original, modified, changes, range.originalStart + 1, range.modifiedStart + 1,
          range.originalEnd + 1, range.modifiedEnd + 1)
      ensures Cost(changes) == |m_forwardHistory| + 1 + |RoundsUndone(deltaIsEven)| + 1
    {
      var forwardChanges := WalkForward(range, diagonalForwardStart, diagonalForwardEnd, forwardPoints, midOriginal,
          midModified, x, y);
      var reverseChanges := WalkReverse(range, diagonalReverseStart, diagonalReverseEnd, reversePoints, midOriginal,
          midModified, deltaIsEven, x, y);
      changes := ConcatenateChanges(forwardChanges, reverseChanges, range.originalStart + 1, range.modifiedStart + 1, x,
          y, range.originalEnd + 1, range.modifiedEnd + 1);
    }

    /** What the search knows before round d: the levels with their meaning, the recording while it
        fits, and that no path is shorter than the overlap the round looks for.  The reverse vector `r`
        still holds the last level. */
    ghost predicate BeforeRound(range: SearchRange, d: nat, a: seq<T>, b: seq<T>, fl: seq<seq<int>>, rl: seq<seq<int>>,
            r: seq<int>, fh: seq<seq<int>>, rh: seq<seq<int>>)
    {
      && Searching(original, modified, range, a, b, true, fl, d)
      && Searching(original, modified, range, Rev(a), Rev(b), false, rl, d)
      && |fl| == |rl| == d && r == rl[d - 1]
      && |a| == range.originalEnd - range.originalStart && |b| == range.modifiedEnd - range.modifiedStart
      && (d - 1 <= MaxDifferencesHistory ==>
          Recording(range, |a|, |b|, fh, fl, true) && Recording(range, |a|, |b|, rh, rl, false))
      && Distance(a, b) >= 2
      && Distance(a, b) >= if range.DeltaIsEven() then 2 * d else 2 * d - 1
    }

    lemma {:induction false} RangeBound(a: seq<T>, b: seq<T>, d: nat)
      requires d >= 2 && Distance(a, b) >= 2 * d - 1
      ensures |a| + |b| > 2
    {
      DistBounds(a, b, |a|, |b|);
    }

    lemma {:induction false} FirstRound(range: SearchRange, a: seq<T>, b: seq<T>,
            forwardPoints: seq<int>, reversePoints: seq<int>)
      requires Seen(original, modified, range, a, b, true) && Trimmed(a, b)
      requires |forwardPoints| == |reversePoints| == |a| + |b| + 1
      requires forwardPoints[|b|] == range.originalStart && reversePoints[|a|] == range.originalEnd
      ensures BeforeRound(range, 1, a, b, [View(range, forwardPoints, true)], [View(range, reversePoints, false)],
          View(range, reversePoints, false), [], [])
    {
      hide Searching, Recording, View, Dist;
      SearchStarts(original, modified, range, a, b, true, forwardPoints);
      SearchStarts(original, modified, range, Rev(a), Rev(b), false, reversePoints);
      TrimmedDistance(a, b);
      DistanceParity(a, b);
    }

    /** What the search returns: the change list of the range, at the price of the distance, or a point
        that splits a shortest path. */
    ghost predicate Found(range: SearchRange, a: seq<T>, b: seq<T>, changes: Option<seq<DiffChange>>,
            midOriginal: int, midModified: int)
    {
      if changes.Some? then
        && Script(original, modified, changes.value, range.originalStart + 1, range.modifiedStart + 1,
            range.originalEnd + 1, range.modifiedEnd + 1)
        && Cost(changes.value) == Distance(a, b)
      else
        SplitsShortest(a, b, midOriginal - range.originalStart, midModified - range.modifiedStart)
    }

    /** The forward search has overlapped: the change list if the overlap is true and everything is
        recorded, else the midpoint. */
    method FinishForward(range: SearchRange, numDifferences: nat, meeting: Meeting,
            diagonalForwardStart: int, diagonalForwardEnd: int, diagonalReverseStart: int, diagonalReverseEnd: int,
            forwardPoints: array<int>, reversePoints: array<int>,
            ghost a: seq<T>, ghost b: seq<T>, ghost fl: seq<seq<int>>, ghost rl: seq<seq<int>>)
      returns (changes: Option<seq<DiffChange>>, midOriginal: int, midModified: int)
      requires |original| < MAX_SAFE_SMALL_INTEGER && |modified| < MAX_SAFE_SMALL_INTEGER
      requires forwardPoints.Length == reversePoints.Length == |a| + |b| + 1
      requires BeforeRound(range, numDifferences, a, b, fl, rl, View(range, reversePoints[..], false), m_forwardHistory,
          m_reverseHistory)
      requires Holds(range, |a|, |b|, forwardPoints[..], fl[numDifferences - 1], numDifferences - 1, true)
      requires diagonalForwardStart == Lo(|a|, |b|, numDifferences)
      requires diagonalForwardEnd == Hi(|a|, |b|, numDifferences)
      requires numDifferences > 1 ==>
        && diagonalReverseStart == |a| + |b| - Hi(|a|, |b|, numDifferences - 1)
        && diagonalReverseEnd == |a| + |b| - Lo(|a|, |b|, numDifferences - 1)
      requires ForwardMet(range, numDifferences, meeting, a, b, fl[numDifferences - 1], reversePoints[..])
      ensures Found(range, a, b, changes, midOriginal, midModified)
      ensures changes.Some? <==>
        && meeting.tempOriginalIndex <= reversePoints[meeting.diagonal]
        && 0 < MaxDifferencesHistory && numDifferences <= MaxDifferencesHistory + 1
    {
      hide Stepped, Landing, Walk, Script, Cost, Levels, AllReached, Furthest, History, Holds, Lo, Hi, Dist, RDist,
          Even;
      ghost var k := meeting.diagonal;
      midOriginal, midModified := meeting.originalIndex, meeting.modifiedIndex;
      ForwardMeeting(original, modified, range, a, b, fl, rl, numDifferences, reversePoints[..], k,
          meeting.originalIndex);
      if meeting.tempOriginalIndex <= reversePoints[meeting.diagonal] && MaxDifferencesHistory > 0
          && numDifferences <= MaxDifferencesHistory + 1 {
        RangeBound(a, b, numDifferences);
        ForwardMeetingWalks(original, modified, range, a, b, fl, rl, m_forwardHistory, m_reverseHistory, numDifferences,
            forwardPoints[..], reversePoints[..], k, meeting.originalIndex, meeting.tempOriginalIndex);
        ghost var x := reversePoints[k] + 1;
        var trace := WALKTRACE(range, diagonalForwardStart, diagonalForwardEnd, diagonalReverseStart,
            diagonalReverseEnd, forwardPoints, reversePoints, midOriginal, midModified, range.DeltaIsEven(), x,
            x - (k - |b|) - range.DiagonalForwardOffset());
        changes := Some(trace);
      } else {
        changes := None;
      }
    }

    /** The reverse search has overlapped: the same decision, seen from the other end. */
    method FinishReverse(range: SearchRange, numDifferences: nat, meeting: Meeting,
            diagonalForwardStart: int, diagonalForwardEnd: int, diagonalReverseStart: int, diagonalReverseEnd: int,
            forwardPoints: array<int>, reversePoints: array<int>,
            ghost a: seq<T>, ghost b: seq<T>, ghost fl: seq<seq<int>>, ghost rl: seq<seq<int>>)
      returns (changes: Option<seq<DiffChange>>, midOriginal: int, midModified: int)
      requires |original| < MAX_SAFE_SMALL_INTEGER && |modified| < MAX_SAFE_SMALL_INTEGER
      requires forwardPoints.Length == reversePoints.Length == |a| + |b| + 1
      requires numDifferences > 0 && |rl| == numDifferences
      requires BeforeRound(range, numDifferences, a, b, fl, rl, rl[numDifferences - 1], m_forwardHistory,
          m_reverseHistory)
      requires RoundDone(a, b, fl[numDifferences - 1], View(range, forwardPoints[..], true), numDifferences, true)
      requires AllReached(a, b, View(range, forwardPoints[..], true), numDifferences)
      requires Holds(range, |a|, |b|, reversePoints[..], rl[numDifferences - 1], numDifferences - 1, false)
      requires diagonalForwardStart == Lo(|a|, |b|, numDifferences)
      requires diagonalForwardEnd == Hi(|a|, |b|, numDifferences)
      requires diagonalReverseStart == |a| + |b| - Hi(|a|, |b|, numDifferences) &&
               diagonalReverseEnd == |a| + |b| - Lo(|a|, |b|, numDifferences)
      requires ReverseMet(range, numDifferences, meeting, Rev(a), Rev(b), rl[numDifferences - 1], forwardPoints[..])
      ensures Found(range, a, b, changes, midOriginal, midModified)
      ensures changes.Some? <==>
        && meeting.tempOriginalIndex >= forwardPoints[meeting.diagonal]
        && 0 < MaxDifferencesHistory && numDifferences <= MaxDifferencesHistory + 1
    {
      hide Stepped, Landing, Walk, Script, Cost, Levels, AllReached, Furthest, History, Holds, Lo, Hi, Dist, RDist,
          Even, RoundDone;
      ghost var k := meeting.diagonal;
      midOriginal, midModified := meeting.originalIndex, meeting.modifiedIndex;
      ReverseMeeting(original, modified, range, a, b, fl, rl, numDifferences, View(range, forwardPoints[..], true),
          forwardPoints[..], k, meeting.originalIndex);
      if meeting.tempOriginalIndex >= forwardPoints[meeting.diagonal] && MaxDifferencesHistory > 0
          && numDifferences <= MaxDifferencesHistory + 1 {
        if numDifferences > 1 { RangeBound(a, b, numDifferences); }
        ReverseMeetingWalks(original, modified, range, a, b, fl, rl, m_forwardHistory, m_reverseHistory, numDifferences,
            forwardPoints[..], reversePoints[..], k, meeting.originalIndex, meeting.tempOriginalIndex);
        ghost var x := forwardPoints[k] + 1;
        var trace := WALKTRACE(range, diagonalForwardStart, diagonalForwardEnd, diagonalReverseStart,
            diagonalReverseEnd, forwardPoints, reversePoints, midOriginal, midModified, range.DeltaIsEven(), x,
            x - (k - |b|) - range.DiagonalForwardOffset());
        changes := Some(trace);
      } else {
        changes := None;
      }
    }

    /** A forward round without overlap, and what is known after it. */
    lemma {:induction false} AfterForwardRound(range: SearchRange, d: nat, a: seq<T>, b: seq<T>,
            fl: seq<seq<int>>, rl: seq<seq<int>>, forwardPoints: seq<int>, reversePoints: seq<int>,
            fh: seq<seq<int>>, rh: seq<seq<int>>)
      requires BeforeRound(range, d, a, b, fl, rl, View(range, reversePoints, false), fh, rh)
      requires |forwardPoints| == |reversePoints| == |a| + |b| + 1
      requires RoundDone(a, b, fl[d - 1], View(range, forwardPoints, true), d, true)
      requires ForwardApart(range, |a|, |b|, d, Hi(|a|, |b|, d) + 1, forwardPoints, reversePoints)
      ensures Searching(original, modified, range, a, b, true, fl + [View(range, forwardPoints, true)], d + 1)
      ensures AllReached(a, b, View(range, forwardPoints, true), d)
      ensures !range.DeltaIsEven() ==> Distance(a, b) >= 2 * d + 1
    {
      var f := View(range, forwardPoints, true);
      RoundKeepsMeaning(a, b, fl[d - 1], f, d, true);
      SearchContinues(original, modified, range, a, b, true, fl, d, f);
      if !range.DeltaIsEven() {
        ClipIsNearest(|a|, |b|, d);
        NoForwardMeeting(range, a, b, f, rl[d - 1], d, forwardPoints, reversePoints);
      }
    }

    /** A reverse round without overlap, and what is known after it. */
    lemma {:induction false} AfterReverseRound(range: SearchRange, d: nat, a: seq<T>, b: seq<T>,
            fl: seq<seq<int>>, rl: seq<seq<int>>, forwardPoints: seq<int>, reversePoints: seq<int>,
            fh: seq<seq<int>>, rh: seq<seq<int>>)
      requires |rl| == d > 0 && BeforeRound(range, d, a, b, fl, rl, rl[d - 1], fh, rh)
      requires |forwardPoints| == |reversePoints| == |a| + |b| + 1
      requires RoundDone(a, b, fl[d - 1], View(range, forwardPoints, true), d, true)
      requires RoundDone(Rev(a), Rev(b), rl[d - 1], View(range, reversePoints, false), d, false)
      requires ReverseApart(range, |a|, |b|, d, |a| + |b| - Lo(|a|, |b|, d) + 1, forwardPoints, reversePoints)
      ensures Searching(original, modified, range, Rev(a), Rev(b), false, rl + [View(range, reversePoints, false)],
          d + 1)
      ensures range.DeltaIsEven() ==> Distance(a, b) >= 2 * d + 2
    {
      var f, r := View(range, forwardPoints, true), View(range, reversePoints, false);
      RoundKeepsMeaning(a, b, fl[d - 1], f, d, true);
      RoundKeepsMeaning(Rev(a), Rev(b), rl[d - 1], r, d, false);
      SearchContinues(original, modified, range, Rev(a), Rev(b), false, rl, d, r);
      if range.DeltaIsEven() {
        ClipIsNearest(|a|, |b|, d);
        NoReverseMeeting(range, a, b, f, r, d, forwardPoints, reversePoints);
      }
    }

    /** Saves the current vectors while the history has room for the round. */
    method SaveRound(range: SearchRange, numDifferences: nat,
            diagonalForwardStart: int, diagonalForwardEnd: int, diagonalReverseStart: int, diagonalReverseEnd: int,
            forwardPoints: array<int>, reversePoints: array<int>,
            ghost n: nat, ghost m: nat, ghost fl: seq<seq<int>>, ghost rl: seq<seq<int>>)
      requires n > 0 && m > 0 && forwardPoints.Length == reversePoints.Length == n + m + 1
      requires n == range.DiagonalReverseBase() && m == range.DiagonalForwardBase()
      requires |fl| == |rl| == numDifferences > 0
      requires diagonalForwardStart == Lo(n, m, numDifferences) && diagonalForwardEnd == Hi(n, m, numDifferences)
      requires diagonalReverseStart == n + m - Hi(n, m, numDifferences)
      requires diagonalReverseEnd == n + m - Lo(n, m, numDifferences)
      requires numDifferences - 1 <= MaxDifferencesHistory ==>
        Recording(range, n, m, m_forwardHistory, fl, true) && Recording(range, n, m, m_reverseHistory, rl, false)
      modifies this
      ensures numDifferences <= MaxDifferencesHistory ==>
        && Recording(range, n, m, m_forwardHistory, fl + [View(range, forwardPoints[..], true)], true)
        && Recording(range, n, m, m_reverseHistory, rl + [View(range, reversePoints[..], false)], false)
      ensures numDifferences > MaxDifferencesHistory ==>
          m_forwardHistory == old(m_forwardHistory) && m_reverseHistory == old(m_reverseHistory)
    {
      if numDifferences <= MaxDifferencesHistory {
        hide Lo, Hi, View, History;
        RecordingContinues(range, n, m, m_forwardHistory, fl, true, forwardPoints[..]);
        RecordingContinues(range, n, m, m_reverseHistory, rl, false, reversePoints[..]);
        var temp := [range.DiagonalForwardBase() - diagonalForwardStart + 1]
            + forwardPoints[..][diagonalForwardStart..diagonalForwardEnd + 1];
        m_forwardHistory := m_forwardHistory + [temp];
        temp := [range.DiagonalReverseBase() - diagonalReverseStart + 1]
            + reversePoints[..][diagonalReverseStart..diagonalReverseEnd + 1];
        m_reverseHistory := m_reverseHistory + [temp];
      }
    }

    /** Splits the range at a point of a shortest path, or finds its whole change list.  The bounds are
        inclusive; the midpoint is the last element of the first halves. */
    method ComputeRecursionPoint(originalStart: int, originalEnd: int, modifiedStart: int, modifiedEnd: int,
            ghost a: seq<T>, ghost b: seq<T>)
      returns (changes: Option<seq<DiffChange>>, midOriginal: int, midModified: int)
      requires 0 <= originalStart <= originalEnd < |original| < MAX_SAFE_SMALL_INTEGER
      requires 0 <= modifiedStart <= modifiedEnd < |modified| < MAX_SAFE_SMALL_INTEGER
      requires a == original[originalStart..originalEnd + 1] && b == modified[modifiedStart..modifiedEnd + 1]
      requires Trimmed(a, b)
      modifies this
      ensures Found(SearchRange(originalStart - 1, originalEnd, modifiedStart - 1, modifiedEnd), a, b, changes,
          midOriginal, midModified)
    {
      hide Searching, Recording, RoundDone, AllReached, View, Lo, Hi, Dist, Found, Stepped, Landing, Holds, InRound,
          Rev, ForwardApart, ReverseApart, ClipDiagonalBound, BeforeRound, Distance, ForwardMet, ReverseMet;
      var range := SearchRange(originalStart - 1, originalEnd, modifiedStart - 1, modifiedEnd);
      ghost var n, m := |a|, |b|;
      midOriginal, midModified := 0, 0;
      m_forwardHistory, m_reverseHistory := [], [];
      var maxDifferences, numDiagonals := range.MaxDifferences(), range.NumDiagonals();
      var forwardPoints, reversePoints := new int[numDiagonals](_ => 0), new int[numDiagonals](_ => 0);
      forwardPoints[range.DiagonalForwardBase()] := range.originalStart;
      reversePoints[range.DiagonalReverseBase()] := range.originalEnd;
      var diagonalForwardStart, diagonalForwardEnd, diagonalReverseStart, diagonalReverseEnd := 0, 0, 0, 0;

      ghost var fl, rl := [View(range, forwardPoints[..], true)], [View(range, reversePoints[..], false)];
      FirstRound(range, a, b, forwardPoints[..], reversePoints[..]);
      var numDifferences := 1;
      while 2 * numDifferences <= maxDifferences + 2
        invariant numDifferences >= 1 && fresh(forwardPoints) && fresh(reversePoints) && forwardPoints != reversePoints
        invariant forwardPoints.Length == reversePoints.Length == n + m + 1
        invariant |fl| == |rl| == numDifferences
        invariant View(range, forwardPoints[..], true) == fl[numDifferences - 1] &&
                 View(range, reversePoints[..], false) == rl[numDifferences - 1]
        invariant BeforeRound(range, numDifferences, a, b, fl, rl, rl[numDifferences - 1], m_forwardHistory,
            m_reverseHistory)
        invariant numDifferences > 1 ==>
          diagonalReverseStart == n + m - Hi(n, m, numDifferences - 1)
              && diagonalReverseEnd == n + m - Lo(n, m, numDifferences - 1)
        decreases maxDifferences + 2 - 2 * numDifferences
      {
        ClipIsBound(n, m, numDifferences);
        SearchMeaning(range, numDifferences, a, b, fl, rl, m_forwardHistory, m_reverseHistory);
        diagonalForwardStart := ClipDiagonalBound(range.DiagonalForwardBase() - numDifferences, numDifferences,
            range.DiagonalForwardBase(), numDiagonals);
        diagonalForwardEnd := ClipDiagonalBound(range.DiagonalForwardBase() + numDifferences, numDifferences,
            range.DiagonalForwardBase(), numDiagonals);
        var meeting := ForwardRound(range, numDifferences, diagonalForwardStart, diagonalForwardEnd, forwardPoints,
            reversePoints, a, b, fl[numDifferences - 1]);
        if meeting.Some? {
          changes, midOriginal, midModified := FinishForward(range, numDifferences, meeting.value, diagonalForwardStart,
              diagonalForwardEnd, diagonalReverseStart, diagonalReverseEnd, forwardPoints, reversePoints, a, b, fl, rl);
          return;
        }
        AfterForwardRound(range, numDifferences, a, b, fl, rl, forwardPoints[..], reversePoints[..], m_forwardHistory,
            m_reverseHistory);

        diagonalReverseStart := ClipDiagonalBound(range.DiagonalReverseBase() - numDifferences, numDifferences,
            range.DiagonalReverseBase(), numDiagonals);
        diagonalReverseEnd := ClipDiagonalBound(range.DiagonalReverseBase() + numDifferences, numDifferences,
            range.DiagonalReverseBase(), numDiagonals);
        meeting := ReverseRound(range, numDifferences, diagonalReverseStart, diagonalReverseEnd, forwardPoints,
            reversePoints, Rev(a), Rev(b), rl[numDifferences - 1]);
        if meeting.Some? {
          changes, midOriginal, midModified := FinishReverse(range, numDifferences, meeting.value, diagonalForwardStart,
              diagonalForwardEnd, diagonalReverseStart, diagonalReverseEnd, forwardPoints, reversePoints, a, b, fl, rl);
          return;
        }
        AfterReverseRound(range, numDifferences, a, b, fl, rl, forwardPoints[..], reversePoints[..], m_forwardHistory,
            m_reverseHistory);

        ghost var fh, rh := m_forwardHistory, m_reverseHistory;
        SaveRound(range, numDifferences, diagonalForwardStart, diagonalForwardEnd, diagonalReverseStart,
            diagonalReverseEnd, forwardPoints, reversePoints, n, m, fl, rl);
        NextRound(range, numDifferences, a, b, fl, rl, View(range, forwardPoints[..], true),
            View(range, reversePoints[..], false), fh, rh, m_forwardHistory, m_reverseHistory);
        fl, rl := fl + [View(range, forwardPoints[..], true)], rl + [View(range, reversePoints[..], false)];
        numDifferences := numDifferences + 1;
      }
      // The search cannot end without an overlap: by now the distance would exceed the number of elements.
      SearchEnds(range, numDifferences, a, b, fl, rl, m_forwardHistory, m_reverseHistory);
      assert false;
      changes := None;
    }

    /** The distance is at most the number of elements. */
    lemma {:induction false} SearchEnds(range: SearchRange, d: nat, a: seq<T>, b: seq<T>,
            fl: seq<seq<int>>, rl: seq<seq<int>>, fh: seq<seq<int>>, rh: seq<seq<int>>)
      requires |rl| == d > 0 && BeforeRound(range, d, a, b, fl, rl, rl[d - 1], fh, rh)
      ensures 2 * d <= range.MaxDifferences() + 2
    {
      DistBounds(a, b, |a|, |b|);
    }

    lemma {:induction false} NextRound(range: SearchRange, d: nat, a: seq<T>, b: seq<T>, fl: seq<seq<int>>,
            rl: seq<seq<int>>, f: seq<int>, r: seq<int>,
            fh: seq<seq<int>>, rh: seq<seq<int>>, nextFh: seq<seq<int>>, nextRh: seq<seq<int>>)
      requires |rl| == d > 0 && BeforeRound(range, d, a, b, fl, rl, rl[d - 1], fh, rh)
      requires Searching(original, modified, range, a, b, true, fl + [f], d + 1)
      requires Searching(original, modified, range, Rev(a), Rev(b), false, rl + [r], d + 1)
      requires Distance(a, b) >= if range.DeltaIsEven() then 2 * d + 2 else 2 * d + 1
      requires d <= MaxDifferencesHistory ==>
          Recording(range, |a|, |b|, nextFh, fl + [f], true) && Recording(range, |a|, |b|, nextRh, rl + [r], false)
      ensures BeforeRound(range, d + 1, a, b, fl + [f], rl + [r], r, nextFh, nextRh)
    {
      hide Searching, Recording, Distance;
    }

    lemma {:induction false} SearchMeaning(range: SearchRange, d: nat, a: seq<T>, b: seq<T>,
            fl: seq<seq<int>>, rl: seq<seq<int>>, fh: seq<seq<int>>, rh: seq<seq<int>>)
      requires |rl| == d > 0 && BeforeRound(range, d, a, b, fl, rl, rl[d - 1], fh, rh)
      ensures AllReached(a, b, fl[d - 1], d - 1) && AllReached(Rev(a), Rev(b), rl[d - 1], d - 1)
      ensures Seen(original, modified, range, a, b, true) && Seen(original, modified, range, Rev(a), Rev(b), false)
      ensures |a| == range.originalEnd - range.originalStart && |b| == range.modifiedEnd - range.modifiedStart
      ensures d - 1 <= MaxDifferencesHistory ==>
          Recording(range, |a|, |b|, fh, fl, true) && Recording(range, |a|, |b|, rh, rl, false)
    {
    }

    // ---- Divide and conquer ----

    /** The elements still to be compared have the distance of all elements of the range. */
    ghost predicate SameDistance(originalStart: int, originalEnd: int, modifiedStart: int, modifiedEnd: int,
            distance: nat)
    {
      && 0 <= originalStart <= originalEnd + 1 <= |original| && 0 <= modifiedStart <= modifiedEnd + 1 <= |modified|
      && Distance(original[originalStart..originalEnd + 1], modified[modifiedStart..modifiedEnd + 1]) == distance
    }

    lemma {:induction false} TrimStart(originalStart: int, originalEnd: int, modifiedStart: int, modifiedEnd: int,
            distance: nat)
      requires SameDistance(originalStart, originalEnd, modifiedStart, modifiedEnd, distance)
      requires originalStart <= originalEnd && modifiedStart <= modifiedEnd
      requires original[originalStart] == modified[modifiedStart]
      ensures SameDistance(originalStart + 1, originalEnd, modifiedStart + 1, modifiedEnd, distance)
      ensures Unchanged(original, modified, originalStart, modifiedStart, originalStart + 1, modifiedStart + 1)
    {
      var a, b := original[originalStart..originalEnd + 1], modified[modifiedStart..modifiedEnd + 1];
      TrimFirst(a, b);
      assert a[1..] == original[originalStart + 1..originalEnd + 1];
      assert b[1..] == modified[modifiedStart + 1..modifiedEnd + 1];
    }

    lemma {:induction false} TrimEnd(originalStart: int, originalEnd: int, modifiedStart: int, modifiedEnd: int,
            distance: nat)
      requires SameDistance(originalStart, originalEnd, modifiedStart, modifiedEnd, distance)
      requires originalStart <= originalEnd && modifiedStart <= modifiedEnd
      requires original[originalEnd] == modified[modifiedEnd]
      ensures SameDistance(originalStart, originalEnd - 1, modifiedStart, modifiedEnd - 1, distance)
      ensures Unchanged(original, modified, originalEnd, modifiedEnd, originalEnd + 1, modifiedEnd + 1)
    {
      var a, b := original[originalStart..originalEnd + 1], modified[modifiedStart..modifiedEnd + 1];
      TrimLast(a, b);
      assert a[..|a| - 1] == original[originalStart..originalEnd];
      assert b[..|b| - 1] == modified[modifiedStart..modifiedEnd];
    }

    lemma {:induction false} NothingUnchanged(x: int, y: int)
      ensures Unchanged(original, modified, x, y, x, y)
    {
    }

    /** Equal elements before and after do not change a script. */
    lemma {:induction false} Surround(changes: seq<DiffChange>, x0: int, y0: int, x1: int, y1: int, x2: int, y2: int,
            x3: int, y3: int)
      requires Unchanged(original, modified, x0, y0, x1, y1) && Script(original, modified, changes, x1, y1, x2, y2)
      requires Unchanged(original, modified, x2, y2, x3, y3)
      ensures Script(original, modified, changes, x0, y0, x3, y3)
    {
      ScriptJoin(original, modified, [], changes, x0, y0, x1, y1, x2, y2);
      assert [] + changes == changes;
      ScriptJoin(original, modified, changes, [], x0, y0, x2, y2, x3, y3);
      assert changes + [] == changes;
    }

    /** One side is exhausted: whatever is left of the other is one change. */
    method RestIsOneChange(originalStart: int, originalEnd: int, modifiedStart: int, modifiedEnd: int,
            ghost distance: nat)
      returns (changes: seq<DiffChange>)
      requires SameDistance(originalStart, originalEnd, modifiedStart, modifiedEnd, distance)
      requires originalStart > originalEnd || modifiedStart > modifiedEnd
      ensures Script(original, modified, changes, originalStart, modifiedStart, originalEnd + 1, modifiedEnd + 1)
      ensures Cost(changes) == distance
    {
      if modifiedStart <= modifiedEnd {
        assert originalStart == originalEnd + 1;
        changes := [DiffChange(originalStart, 0, modifiedStart, modifiedEnd - modifiedStart + 1)];
        SingleChange(original, modified, changes[0], originalStart, modifiedStart);
      } else if originalStart <= originalEnd {
        assert modifiedStart == modifiedEnd + 1;
        changes := [DiffChange(originalStart, originalEnd - originalStart + 1, modifiedStart, 0)];
        SingleChange(original, modified, changes[0], originalStart, modifiedStart);
      } else {
        assert originalStart == originalEnd + 1 && modifiedStart == modifiedEnd + 1;
        changes := [];
      }
    }

    /** A split point cuts the range into two smaller ranges whose distances add up. */
    lemma {:induction false} Halves(originalStart: int, originalEnd: int, modifiedStart: int, modifiedEnd: int,
            midOriginal: int, midModified: int, distance: nat) returns (left: nat, right: nat)
      requires SameDistance(originalStart, originalEnd, modifiedStart, modifiedEnd, distance)
      requires SplitsShortest(original[originalStart..originalEnd + 1], modified[modifiedStart..modifiedEnd + 1],
          midOriginal - originalStart + 1, midModified - modifiedStart + 1)
      ensures SameDistance(originalStart, midOriginal, modifiedStart, midModified, left)
      ensures SameDistance(midOriginal + 1, originalEnd, midModified + 1, modifiedEnd, right)
      ensures left + right == distance
      ensures midOriginal < originalEnd || midModified < modifiedEnd
      ensures midOriginal + 1 > originalStart || midModified + 1 > modifiedStart
    {
      var a, b := original[originalStart..originalEnd + 1], modified[modifiedStart..modifiedEnd + 1];
      var x, y := midOriginal - originalStart + 1, midModified - modifiedStart + 1;
      left, right := Dist(a, b, x, y), RDist(a, b, x, y);
      SplitDistance(a, b, x, y);
      assert a[..x] == original[originalStart..midOriginal + 1] && a[x..] == original[midOriginal + 1..originalEnd + 1];
      assert b[..y] == modified[modifiedStart..midModified + 1] && b[y..] == modified[midModified + 1..modifiedEnd + 1];
    }

    /** A shortest script for any range of the two sequences. */
    method ComputeDiffRecursive(originalStart0: int, originalEnd0: int, modifiedStart0: int,
        modifiedEnd0: int) returns (changes: seq<DiffChange>)
      requires 0 <= originalStart0 <= originalEnd0 + 1 <= |original| < MAX_SAFE_SMALL_INTEGER
      requires 0 <= modifiedStart0 <= modifiedEnd0 + 1 <= |modified| < MAX_SAFE_SMALL_INTEGER
      modifies this
      ensures Script(original, modified, changes, originalStart0, modifiedStart0, originalEnd0 + 1, modifiedEnd0 + 1)
      ensures Cost(changes) == Distance(original[originalStart0..originalEnd0 + 1],
          modified[modifiedStart0..modifiedEnd0 + 1])
      decreases originalEnd0 - originalStart0 + modifiedEnd0 - modifiedStart0 + 2
    {
      NothingUnchanged(originalStart0, modifiedStart0);
      NothingUnchanged(originalEnd0 + 1, modifiedEnd0 + 1);
      hide Script, Cost, SplitsShortest, Unchanged, Distance;
      var originalStart, originalEnd, modifiedStart, modifiedEnd := originalStart0, originalEnd0, modifiedStart0,
          modifiedEnd0;
      ghost var distance := Distance(original[originalStart0..originalEnd0 + 1],
          modified[modifiedStart0..modifiedEnd0 + 1]);

      while originalStart <= originalEnd && modifiedStart <= modifiedEnd
          && ElementsAreEqual(originalStart, modifiedStart)
        invariant SameDistance(originalStart, originalEnd, modifiedStart, modifiedEnd, distance)
        invariant originalStart0 <= originalStart && modifiedStart0 <= modifiedStart
        invariant Unchanged(original, modified, originalStart0, modifiedStart0, originalStart, modifiedStart)
        decreases originalEnd - originalStart
      {
        TrimStart(originalStart, originalEnd, modifiedStart, modifiedEnd, distance);
        UnchangedJoin(original, modified, originalStart0, modifiedStart0, originalStart, modifiedStart,
            originalStart + 1, modifiedStart + 1);
        originalStart, modifiedStart := originalStart + 1, modifiedStart + 1;
      }

      while originalEnd >= originalStart && modifiedEnd >= modifiedStart && ElementsAreEqual(originalEnd, modifiedEnd)
        invariant SameDistance(originalStart, originalEnd, modifiedStart, modifiedEnd, distance)
        invariant originalEnd <= originalEnd0 && modifiedEnd <= modifiedEnd0
        invariant Unchanged(original, modified, originalEnd + 1, modifiedEnd + 1, originalEnd0 + 1, modifiedEnd0 + 1)
        invariant originalStart <= originalEnd && modifiedStart <= modifiedEnd ==>
            original[originalStart] != modified[modifiedStart]
        decreases originalEnd - originalStart
      {
        TrimEnd(originalStart, originalEnd, modifiedStart, modifiedEnd, distance);
        UnchangedJoin(original, modified, originalEnd, modifiedEnd, originalEnd + 1, modifiedEnd + 1, originalEnd0 + 1,
            modifiedEnd0 + 1);
        originalEnd, modifiedEnd := originalEnd - 1, modifiedEnd - 1;
      }

      if originalStart > originalEnd || modifiedStart > modifiedEnd {
        changes := RestIsOneChange(originalStart, originalEnd, modifiedStart, modifiedEnd, distance);
      } else {
        ghost var a, b := original[originalStart..originalEnd + 1], modified[modifiedStart..modifiedEnd + 1];
        var result, midOriginal, midModified := ComputeRecursionPoint(originalStart, originalEnd, modifiedStart,
            modifiedEnd, a, b);
        if result.Some? {
          changes := result.value;
        } else {
          ghost var left, right := Halves(originalStart, originalEnd, modifiedStart, modifiedEnd, midOriginal,
              midModified, distance);
          var leftChanges := ComputeDiffRecursive(originalStart, midOriginal, modifiedStart, midModified);
          var rightChanges := ComputeDiffRecursive(midOriginal + 1, originalEnd, midModified + 1, modifiedEnd);
          changes := ConcatenateChanges(leftChanges, rightChanges, originalStart, modifiedStart, midOriginal + 1,
              midModified + 1, originalEnd + 1, modifiedEnd + 1);
        }
      }
      Surround(changes, originalStart0, modifiedStart0, originalStart, modifiedStart, originalEnd + 1, modifiedEnd + 1,
          originalEnd0 + 1, modifiedEnd0 + 1);
    }

    /** The change list of the two sequences: carrying it out rebuilds the modified sequence, and no
        change list that does so inserts and deletes fewer elements. */
    method ComputeDiff() returns (changes: seq<DiffChange>)
      requires |original| < MAX_SAFE_SMALL_INTEGER && |modified| < MAX_SAFE_SMALL_INTEGER
      modifies this
      ensures IsScript(original, modified, changes) && IsCorrect(original, modified, changes)
      ensures Rebuild(original, modified, changes, 0, 0, |original|, |modified|) == modified
      ensures Cost(changes) == Distance(original, modified)
      ensures forall other :: IsCorrect(original, modified, other) ==> Cost(changes) <= Cost(other)
    {
      changes := ComputeDiffRecursive(0, |original| - 1, 0, |modified| - 1);
      assert original[0..|original|] == original && modified[0..|modified|] == modified;
      ScriptRebuilds(original, modified, changes, 0, 0, |original|, |modified|);
      ScriptIsCorrect(original, modified, changes, 0, 0, |original|, |modified|);
      forall other | IsCorrect(original, modified, other)
        ensures Cost(changes) <= Cost(other)
      {
        CorrectCostsDistance(original, modified, other, 0, 0, |original|, |modified|);
      }
    }
  }
}
