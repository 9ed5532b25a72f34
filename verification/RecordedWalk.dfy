/** Walking back through the recorded rounds of a search.

    The search keeps, for every round, the cells it has found so far.  This module states what such a
    recording is worth: undoing the rounds one by one, looking only at recorded cells, follows a path of
    one edit a round.  Both directions are covered by one set of lemmas; `forward` tells them apart. */
module RecordedWalk {
  import opened Sequences

  import opened EditGraph
  import opened EditScript
  import opened DiagonalSearch

  /** The range of one search.  The start bounds lie one before the first element of the range, the
      end bounds on its last element. */
  datatype SearchRange = SearchRange(originalStart: int, originalEnd: int, modifiedStart: int, modifiedEnd: int) {
    function DiagonalForwardBase(): int { modifiedEnd - modifiedStart }

    function DiagonalReverseBase(): int { originalEnd - originalStart }

    function DiagonalForwardOffset(): int { originalStart - modifiedStart }

    function DiagonalReverseOffset(): int { originalEnd - modifiedEnd }

    function MaxDifferences(): int { originalEnd - originalStart + (modifiedEnd - modifiedStart) }

    function NumDiagonals(): int { MaxDifferences() + 1 }

    function DeltaIsEven(): bool { (DiagonalReverseBase() - DiagonalForwardBase()) % 2 == 0 }
  }

  /** `a` and `b` are the elements of the range in the order in which a search sees them. */
  ghost predicate Seen<T>(original: seq<T>, modified: seq<T>, range: SearchRange, a: seq<T>, b: seq<T>, forward: bool) {
    && -1 <= range.originalStart < range.originalEnd < |original|
    && -1 <= range.modifiedStart < range.modifiedEnd < |modified|
    && var elements := original[range.originalStart + 1..range.originalEnd + 1];
       var others := modified[range.modifiedStart + 1..range.modifiedEnd + 1];
       if forward then a == elements && b == others else a == Rev(elements) && b == Rev(others)
  }

  /** The search's count of elements for a stored index, and back. */
  ghost function Count(range: SearchRange, index: int, forward: bool): int {
    if forward then index - range.originalStart else range.originalEnd - index
  }

  /** The point of column x on a diagonal of the search, in elements of the whole sequences. */
  ghost function X(range: SearchRange, x: int, forward: bool): int {
    if forward then range.originalStart + 1 + x else range.originalEnd + 1 - x
  }

  ghost function Y(range: SearchRange, x: int, diagonal: int, forward: bool): int {
    if forward then range.modifiedStart + 1 + x - diagonal else range.modifiedEnd + 1 - x + diagonal
  }

  /** The vector of a search with its points counted from the search's own end; the reverse vector is
      mirrored as well. */
  ghost function View(range: SearchRange, points: seq<int>, forward: bool): (view: seq<int>)
    ensures |view| == |points|
  {
    seq(|points|, i requires 0 <= i < |points| => Count(range, points[Cell(|points| - 1, i, forward)], forward))
  }

  /** The place of a search's cell in its unmirrored vector, and back. */
  ghost function Cell(last: int, i: int, forward: bool): int {
    if forward then i else last - i
  }

  /** Whether two elements pair up, read off the whole sequences. */
  lemma {:induction false} KeptSeen<T>(original: seq<T>, modified: seq<T>, range: SearchRange, a: seq<T>, b: seq<T>,
      forward: bool, x: nat, diagonal: int)
    requires Seen(original, modified, range, a, b, forward) && 0 <= x - diagonal
    ensures forward ==>
      var i, j := range.originalStart + x, range.modifiedStart + x - diagonal;
      Kept(a, b, x, diagonal) <==> i < range.originalEnd && j < range.modifiedEnd && original[i + 1] == modified[j + 1]
    ensures !forward ==>
      var i, j := range.originalEnd - x, range.modifiedEnd - x + diagonal;
      Kept(a, b, x, diagonal) <==> i > range.originalStart && j > range.modifiedStart && original[i] == modified[j]
  {
  }

  /** The unmirrored vector `points` holds the cells of round r of `level`. */
  ghost predicate Holds(range: SearchRange, n: nat, m: nat, points: seq<int>, level: seq<int>, r: nat, forward: bool) {
    && |points| == |level| == n + m + 1
    && forall j :: InRound(n, m, r, j) ==> Count(range, points[Cell(n + m, j, forward)], forward) == level[j]
  }

  /** Where step 1 of a search lands, read off the unmirrored vector. */
  ghost predicate LandsAt(points: seq<int>, diagonalStart: int, diagonalEnd: int, diagonal: int, forward: bool,
          index: int)
  {
    && 0 <= diagonalStart <= diagonal <= diagonalEnd < |points|
    && (diagonal == diagonalStart || diagonal < diagonalEnd ==> diagonal + 1 < |points|)
    && (diagonal == diagonalStart || diagonal >= 1)
    && index ==
       if forward then
         if diagonal == diagonalStart || (diagonal < diagonalEnd && points[diagonal - 1] < points[diagonal + 1])
         then points[diagonal + 1]
         else points[diagonal - 1] + 1
       else
         if diagonal == diagonalStart || (diagonal < diagonalEnd && points[diagonal - 1] >= points[diagonal + 1])
         then points[diagonal + 1] - 1
         else points[diagonal - 1]
  }

  lemma {:induction false} ReadsLanding(range: SearchRange, n: nat, m: nat, points: seq<int>, before: seq<int>, d: nat,
      i: int, forward: bool)
    requires n > 0 && m > 0 && d > 0 && InRound(n, m, d, i)
    requires Holds(range, n, m, points, before, d - 1, forward)
    ensures var start, end := if forward then Lo(n, m, d) else n + m - Hi(n, m, d),
        if forward then Hi(n, m, d) else n + m - Lo(n, m, d);
      LandsAt(points, start, end, Cell(n + m, i, forward), forward,
          X(range, Landing(n, m, before, i, d, forward), forward) - 1)
  {
    ClipIsNearest(n, m, d);
    NeighboursWritten(n, m, d, i);
  }

  // ---- A round in progress ----

  /** Round d has rewritten its cells whose place in the unmirrored vector is below `bound`. */
  ghost predicate RoundSoFar<T>(a: seq<T>, b: seq<T>, before: seq<int>, now: seq<int>, d: nat, forward: bool,
          bound: int)
  {
    && |before| == |now| == |a| + |b| + 1
    && (forall i :: InRound(|a|, |b|, d, i) && Cell(|a| + |b|, i, forward) < bound ==>
        Stepped(a, b, before, i, d, forward, now[i]))
    && (forall i :: 0 <= i < |now| && (InRound(|a|, |b|, d, i) ==> bound <= Cell(|a| + |b|, i, forward)) ==>
        now[i] == before[i])
  }

  lemma {:induction false} RoundStarts<T>(a: seq<T>, b: seq<T>, before: seq<int>, d: nat, forward: bool)
    requires |a| > 0 && |b| > 0 && d > 0 && |before| == |a| + |b| + 1
    ensures RoundSoFar(a, b, before, before, d, forward,
        if forward then Lo(|a|, |b|, d) else |a| + |b| - Hi(|a|, |b|, d))
  {
    ClipIsNearest(|a|, |b|, d);
  }

  lemma {:induction false} RoundAdvances<T>(a: seq<T>, b: seq<T>, before: seq<int>, now: seq<int>, d: nat,
          forward: bool, i: int, x: int)
    requires RoundSoFar(a, b, before, now, d, forward, Cell(|a| + |b|, i, forward))
    requires InRound(|a|, |b|, d, i) && Stepped(a, b, before, i, d, forward, x)
    ensures RoundSoFar(a, b, before, now[i := x], d, forward, Cell(|a| + |b|, i, forward) + 2)
  {
    hide Stepped;
    var next := if forward then i + 1 else i - 1;
    EvenStep(i - |b| + d);
    EvenStep(i - 1 - |b| + d);
    assert !InRound(|a|, |b|, d, next);
  }

  lemma {:induction false} RoundFinishes<T>(a: seq<T>, b: seq<T>, before: seq<int>, now: seq<int>, d: nat,
          forward: bool, bound: int)
    requires |a| > 0 && |b| > 0 && d > 0 && RoundSoFar(a, b, before, now, d, forward, bound)
    requires bound > if forward then Hi(|a|, |b|, d) else |a| + |b| - Lo(|a|, |b|, d)
    ensures RoundDone(a, b, before, now, d, forward)
  {
    hide Stepped;
    ClipIsNearest(|a|, |b|, d);
  }

  /** The cells a step reads are not rewritten by its own round. */
  lemma {:induction false} RoundReadsPrevious<T>(range: SearchRange, a: seq<T>, b: seq<T>, before: seq<int>,
      points: seq<int>, d: nat, forward: bool, bound: int)
    requires d > 0 && |points| == |a| + |b| + 1
    requires RoundSoFar(a, b, before, View(range, points, forward), d, forward, bound)
    ensures Holds(range, |a|, |b|, points, before, d - 1, forward)
  {
    hide Stepped;
    var previous, last := d - 1, |a| + |b|;
    forall j | InRound(|a|, |b|, previous, j)
      ensures Count(range, points[Cell(last, j, forward)], forward) == before[j]
    {
      EvenStep(j - |b| + previous);
      assert View(range, points, forward)[j] == before[j];
    }
  }

  lemma {:induction false} ViewUpdate(range: SearchRange, points: seq<int>, i: int, x: int, forward: bool)
    requires 0 <= i < |points|
    ensures var k := Cell(|points| - 1, i, forward);
      View(range, points[k := x], forward) == View(range, points, forward)[i := Count(range, x, forward)]
  {
  }

  /** Storing a step's result, and what the round knows then. */
  lemma {:induction false} StepStored<T>(range: SearchRange, a: seq<T>, b: seq<T>, before: seq<int>, points: seq<int>,
      d: nat, forward: bool, i: int, x: int)
    requires d > 0 && |points| == |a| + |b| + 1 && InRound(|a|, |b|, d, i)
    requires RoundSoFar(a, b, before, View(range, points, forward), d, forward, Cell(|a| + |b|, i, forward))
    requires Stepped(a, b, before, i, d, forward, Count(range, x, forward))
    ensures var k := Cell(|a| + |b|, i, forward);
      && RoundSoFar(a, b, before, View(range, points[k := x], forward), d, forward, k + 2)
      && Holds(range, |a|, |b|, points[k := x], before, d - 1, forward)
  {
    hide Stepped, RoundSoFar, View, Holds;
    RoundAdvances(a, b, before, View(range, points, forward), d, forward, i, Count(range, x, forward));
    ViewUpdate(range, points, i, x, forward);
    var k := Cell(|a| + |b|, i, forward);
    RoundReadsPrevious(range, a, b, before, points[k := x], d, forward, k + 2);
  }

  // ---- Levels and their recording ----

  ghost predicate LevelDone<T>(a: seq<T>, b: seq<T>, levels: seq<seq<int>>, forward: bool, r: nat) {
    r < |levels| ==> |levels[r]| == |a| + |b| + 1 && (r > 0 ==> RoundDone(a, b, levels[r - 1], levels[r], r, forward))
  }

  /** `levels[r]` is the vector after round r. */
  ghost predicate Levels<T>(a: seq<T>, b: seq<T>, levels: seq<seq<int>>, forward: bool) {
    && |a| > 0 && |b| > 0
    && |levels| > 0 && |levels[0]| == |a| + |b| + 1 && levels[0][|b|] == 0
    && forall r: nat :: LevelDone(a, b, levels, forward, r)
  }

  /** The history entry of round r: the base cell's position, then the cells of the round's span. */
  ghost predicate Recorded(range: SearchRange, n: nat, m: nat, entry: seq<int>, level: seq<int>, r: nat, forward: bool)
  {
    && |level| == n + m + 1 && n > 0 && m > 0 && r > 0
    && 0 <= Lo(n, m, r) <= Hi(n, m, r) <= n + m
    && |entry| == Hi(n, m, r) - Lo(n, m, r) + 2
    && entry[0] == (if forward then m - Lo(n, m, r) + 1 else Hi(n, m, r) - m + 1)
    && View(range, entry[1..], forward) == level[Lo(n, m, r)..Hi(n, m, r) + 1]
  }

  ghost predicate EntryRecorded(range: SearchRange, n: nat, m: nat, history: seq<seq<int>>, levels: seq<seq<int>>,
          forward: bool, r: nat)
  {
    0 < r <= |history| && r < |levels| ==> Recorded(range, n, m, history[r - 1], levels[r], r, forward)
  }

  /** `history[r - 1]` is the entry of round r. */
  ghost predicate History(range: SearchRange, n: nat, m: nat, history: seq<seq<int>>, levels: seq<seq<int>>,
          forward: bool)
  {
    |history| < |levels| && forall r: nat :: EntryRecorded(range, n, m, history, levels, forward, r)
  }

  lemma {:induction false} LevelsPrefix<T>(range: SearchRange, a: seq<T>, b: seq<T>, levels: seq<seq<int>>,
      history: seq<seq<int>>, forward: bool)
    requires Levels(a, b, levels, forward) && |levels| > 1
    requires |history| == |levels| - 1 && History(range, |a|, |b|, history, levels, forward)
    ensures Levels(a, b, levels[..|levels| - 1], forward)
    ensures History(range, |a|, |b|, history[..|history| - 1], levels[..|levels| - 1], forward)
  {
    var shorter, fewer := levels[..|levels| - 1], history[..|history| - 1];
    forall r: nat
      ensures LevelDone(a, b, shorter, forward, r)
    {
      assert LevelDone(a, b, levels, forward, r);
    }
    forall r: nat
      ensures EntryRecorded(range, |a|, |b|, fewer, shorter, forward, r)
    {
      assert EntryRecorded(range, |a|, |b|, history, levels, forward, r);
    }
  }

  // ---- Edits of the search ----

  /** The cell that the step of round r to `cell` comes from. */
  ghost function CellBefore(n: nat, m: nat, level: seq<int>, r: nat, cell: int, forward: bool): (i: int)
    requires n > 0 && m > 0 && r > 0 && |level| == n + m + 1 && InRound(n, m, r, cell)
    ensures InRound(n, m, r - 1, i)
  {
    ClipIsNearest(n, m, r);
    NeighboursWritten(n, m, r, cell);
    if Inserts(level, cell, Lo(n, m, r), Hi(n, m, r), forward) then cell + 1 else cell - 1
  }

  /** The single edit that round r makes on its way to a cell, in elements of the whole sequences. */
  ghost function EditInto(range: SearchRange, n: nat, m: nat, level: seq<int>, r: nat, cell: int, forward: bool): Edit
    requires n > 0 && m > 0 && r > 0 && |level| == n + m + 1 && InRound(n, m, r, cell)
  {
    ClipIsNearest(n, m, r);
    var t := Landing(n, m, level, cell, r, forward);
    var x, y := X(range, t, forward), Y(range, t, cell - m, forward);
    var inserts := Inserts(level, cell, Lo(n, m, r), Hi(n, m, r), forward);
    if forward then Edit(if inserts then x else x - 1, if inserts then y - 1 else y, inserts)
    else Edit(x, y, inserts)
  }

  /** The end of an edit that is nearer to the search's own start, and the other one. */
  ghost function Near(e: Edit, forward: bool): (int, int) {
    if forward then (e.x, e.y) else (e.EndX(), e.EndY())
  }

  ghost function Far(e: Edit, forward: bool): (int, int) {
    Near(e, !forward)
  }

  /** Only equal pairs lie between an edit and the point the search went on to. */
  ghost predicate LeadsTo<T>(original: seq<T>, modified: seq<T>, e: Edit, px: int, py: int, forward: bool) {
    if forward then Unchanged(original, modified, e.EndX(), e.EndY(), px, py)
    else Unchanged(original, modified, px, py, e.x, e.y)
  }

  lemma {:induction false} EditIntoPoints(range: SearchRange, n: nat, m: nat, level: seq<int>, r: nat, cell: int,
          forward: bool)
    requires n > 0 && m > 0 && r > 0 && |level| == n + m + 1 && InRound(n, m, r, cell)
    ensures var t, i := Landing(n, m, level, cell, r, forward), CellBefore(n, m, level, r, cell, forward);
      var edit := EditInto(range, n, m, level, r, cell, forward);
      && Far(edit, forward) == (X(range, t, forward), Y(range, t, cell - m, forward))
      && Near(edit, forward) == (X(range, level[i], forward), Y(range, level[i], i - m, forward))
  {
    ClipIsNearest(n, m, r);
    NeighboursWritten(n, m, r, cell);
  }

  /** Equal pairs of the search are equal pairs of the whole sequences. */
  lemma {:induction false} SeenUnchanged<T>(original: seq<T>, modified: seq<T>, range: SearchRange,
          a: seq<T>, b: seq<T>, forward: bool, from: int, to: int, diagonal: int, e: Edit)
    requires Seen(original, modified, range, a, b, forward)
    requires from <= to && Snake(a, b, from, to, diagonal)
    requires Far(e, forward) == (X(range, from, forward), Y(range, from, diagonal, forward))
    ensures LeadsTo(original, modified, e, X(range, to, forward), Y(range, to, diagonal, forward), forward)
  {
    if forward {
      var shifted := range.DiagonalForwardOffset() + diagonal;
      forall k | X(range, from, true) <= k < X(range, to, true)
        ensures Kept(original, modified, k, shifted)
      {
        assert Kept(a, b, Count(range, k - 1, true), diagonal);
      }
    } else {
      var shifted := range.DiagonalReverseOffset() - diagonal;
      forall k | X(range, to, false) <= k < X(range, from, false)
        ensures Kept(original, modified, k, shifted)
      {
        assert Kept(a, b, Count(range, k, false), diagonal);
      }
    }
  }

  /** Undoing round 1 leads back to the search's start. */
  lemma {:induction false} EditFromStart(range: SearchRange, n: nat, m: nat, level: seq<int>, cell: int, forward: bool)
    requires n > 0 && m > 0 && |level| == n + m + 1 && level[m] == 0 && InRound(n, m, 1, cell)
    ensures Near(EditInto(range, n, m, level, 1, cell, forward), forward)
        == (X(range, 0, forward), Y(range, 0, 0, forward))
  {
    EditIntoPoints(range, n, m, level, 1, cell, forward);
    assert CellBefore(n, m, level, 1, cell, forward) == m;
  }

  /** Between the edits of two successive rounds there are only equal pairs. */
  lemma {:induction false} EditsConnect<T>(original: seq<T>, modified: seq<T>, range: SearchRange, a: seq<T>, b: seq<T>,
          forward: bool, before: seq<int>, after: seq<int>, r: nat, cell: int)
    requires Seen(original, modified, range, a, b, forward) && |a| > 0 && |b| > 0
    requires r > 0 && RoundDone(a, b, before, after, r, forward) && InRound(|a|, |b|, r + 1, cell)
    ensures var edit := EditInto(range, |a|, |b|, after, r + 1, cell, forward);
      var previous := EditInto(range, |a|, |b|, before, r, CellBefore(|a|, |b|, after, r + 1, cell, forward), forward);
      LeadsTo(original, modified, previous, Near(edit, forward).0, Near(edit, forward).1, forward)
  {
    hide Landing, EditInto, CellBefore, LeadsTo;
    var n, m := |a|, |b|;
    var next := CellBefore(n, m, after, r + 1, cell, forward);
    EditIntoPoints(range, n, m, after, r + 1, cell, forward);
    EditIntoPoints(range, n, m, before, r, next, forward);
    assert Stepped(a, b, before, next, r, forward, after[next]);
    SeenUnchanged(original, modified, range, a, b, forward, Landing(n, m, before, next, r, forward), after[next],
        next - m, EditInto(range, n, m, before, r, next, forward));
  }

  // ---- Reading the recording ----

  /** `diagonal` can be undone from `points`: its neighbours are recorded. */
  ghost predicate Readable(points: seq<int>, diagonalMin: int, diagonalMax: int, diagonal: int) {
    0 <= diagonalMin <= diagonal <= diagonalMax < |points| && diagonalMin < diagonalMax
  }

  /** The edit that the recorded neighbours of a diagonal stand for, and the diagonal it comes from. */
  ghost function ReadEdit(range: SearchRange, points: seq<int>, diagonalMin: int, diagonalMax: int, diagonal: int,
      relative: int, forward: bool): (Edit, int)
    requires Readable(points, diagonalMin, diagonalMax, diagonal)
  {
    if forward then
      if diagonal == diagonalMin || (diagonal < diagonalMax && points[diagonal - 1] < points[diagonal + 1]) then
        var x := points[diagonal + 1];
        (Edit(x + 1, x - relative - range.DiagonalForwardOffset(), true), relative + 1)
      else
        var x := points[diagonal - 1] + 1;
        (Edit(x, x - relative - range.DiagonalForwardOffset() + 1, false), relative - 1)
    else
      if diagonal == diagonalMin || (diagonal < diagonalMax && points[diagonal - 1] >= points[diagonal + 1]) then
        var x := points[diagonal + 1] - 1;
        (Edit(x + 1, x - relative - range.DiagonalReverseOffset() + 1, false), relative + 1)
      else
        var x := points[diagonal - 1];
        (Edit(x + 1, x - relative - range.DiagonalReverseOffset() + 1, true), relative - 1)
  }

  /** Undoing the round recorded in `points` and then those in `history`, last entry first, follows a
      path of single edits from (px, py) to the search's start: equal pairs connect every edit with the
      point already reached, and the last edit touches the start. */
  ghost predicate Walk<T>(original: seq<T>, modified: seq<T>, range: SearchRange, forward: bool, history: seq<seq<int>>,
          points: seq<int>, base: int, diagonalMin: int, diagonalMax: int, relative: int, px: int, py: int)
    decreases |history|, 1
  {
    && Readable(points, diagonalMin, diagonalMax, relative + base)
    && var (edit, next) := ReadEdit(range, points, diagonalMin, diagonalMax, relative + base, relative, forward);
       && LeadsTo(original, modified, edit, px, py, forward)
       && WalkOn(original, modified, range, forward, history, edit, next)
  }

  ghost predicate WalkOn<T>(original: seq<T>, modified: seq<T>, range: SearchRange, forward: bool,
          history: seq<seq<int>>, edit: Edit, next: int)
    decreases |history|, 0
  {
    if history == [] then
      Near(edit, forward) == (X(range, 0, forward), Y(range, 0, 0, forward))
    else
      var entry := history[|history| - 1];
      && |entry| > 0
      && Walk(original, modified, range, forward, history[..|history| - 1], entry, entry[0], 1, |entry| - 1, next,
              Near(edit, forward).0, Near(edit, forward).1)
  }

  /** One step of a walk, spelled out. */
  lemma {:induction false} WalkStep<T>(original: seq<T>, modified: seq<T>, range: SearchRange, forward: bool,
          history: seq<seq<int>>, points: seq<int>, base: int, diagonalMin: int, diagonalMax: int, relative: int,
          px: int, py: int)
    requires Walk(original, modified, range, forward, history, points, base, diagonalMin, diagonalMax, relative, px, py)
    ensures Readable(points, diagonalMin, diagonalMax, relative + base)
    ensures var (edit, next) := ReadEdit(range, points, diagonalMin, diagonalMax, relative + base, relative, forward);
      && LeadsTo(original, modified, edit, px, py, forward)
      && (if forward then 0 <= px - edit.EndX() == py - edit.EndY() else 0 <= edit.x - px == edit.y - py)
      && (history == [] ==> Near(edit, forward) == (X(range, 0, forward), Y(range, 0, 0, forward)))
      && (history != [] ==>
            var entry := history[|history| - 1];
            && |entry| > 0
            && Walk(original, modified, range, forward, history[..|history| - 1], entry, entry[0], 1, |entry| - 1, next,
                Near(edit, forward).0, Near(edit, forward).1))
  {
  }

  /** The part of a vector the walk reads at round r: `points`, whose cells are numbered from `shift`
      on, holds the round r - 1 cells of `level` within the span of round r. */
  ghost predicate Window(range: SearchRange, n: nat, m: nat, points: seq<int>, shift: int, level: seq<int>, r: nat,
          forward: bool)
  {
    && |level| == n + m + 1 && n > 0 && m > 0 && r > 0
    && 0 <= WindowMin(n, m, shift, r, forward) && WindowMax(n, m, shift, r, forward) < |points|
    && forall j :: Lo(n, m, r) <= j <= Hi(n, m, r) && InRound(n, m, r - 1, j) ==>
        ReadsCell(range, n, m, points, shift, level, forward, j)
  }

  ghost predicate ReadsCell(range: SearchRange, n: nat, m: nat, points: seq<int>, shift: int, level: seq<int>,
          forward: bool, j: int)
  {
    var k := Cell(n + m, j, forward) - shift;
    0 <= j < |level| && 0 <= k < |points| && Count(range, points[k], forward) == level[j]
  }

  ghost function WindowMin(n: nat, m: nat, shift: int, r: nat, forward: bool): int {
    Cell(n + m, if forward then Lo(n, m, r) else Hi(n, m, r), forward) - shift
  }

  ghost function WindowMax(n: nat, m: nat, shift: int, r: nat, forward: bool): int {
    Cell(n + m, if forward then Hi(n, m, r) else Lo(n, m, r), forward) - shift
  }

  /** The vector of the current round itself serves as a window. */
  lemma {:induction false} WindowFromVector(range: SearchRange, n: nat, m: nat, before: seq<int>, points: seq<int>,
          r: nat, forward: bool)
    requires n > 0 && m > 0 && r > 0 && Holds(range, n, m, points, before, r - 1, forward)
    ensures Window(range, n, m, points, 0, before, r, forward)
  {
    ClipIsNearest(n, m, r);
  }

  /** The entry of round r serves as a window. */
  lemma {:induction false} WindowFromHistory(range: SearchRange, n: nat, m: nat, before: seq<int>, after: seq<int>,
      entry: seq<int>, r: nat, forward: bool)
    requires Untouched(n, m, before, after, r)
    requires Recorded(range, n, m, entry, after, r, forward)
    ensures var shift := WindowMin(n, m, 0, r, forward) - 1;
      && Window(range, n, m, entry, shift, before, r, forward)
      && WindowMin(n, m, shift, r, forward) == 1 && WindowMax(n, m, shift, r, forward) == |entry| - 1
      && entry[0] == (if forward then m else n) - shift
  {
    var lo, hi, previous := Lo(n, m, r), Hi(n, m, r), r - 1;
    var shift := WindowMin(n, m, 0, r, forward) - 1;
    forall j | lo <= j <= hi && InRound(n, m, previous, j)
      ensures ReadsCell(range, n, m, entry, shift, before, forward, j)
    {
      EvenStep(j - m + previous);
      assert after[j] == before[j];
      assert View(range, entry[1..], forward)[j - lo] == after[lo..hi + 1][j - lo];
    }
  }

  /** Reading the recorded cells makes the same choice as the search made. */
  lemma {:induction false} ReadsStep(range: SearchRange, n: nat, m: nat, level: seq<int>, r: nat, cell: int,
      points: seq<int>, shift: int, forward: bool)
    requires Window(range, n, m, points, shift, level, r, forward)
    requires n == range.originalEnd - range.originalStart && m == range.modifiedEnd - range.modifiedStart
    requires InRound(n, m, r, cell) && (r == 1 || n + m > 2)
    ensures var min, max := WindowMin(n, m, shift, r, forward), WindowMax(n, m, shift, r, forward);
      var diagonal, relative := Cell(n + m, cell, forward) - shift, if forward then cell - m else m - cell;
      var before := CellBefore(n, m, level, r, cell, forward);
      && Readable(points, min, max, diagonal)
      && ReadEdit(range, points, min, max, diagonal, relative, forward)
         == (EditInto(range, n, m, level, r, cell, forward), if forward then before - m else m - before)
  {
    ClipIsNearest(n, m, r);
    NeighboursWritten(n, m, r, cell);
    if cell < Hi(n, m, r) { assert ReadsCell(range, n, m, points, shift, level, forward, cell + 1); }
    if cell > Lo(n, m, r) { assert ReadsCell(range, n, m, points, shift, level, forward, cell - 1); }
  }

  /** Every point a search records ends a monotone path with one edit per round, and the history
      suffices to walk it back. */
  lemma {:induction false} HistoryWalks<T>(original: seq<T>, modified: seq<T>, range: SearchRange, a: seq<T>, b: seq<T>,
          forward: bool, levels: seq<seq<int>>, history: seq<seq<int>>, cell: int, points: seq<int>, shift: int,
          px: int, py: int)
    requires Seen(original, modified, range, a, b, forward) && Levels(a, b, levels, forward)
    requires |levels| == 1 || |a| + |b| > 2
    requires |history| == |levels| - 1 && History(range, |a|, |b|, history, levels, forward)
    requires InRound(|a|, |b|, |levels|, cell)
    requires Window(range, |a|, |b|, points, shift, levels[|levels| - 1], |levels|, forward)
    requires LeadsTo(original, modified, EditInto(range, |a|, |b|, levels[|levels| - 1], |levels|, cell, forward), px,
        py, forward)
    ensures Walk(original, modified, range, forward, history, points, (if forward then |b| else |a|) - shift,
        WindowMin(|a|, |b|, shift, |levels|, forward), WindowMax(|a|, |b|, shift, |levels|, forward),
        if forward then cell - |b| else |b| - cell, px, py)
    decreases |levels|
  {
    hide InRound, EditInto, CellBefore, WindowMin, WindowMax, ReadEdit, LeadsTo, Stepped;
    var n, m, r := |a|, |b|, |levels|;
    var edit := EditInto(range, n, m, levels[r - 1], r, cell, forward);
    var next := CellBefore(n, m, levels[r - 1], r, cell, forward);
    ReadsStep(range, n, m, levels[r - 1], r, cell, points, shift, forward);
    if r == 1 {
      EditFromStart(range, n, m, levels[0], cell, forward);
    } else {
      assert LevelDone(a, b, levels, forward, r - 1) && EntryRecorded(range, n, m, history, levels, forward, r - 1);
      WindowFromHistory(range, n, m, levels[r - 2], levels[r - 1], history[r - 2], r - 1, forward);
      EditsConnect(original, modified, range, a, b, forward, levels[r - 2], levels[r - 1], r - 1, cell);
      LevelsPrefix(range, a, b, levels, history, forward);
      HistoryWalks(original, modified, range, a, b, forward, levels[..r - 1], history[..r - 2], next, history[r - 2],
          WindowMin(n, m, 0, r - 1, forward) - 1, Near(edit, forward).0, Near(edit, forward).1);
    }
    assert LevelDone(a, b, levels, forward, 0);
  }
}
