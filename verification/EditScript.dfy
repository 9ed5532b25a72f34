/** Change lists, what they mean, and how long the shortest ones are. */
module EditScript {
  import opened EditGraph

  /** One replaced piece: `originalLength` elements of the original from `originalStart` on give way
      to `modifiedLength` elements of the modified sequence from `modifiedStart` on. */
  datatype DiffChange = DiffChange(
    originalStart: int,
    originalLength: int,
    modifiedStart: int,
    modifiedLength: int)
  {
    function OriginalEnd(): int { originalStart + originalLength }

    function ModifiedEnd(): int { modifiedStart + modifiedLength }

    function Size(): int { originalLength + modifiedLength }

    ghost predicate Proper() { originalLength >= 0 && modifiedLength >= 0 && Size() > 0 }
  }

  /** A single insertion or deletion at the point (x, y). */
  datatype Edit = Edit(x: int, y: int, inserts: bool) {
    function EndX(): int { if inserts then x else x + 1 }

    function EndY(): int { if inserts then y + 1 else y }

    function AsChange(): DiffChange {
      if inserts then DiffChange(x, 0, y, 1) else DiffChange(x, 1, y, 0)
    }
  }

  /** The stretches from (x0, y0) to (x1, y1) pair up, element for element. */
  ghost predicate Unchanged<T>(a: seq<T>, b: seq<T>, x0: int, y0: int, x1: int, y1: int) {
    0 <= x1 - x0 == y1 - y0 && Snake(a, b, x0, x1, x0 - y0)
  }

  /** `changes` leads from (x0, y0) to (x1, y1): it is ordered, every change does something, all
      elements outside the changes pair up equal, and at least one pair lies between two changes. */
  ghost predicate Script<T>(a: seq<T>, b: seq<T>, changes: seq<DiffChange>, x0: int, y0: int, x1: int, y1: int)
    decreases |changes|
  {
    if changes == [] then
      Unchanged(a, b, x0, y0, x1, y1)
    else
      var c := changes[0];
      && Unchanged(a, b, x0, y0, c.originalStart, c.modifiedStart)
      && c.Proper()
      && (|changes| > 1 ==> c.OriginalEnd() < changes[1].originalStart)
      && Script(a, b, changes[1..], c.OriginalEnd(), c.ModifiedEnd(), x1, y1)
  }

  /** Inserted plus deleted elements. */
  ghost function Cost(changes: seq<DiffChange>): int {
    if changes == [] then 0 else changes[0].Size() + Cost(changes[1..])
  }

  /** The weaker notion any change list must meet to be correct at all: ordered, and all elements
      outside the changes pair up equal.  Changes may touch or be empty. */
  ghost predicate Correct<T>(a: seq<T>, b: seq<T>, changes: seq<DiffChange>, x0: int, y0: int, x1: int, y1: int)
    decreases |changes|
  {
    if changes == [] then
      Unchanged(a, b, x0, y0, x1, y1)
    else
      var c := changes[0];
      && Unchanged(a, b, x0, y0, c.originalStart, c.modifiedStart)
      && c.originalLength >= 0 && c.modifiedLength >= 0
      && Correct(a, b, changes[1..], c.OriginalEnd(), c.ModifiedEnd(), x1, y1)
  }

  ghost predicate IsCorrect<T>(a: seq<T>, b: seq<T>, changes: seq<DiffChange>) {
    Correct(a, b, changes, 0, 0, |a|, |b|)
  }

  ghost predicate IsScript<T>(a: seq<T>, b: seq<T>, changes: seq<DiffChange>) {
    Script(a, b, changes, 0, 0, |a|, |b|)
  }

  // ---- What a script means ----

  lemma {:induction false} ScriptForward<T>(a: seq<T>, b: seq<T>, changes: seq<DiffChange>, x0: int, y0: int,
          x1: int, y1: int)
    requires Script(a, b, changes, x0, y0, x1, y1)
    ensures x0 <= x1 && y0 <= y1 && Cost(changes) >= 0
    ensures changes != [] ==> changes[0].OriginalEnd() <= x1 && changes[0].ModifiedEnd() <= y1
    decreases |changes|
  {
    if changes != [] {
      ScriptForward(a, b, changes[1..], changes[0].OriginalEnd(), changes[0].ModifiedEnd(), x1, y1);
    }
  }

  /** The original from `x` on with every change carried out: the elements between the changes are
      taken from the original, the replaced pieces from the modified sequence. */
  ghost function Rebuild<T>(a: seq<T>, b: seq<T>, changes: seq<DiffChange>, x0: int, y0: int,
          x1: int, y1: int): (r: seq<T>)
    requires 0 <= x0 && 0 <= y0 && x1 <= |a| && y1 <= |b|
    requires Script(a, b, changes, x0, y0, x1, y1)
    decreases |changes|
  {
    ScriptForward(a, b, changes, x0, y0, x1, y1);
    if changes == [] then
      a[x0..x1]
    else
      var c := changes[0];
      ScriptForward(a, b, changes[1..], c.OriginalEnd(), c.ModifiedEnd(), x1, y1);
      a[x0..c.originalStart] + b[c.modifiedStart..c.ModifiedEnd()]
      + Rebuild(a, b, changes[1..], c.OriginalEnd(), c.ModifiedEnd(), x1, y1)
  }

  lemma {:induction false} UnchangedSlices<T>(a: seq<T>, b: seq<T>, x0: int, y0: int, x1: int, y1: int)
    requires 0 <= x0 && 0 <= y0 && x1 <= |a| && y1 <= |b|
    requires Unchanged(a, b, x0, y0, x1, y1)
    ensures a[x0..x1] == b[y0..y1]
  {
    forall k | 0 <= k < x1 - x0
      ensures a[x0..x1][k] == b[y0..y1][k]
    {
      assert Kept(a, b, x0 + k, x0 - y0);
    }
  }

  /** Carrying out a script on the original yields the modified sequence. */
  lemma {:induction false} ScriptRebuilds<T>(a: seq<T>, b: seq<T>, changes: seq<DiffChange>, x0: int, y0: int,
          x1: int, y1: int)
    requires 0 <= x0 && 0 <= y0 && x1 <= |a| && y1 <= |b|
    requires Script(a, b, changes, x0, y0, x1, y1)
    ensures y0 <= y1
    ensures Rebuild(a, b, changes, x0, y0, x1, y1) == b[y0..y1]
    decreases |changes|
  {
    ScriptForward(a, b, changes, x0, y0, x1, y1);
    if changes == [] {
      UnchangedSlices(a, b, x0, y0, x1, y1);
    } else {
      var c := changes[0];
      ScriptForward(a, b, changes[1..], c.OriginalEnd(), c.ModifiedEnd(), x1, y1);
      UnchangedSlices(a, b, x0, y0, c.originalStart, c.modifiedStart);
      ScriptRebuilds(a, b, changes[1..], c.OriginalEnd(), c.ModifiedEnd(), x1, y1);
      assert b[y0..c.modifiedStart] + b[c.modifiedStart..c.ModifiedEnd()] + b[c.ModifiedEnd()..y1] == b[y0..y1];
    }
  }

  lemma {:induction false} ScriptIsCorrect<T>(a: seq<T>, b: seq<T>, changes: seq<DiffChange>, x0: int, y0: int,
          x1: int, y1: int)
    requires Script(a, b, changes, x0, y0, x1, y1)
    ensures Correct(a, b, changes, x0, y0, x1, y1)
    decreases |changes|
  {
    if changes != [] {
      ScriptIsCorrect(a, b, changes[1..], changes[0].OriginalEnd(), changes[0].ModifiedEnd(), x1, y1);
    }
  }

  /** No correct change list is cheaper than the edit distance. */
  lemma {:induction false} CorrectCostsDistance<T>(a: seq<T>, b: seq<T>, changes: seq<DiffChange>, x0: nat, y0: nat,
          x1: nat, y1: nat)
    requires Correct(a, b, changes, x0, y0, x1, y1)
    ensures Dist(a, b, x1, y1) <= Dist(a, b, x0, y0) + Cost(changes)
    decreases |changes|
  {
    if changes == [] {
      DistSnake(a, b, x0, y0, x1 - x0);
    } else {
      var c := changes[0];
      DistSnake(a, b, x0, y0, c.originalStart - x0);
      DistFar(a, b, c.originalStart, c.modifiedStart, c.originalLength, c.modifiedLength);
      CorrectCostsDistance(a, b, changes[1..], c.OriginalEnd(), c.ModifiedEnd(), x1, y1);
    }
  }

  // ---- Putting scripts together ----

  lemma {:induction false} UnchangedJoin<T>(a: seq<T>, b: seq<T>, x0: int, y0: int, x1: int, y1: int, x2: int, y2: int)
    requires Unchanged(a, b, x0, y0, x1, y1) && Unchanged(a, b, x1, y1, x2, y2)
    ensures Unchanged(a, b, x0, y0, x2, y2)
  {
    assert x0 - y0 == x1 - y1;
  }

  ghost predicate Apart(left: seq<DiffChange>, right: seq<DiffChange>) {
    left != [] && right != [] ==> left[|left| - 1].OriginalEnd() < right[0].originalStart
  }

  lemma {:induction false} ScriptJoin<T>(a: seq<T>, b: seq<T>, left: seq<DiffChange>, right: seq<DiffChange>,
          x0: int, y0: int, x1: int, y1: int, x2: int, y2: int)
    requires Script(a, b, left, x0, y0, x1, y1) && Script(a, b, right, x1, y1, x2, y2)
    requires Apart(left, right)
    ensures Script(a, b, left + right, x0, y0, x2, y2)
    ensures Cost(left + right) == Cost(left) + Cost(right)
    decreases |left|
  {
    if left == [] {
      assert left + right == right;
      if right == [] {
        UnchangedJoin(a, b, x0, y0, x1, y1, x2, y2);
      } else {
        UnchangedJoin(a, b, x0, y0, x1, y1, right[0].originalStart, right[0].modifiedStart);
      }
    } else {
      var c := left[0];
      ScriptJoin(a, b, left[1..], right, c.OriginalEnd(), c.ModifiedEnd(), x1, y1, x2, y2);
      assert (left + right)[1..] == left[1..] + right;
    }
  }

  /** Taking the last change off a script. */
  lemma {:induction false} ScriptLast<T>(a: seq<T>, b: seq<T>, init: seq<DiffChange>, c: DiffChange, x0: int, y0: int,
          x1: int, y1: int)
    requires Script(a, b, init + [c], x0, y0, x1, y1)
    ensures Script(a, b, init, x0, y0, c.originalStart, c.modifiedStart)
    ensures Apart(init, [c]) && c.Proper()
    ensures Unchanged(a, b, c.OriginalEnd(), c.ModifiedEnd(), x1, y1)
    ensures Cost(init + [c]) == Cost(init) + c.Size()
    decreases |init|
  {
    if init == [] {
      assert init + [c] == [c];
      assert Script(a, b, [c][1..], c.OriginalEnd(), c.ModifiedEnd(), x1, y1);
      assert Unchanged(a, b, c.originalStart, c.modifiedStart, c.originalStart, c.modifiedStart);
    } else {
      var d := init[0];
      assert (init + [c])[1..] == init[1..] + [c];
      ScriptLast(a, b, init[1..], c, d.OriginalEnd(), d.ModifiedEnd(), x1, y1);
    }
  }

  /** Two neighbouring scripts whose inner changes touch: fusing those two changes into one. */
  lemma {:induction false} ScriptFuse<T>(a: seq<T>, b: seq<T>, left: seq<DiffChange>, right: seq<DiffChange>,
          x0: int, y0: int, x1: int, y1: int, x2: int, y2: int, fused: DiffChange)
    requires left != [] && right != []
    requires Script(a, b, left, x0, y0, x1, y1) && Script(a, b, right, x1, y1, x2, y2)
    requires var l, r := left[|left| - 1], right[0];
      && l.OriginalEnd() == r.originalStart && l.ModifiedEnd() == r.modifiedStart
      && fused == DiffChange(l.originalStart, l.originalLength + r.originalLength, l.modifiedStart,
          l.modifiedLength + r.modifiedLength)
    ensures Script(a, b, left[..|left| - 1] + [fused] + right[1..], x0, y0, x2, y2)
    ensures Cost(left[..|left| - 1] + [fused] + right[1..]) == Cost(left) + Cost(right)
  {
    var init, l := left[..|left| - 1], left[|left| - 1];
    assert left == init + [l];
    ScriptLast(a, b, init, l, x0, y0, x1, y1);
    var tail := [fused] + right[1..];
    assert tail[1..] == right[1..];
    assert Script(a, b, tail, l.originalStart, l.modifiedStart, x2, y2);
    ScriptJoin(a, b, init, tail, x0, y0, l.originalStart, l.modifiedStart, x2, y2);
    assert init + tail == init + [fused] + right[1..];
  }

  /** The inner gap of two neighbouring scripts has the same length in both sequences. */
  lemma {:induction false} InnerGap<T>(a: seq<T>, b: seq<T>, left: seq<DiffChange>, right: seq<DiffChange>,
          x0: int, y0: int, x1: int, y1: int, x2: int, y2: int)
    requires left != [] && right != []
    requires Script(a, b, left, x0, y0, x1, y1) && Script(a, b, right, x1, y1, x2, y2)
    ensures var l, r := left[|left| - 1], right[0];
      && l.Proper() && r.Proper()
      && 0 <= r.originalStart - l.OriginalEnd() == r.modifiedStart - l.ModifiedEnd()
  {
    var init, l := left[..|left| - 1], left[|left| - 1];
    assert left == init + [l];
    ScriptLast(a, b, init, l, x0, y0, x1, y1);
  }
}
