/** The change list under construction: DiffChangeHelper of copilot-fork/src/util/common/diff.ts. */
module DiffChanges {
  import opened Sequences

  import opened EditGraph
  import opened EditScript

  const MAX_SAFE_SMALL_INTEGER := 0x4000_0000
  const MIN_SAFE_SMALL_INTEGER := -0x4000_0000

  /** The changes of a helper whose open change has the given start and counts, possibly none. */
  ghost function Collect(closed: seq<DiffChange>, x: int, xs: int, y: int, ys: int): seq<DiffChange> {
    if xs > 0 || ys > 0 then closed + [DiffChange(x, xs, y, ys)] else closed
  }

  /** Collects single edits and joins those that follow each other into one change. */
  class DiffChangeHelper {
    var m_changes: seq<DiffChange>
    var m_originalStart: int
    var m_modifiedStart: int
    var m_originalCount: int
    var m_modifiedCount: int

    constructor ()
      ensures m_changes == [] && m_originalCount == m_modifiedCount == 0
      ensures m_originalStart == m_modifiedStart == MAX_SAFE_SMALL_INTEGER
    {
      m_changes := [];
      m_originalStart, m_modifiedStart := MAX_SAFE_SMALL_INTEGER, MAX_SAFE_SMALL_INTEGER;
      m_originalCount, m_modifiedCount := 0, 0;
    }

    method MarkNextChange()
      modifies this
      ensures m_changes == old(Collect(m_changes, m_originalStart, m_originalCount, m_modifiedStart, m_modifiedCount))
      ensures m_originalCount == m_modifiedCount == 0
      ensures m_originalStart == m_modifiedStart == MAX_SAFE_SMALL_INTEGER
    {
      if m_originalCount > 0 || m_modifiedCount > 0 {
        m_changes := m_changes + [DiffChange(m_originalStart, m_originalCount, m_modifiedStart, m_modifiedCount)];
      }
      m_originalCount, m_modifiedCount := 0, 0;
      m_originalStart, m_modifiedStart := MAX_SAFE_SMALL_INTEGER, MAX_SAFE_SMALL_INTEGER;
    }

    method AddOriginalElement(originalIndex: int, modifiedIndex: int)
      modifies this
      ensures m_changes == old(m_changes)
      ensures m_originalStart == Min(old(m_originalStart), originalIndex)
      ensures m_modifiedStart == Min(old(m_modifiedStart), modifiedIndex)
      ensures m_originalCount == old(m_originalCount) + 1 && m_modifiedCount == old(m_modifiedCount)
    {
      m_originalStart := Min(m_originalStart, originalIndex);
      m_modifiedStart := Min(m_modifiedStart, modifiedIndex);
      m_originalCount := m_originalCount + 1;
    }

    method AddModifiedElement(originalIndex: int, modifiedIndex: int)
      modifies this
      ensures m_changes == old(m_changes)
      ensures m_originalStart == Min(old(m_originalStart), originalIndex)
      ensures m_modifiedStart == Min(old(m_modifiedStart), modifiedIndex)
      ensures m_originalCount == old(m_originalCount) && m_modifiedCount == old(m_modifiedCount) + 1
    {
      m_originalStart := Min(m_originalStart, originalIndex);
      m_modifiedStart := Min(m_modifiedStart, modifiedIndex);
      m_modifiedCount := m_modifiedCount + 1;
    }

    method GetChanges() returns (changes: seq<DiffChange>)
      modifies this
      ensures changes == old(Collect(m_changes, m_originalStart, m_originalCount, m_modifiedStart, m_modifiedCount))
    {
      if m_originalCount > 0 || m_modifiedCount > 0 {
        MarkNextChange();
      }
      changes := m_changes;
    }

    method GetReverseChanges() returns (changes: seq<DiffChange>)
      modifies this
      ensures changes
          == Rev(old(Collect(m_changes, m_originalStart, m_originalCount, m_modifiedStart, m_modifiedCount)))
    {
      if m_originalCount > 0 || m_modifiedCount > 0 {
        MarkNextChange();
      }
      m_changes := Rev(m_changes);
      changes := m_changes;
    }
  }

  // ---- Walking towards the start: edits are added in front ----

  lemma {:induction false} RevSnoc<T>(s: seq<T>, x: T)
    ensures Rev(s + [x]) == [x] + Rev(s)
  {
  }

  /** A change that ends before the first change of `rest`. */
  lemma {:induction false} PrependChange<T>(a: seq<T>, b: seq<T>, e: DiffChange, rest: seq<DiffChange>,
          px: int, py: int, x1: int, y1: int)
    requires e.Proper() && Unchanged(a, b, e.OriginalEnd(), e.ModifiedEnd(), px, py)
    requires Script(a, b, rest, px, py, x1, y1)
    requires e.OriginalEnd() < px || rest == []
    ensures Script(a, b, [e] + rest, e.originalStart, e.modifiedStart, x1, y1)
    ensures Cost([e] + rest) == e.Size() + Cost(rest)
  {
    assert [e][1..] == [];
    assert Script(a, b, [e], e.originalStart, e.modifiedStart, px, py);
    ScriptJoin(a, b, [e], rest, e.originalStart, e.modifiedStart, px, py, x1, y1);
  }

  /** A change that ends where the first change of `rest` starts. */
  lemma {:induction false} ExtendChange<T>(a: seq<T>, b: seq<T>, e: DiffChange, first: DiffChange,
          rest: seq<DiffChange>, fused: DiffChange, x1: int, y1: int)
    requires e.Proper() && e.OriginalEnd() == first.originalStart && e.ModifiedEnd() == first.modifiedStart
    requires Script(a, b, [first] + rest, first.originalStart, first.modifiedStart, x1, y1)
    requires fused == DiffChange(e.originalStart, e.originalLength + first.originalLength, e.modifiedStart,
        e.modifiedLength + first.modifiedLength)
    ensures Script(a, b, [fused] + rest, e.originalStart, e.modifiedStart, x1, y1)
    ensures Cost([fused] + rest) == e.Size() + Cost([first] + rest)
  {
    assert [e][1..] == [];
    assert Script(a, b, [e], e.originalStart, e.modifiedStart, first.originalStart, first.modifiedStart);
    ScriptFuse(a, b, [e], [first] + rest, e.originalStart, e.modifiedStart, first.originalStart, first.modifiedStart,
        x1, y1, fused);
    assert [e][..0] + [fused] + ([first] + rest)[1..] == [fused] + rest;
  }

  /** What the walk from the meeting point back to the start has collected so far: a script from
      (px, py) on, whose first change is still open. */
  ghost predicate CollectedBackward<T>(a: seq<T>, b: seq<T>, closed: seq<DiffChange>, x: int, xs: int, y: int, ys: int,
          px: int, py: int, x1: int, y1: int, cost: int)
  {
    var changes := Rev(Collect(closed, x, xs, y, ys));
    && xs >= 0 && ys >= 0
    && Script(a, b, changes, px, py, x1, y1) && Cost(changes) == cost
    && if xs + ys > 0 then x == px && y == py else closed == [] && x == y == MAX_SAFE_SMALL_INTEGER
  }

  lemma {:induction false} NothingCollected<T>(a: seq<T>, b: seq<T>, x: int, y: int)
    ensures CollectedBackward(a, b, [], MAX_SAFE_SMALL_INTEGER, 0, MAX_SAFE_SMALL_INTEGER, 0, x, y, x, y, 0)
    ensures CollectedForward(a, b, [], MAX_SAFE_SMALL_INTEGER, 0, MAX_SAFE_SMALL_INTEGER, 0, x, y, x, y, 0)
  {
  }

  lemma {:induction false} AllCollectedBackward<T>(a: seq<T>, b: seq<T>, closed: seq<DiffChange>,
          x: int, xs: int, y: int, ys: int, px: int, py: int, x1: int, y1: int, cost: int)
    requires CollectedBackward(a, b, closed, x, xs, y, ys, px, py, x1, y1, cost)
    ensures Script(a, b, Rev(Collect(closed, x, xs, y, ys)), px, py, x1, y1)
        && Cost(Rev(Collect(closed, x, xs, y, ys))) == cost
  {
  }

  lemma {:induction false} AllCollectedForward<T>(a: seq<T>, b: seq<T>, closed: seq<DiffChange>,
          x: int, xs: int, y: int, ys: int, x0: int, y0: int, px: int, py: int, cost: int)
    requires CollectedForward(a, b, closed, x, xs, y, ys, x0, y0, px, py, cost)
    ensures Script(a, b, Collect(closed, x, xs, y, ys), x0, y0, px, py) && Cost(Collect(closed, x, xs, y, ys)) == cost
  {
  }

  /** The helper after adding the edit `e`, which first closed the open change if `marked`. */
  ghost predicate Added(closed: seq<DiffChange>, x: int, xs: int, y: int, ys: int, e: Edit, marked: bool,
          closed': seq<DiffChange>, x': int, xs': int, y': int, ys': int)
  {
    && closed' == (if marked then Collect(closed, x, xs, y, ys) else closed)
    && x' == Min(if marked then MAX_SAFE_SMALL_INTEGER else x, e.x)
    && y' == Min(if marked then MAX_SAFE_SMALL_INTEGER else y, e.y)
    && xs' == (if marked then 0 else xs) + (e.EndX() - e.x)
    && ys' == (if marked then 0 else ys) + (e.EndY() - e.y)
  }

  /** The effect of adding the edit `e` in front, after closing the open change if the edit does not
      touch it. */
  lemma {:induction false} CollectBackward<T>(a: seq<T>, b: seq<T>, closed: seq<DiffChange>, x: int, xs: int, y: int,
          ys: int, e: Edit, marked: bool, closed': seq<DiffChange>, x': int, xs': int, y': int, ys': int,
          px: int, py: int, x1: int, y1: int, cost: int)
    requires CollectedBackward(a, b, closed, x, xs, y, ys, px, py, x1, y1, cost)
    requires Added(closed, x, xs, y, ys, e, marked, closed', x', xs', y', ys')
    requires xs + ys > 0 ==> marked == (e.EndX() < px)
    requires Unchanged(a, b, e.EndX(), e.EndY(), px, py)
    requires e.x <= MAX_SAFE_SMALL_INTEGER && e.y <= MAX_SAFE_SMALL_INTEGER
    ensures CollectedBackward(a, b, closed', x', xs', y', ys', e.x, e.y, x1, y1, cost + 1)
    ensures xs' + ys' > 0
  {
    hide Snake, Script, Cost;
    var change := DiffChange(x', xs', y', ys');
    RevSnoc(closed', change);
    if xs + ys > 0 && !marked {
      RevSnoc(closed, DiffChange(x, xs, y, ys));
      ExtendChange(a, b, e.AsChange(), DiffChange(x, xs, y, ys), Rev(closed), change, x1, y1);
    } else {
      PrependChange(a, b, e.AsChange(), Rev(Collect(closed, x, xs, y, ys)), px, py, x1, y1);
    }
  }

  // ---- Walking towards the end: edits are added behind ----

  /** What the walk from the meeting point to the end has collected so far: a script from (x0, y0) to
      (px, py), whose last change is still open. */
  ghost predicate CollectedForward<T>(a: seq<T>, b: seq<T>, closed: seq<DiffChange>, x: int, xs: int, y: int, ys: int,
          x0: int, y0: int, px: int, py: int, cost: int)
  {
    var changes := Collect(closed, x, xs, y, ys);
    && xs >= 0 && ys >= 0
    && Script(a, b, changes, x0, y0, px, py) && Cost(changes) == cost
    && if xs + ys > 0 then x + xs == px && y + ys == py else closed == [] && x == y == MAX_SAFE_SMALL_INTEGER
  }

  lemma {:induction false} SingleChange<T>(a: seq<T>, b: seq<T>, e: DiffChange, x: int, y: int)
    requires e.Proper() && Unchanged(a, b, x, y, e.originalStart, e.modifiedStart)
    ensures Script(a, b, [e], x, y, e.OriginalEnd(), e.ModifiedEnd()) && Cost([e]) == e.Size()
  {
    assert [e][1..] == [];
  }

  /** The effect of adding the edit `e` behind, after closing the open change if the edit does not
      touch it. */
  lemma {:induction false} CollectForward<T>(a: seq<T>, b: seq<T>, closed: seq<DiffChange>,
          x: int, xs: int, y: int, ys: int, e: Edit, marked: bool, closed': seq<DiffChange>,
          x': int, xs': int, y': int, ys': int, x0: int, y0: int, px: int, py: int, cost: int)
    requires CollectedForward(a, b, closed, x, xs, y, ys, x0, y0, px, py, cost)
    requires Added(closed, x, xs, y, ys, e, marked, closed', x', xs', y', ys')
    requires xs + ys > 0 ==> marked == (px < e.x)
    requires Unchanged(a, b, px, py, e.x, e.y)
    requires e.x <= MAX_SAFE_SMALL_INTEGER && e.y <= MAX_SAFE_SMALL_INTEGER
    ensures CollectedForward(a, b, closed', x', xs', y', ys', x0, y0, e.EndX(), e.EndY(), cost + 1)
    ensures xs' + ys' > 0
  {
    hide Snake, Script, Cost;
    if xs + ys > 0 && !marked {
      CollectTouching(a, b, closed, x, xs, y, ys, e.AsChange(), x0, y0, px, py, cost);
    } else {
      CollectApart(a, b, closed, x, xs, y, ys, e.AsChange(), x0, y0, px, py, cost);
    }
  }

  lemma {:induction false} CollectTouching<T>(a: seq<T>, b: seq<T>, closed: seq<DiffChange>, x: int, xs: int, y: int,
          ys: int, e: DiffChange, x0: int, y0: int, px: int, py: int, cost: int)
    requires CollectedForward(a, b, closed, x, xs, y, ys, x0, y0, px, py, cost) && xs + ys > 0
    requires e.Proper() && e.originalStart == px && e.modifiedStart == py
    ensures CollectedForward(a, b, closed, x, xs + e.originalLength, y, ys + e.modifiedLength, x0, y0, e.OriginalEnd(),
        e.ModifiedEnd(), cost + e.Size())
  {
    SingleChange(a, b, e, px, py);
    AppendTouching(a, b, closed, DiffChange(x, xs, y, ys), e, x0, y0, px, py);
  }

  lemma {:induction false} CollectApart<T>(a: seq<T>, b: seq<T>, closed: seq<DiffChange>,
          x: int, xs: int, y: int, ys: int, e: DiffChange, x0: int, y0: int, px: int, py: int, cost: int)
    requires CollectedForward(a, b, closed, x, xs, y, ys, x0, y0, px, py, cost)
    requires xs + ys <= 0 || px < e.originalStart
    requires e.Proper() && Unchanged(a, b, px, py, e.originalStart, e.modifiedStart)
    ensures CollectedForward(a, b, Collect(closed, x, xs, y, ys), e.originalStart, e.originalLength, e.modifiedStart,
        e.modifiedLength, x0, y0, e.OriginalEnd(), e.ModifiedEnd(), cost + e.Size())
  {
    SingleChange(a, b, e, px, py);
    AppendApart(a, b, Collect(closed, x, xs, y, ys), e, x0, y0, px, py);
  }

  lemma {:induction false} AppendTouching<T>(a: seq<T>, b: seq<T>, closed: seq<DiffChange>,
          last: DiffChange, e: DiffChange, x0: int, y0: int, px: int, py: int)
    requires Script(a, b, closed + [last], x0, y0, px, py)
    requires Script(a, b, [e], px, py, e.OriginalEnd(), e.ModifiedEnd())
    requires last.OriginalEnd() == e.originalStart && last.ModifiedEnd() == e.modifiedStart
    ensures var fused := DiffChange(last.originalStart, last.originalLength + e.originalLength, last.modifiedStart,
        last.modifiedLength + e.modifiedLength);
      && Script(a, b, closed + [fused], x0, y0, e.OriginalEnd(), e.ModifiedEnd())
      && Cost(closed + [fused]) == Cost(closed + [last]) + Cost([e])
  {
    hide Script, Cost;
    var fused := DiffChange(last.originalStart, last.originalLength + e.originalLength, last.modifiedStart,
        last.modifiedLength + e.modifiedLength);
    var before := closed + [last];
    ScriptFuse(a, b, before, [e], x0, y0, px, py, e.OriginalEnd(), e.ModifiedEnd(), fused);
    assert before[..|before| - 1] + [fused] + [e][1..] == closed + [fused];
  }

  lemma {:induction false} AppendApart<T>(a: seq<T>, b: seq<T>, before: seq<DiffChange>, e: DiffChange,
          x0: int, y0: int, px: int, py: int)
    requires Script(a, b, before, x0, y0, px, py) && Script(a, b, [e], px, py, e.OriginalEnd(), e.ModifiedEnd())
    requires before != [] ==> before[|before| - 1].OriginalEnd() < e.originalStart
    ensures Script(a, b, before + [e], x0, y0, e.OriginalEnd(), e.ModifiedEnd())
    ensures Cost(before + [e]) == Cost(before) + Cost([e])
  {
    ScriptJoin(a, b, before, [e], x0, y0, px, py, e.OriginalEnd(), e.ModifiedEnd());
  }
}
