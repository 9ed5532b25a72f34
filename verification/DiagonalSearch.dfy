/** One search of the difference algorithm, seen from its own end.

    A vector has one cell for every diagonal that meets the rectangle; cell `i` belongs to diagonal
    `i - |b|` and holds the x coordinate of the furthest point found there.  Round `d` rewrites the
    cells whose diagonal has the parity of `d` and lies within `d` of the main one.  The reverse
    search is the same search on the reversed sequences, with the vector mirrored. */
module DiagonalSearch {
  import opened Sequences

  import opened EditGraph

  /** Clips a diagonal index to the vector, staying on the parity of the round. */
  function ClipDiagonalBound(diagonal: int, numDifferences: int, diagonalBaseIndex: int, numDiagonals: int): int {
    if 0 <= diagonal < numDiagonals then
      diagonal
    else
      var diagonalsBelow := diagonalBaseIndex;
      var diagonalsAbove := numDiagonals - diagonalBaseIndex - 1;
      var diffEven := numDifferences % 2 == 0;
      if diagonal < 0 then
        var lowerBoundEven := diagonalsBelow % 2 == 0;
        if diffEven == lowerBoundEven then 0 else 1
      else
        var upperBoundEven := diagonalsAbove % 2 == 0;
        if diffEven == upperBoundEven then numDiagonals - 1 else numDiagonals - 2
  }

  /** The cells round `d` rewrites in the vector of an n by m rectangle. */
  ghost predicate InRound(n: nat, m: nat, d: int, i: int) {
    0 <= i <= n + m && m - d <= i <= m + d && Even(i - m + d)
  }

  /** The first and the last cell of a round. */
  ghost function Lo(n: nat, m: nat, d: nat): int {
    if d <= m then m - d else if Even(d - m) then 0 else 1
  }

  ghost function Hi(n: nat, m: nat, d: nat): int {
    if d <= n then m + d else if Even(d - n) then n + m else n + m - 1
  }

  lemma {:induction false} EvenDifference(x: nat, y: nat)
    requires x >= y
    ensures Even(x - y) == ((x % 2 == 0) == (y % 2 == 0))
  {
    EvenIsRemainder(x - y);
  }

  /** Clipping yields the first and the last cell of the round, in either search direction. */
  lemma {:induction false} ClipIsBound(n: nat, m: nat, d: nat)
    ensures ClipDiagonalBound(m - d, d, m, n + m + 1) == Lo(n, m, d)
    ensures ClipDiagonalBound(m + d, d, m, n + m + 1) == Hi(n, m, d)
    ensures ClipDiagonalBound(n - d, d, n, n + m + 1) == n + m - Hi(n, m, d)
    ensures ClipDiagonalBound(n + d, d, n, n + m + 1) == n + m - Lo(n, m, d)
  {
    if d > m { EvenDifference(d, m); }
    if d > n { EvenDifference(d, n); }
  }

  /** Clipping returns the nearest cell of the round: both bounds are cells of the round, every
      other cell of the round lies between them, and only the smallest rectangle makes them meet. */
  lemma {:induction false} ClipIsNearest(n: nat, m: nat, d: nat)
    requires n > 0 && m > 0 && d > 0
    ensures InRound(n, m, d, Lo(n, m, d)) && InRound(n, m, d, Hi(n, m, d))
    ensures forall i :: InRound(n, m, d, i) ==> Lo(n, m, d) <= i <= Hi(n, m, d)
    ensures d == 1 || n + m > 2 ==> Lo(n, m, d) < Hi(n, m, d)
    ensures Lo(n, m, d) < n + m && Hi(n, m, d) > 0
  {
    EvenShift(0, d);
    if d > n { EvenShift(d - n, n); }
  }

  /** The cells of a round are every second one between its bounds. */
  lemma {:induction false} EverySecondCell(n: nat, m: nat, d: nat, i: int)
    requires n > 0 && m > 0 && d > 0 && Lo(n, m, d) <= i <= Hi(n, m, d)
    ensures Even(i - m + d) <==> InRound(n, m, d, i)
  {
    ClipIsNearest(n, m, d);
  }

  /** Every neighbour cell that a step of round d reads was written in round d - 1. */
  lemma {:induction false} NeighboursWritten(n: nat, m: nat, d: nat, i: int)
    requires n > 0 && m > 0 && d > 0 && InRound(n, m, d, i)
    ensures i < Hi(n, m, d) || i == Lo(n, m, d) ==> InRound(n, m, d - 1, i + 1)
    ensures i > Lo(n, m, d) || i == Hi(n, m, d) ==> InRound(n, m, d - 1, i - 1)
  {
    EvenStep(i - m + d - 2);
    ClipIsNearest(n, m, d);
  }

  // ---- One step ----

  /** Whether the step to cell `i` inserts (comes from the diagonal above) rather than deletes.  The two
      directions break the tie at a lone cell differently. */
  ghost predicate Inserts(c: seq<int>, i: int, lo: int, hi: int, forward: bool)
    requires 0 <= lo <= i <= hi < |c|
  {
    if forward then i == lo || (i < hi && c[i - 1] < c[i + 1])
    else !(i == hi || (i > lo && c[i + 1] <= c[i - 1]))
  }

  /** Where the step to cell `i` lands, before following equal elements. */
  ghost function Landing(n: nat, m: nat, c: seq<int>, i: int, d: nat, forward: bool): int
    requires n > 0 && m > 0 && d > 0 && |c| == n + m + 1 && InRound(n, m, d, i)
  {
    ClipIsNearest(n, m, d);
    NeighboursWritten(n, m, d, i);
    if Inserts(c, i, Lo(n, m, d), Hi(n, m, d), forward) then c[i + 1] else c[i - 1] + 1
  }

  /** x is what round d stores in cell `i`: the landing point, moved on along equal elements as far
      as they go. */
  ghost predicate Stepped<T>(a: seq<T>, b: seq<T>, before: seq<int>, i: int, d: nat, forward: bool, x: int) {
    && |a| > 0 && |b| > 0 && d > 0 && |before| == |a| + |b| + 1 && InRound(|a|, |b|, d, i)
    && Landing(|a|, |b|, before, i, d, forward) <= x
    && Snake(a, b, Landing(|a|, |b|, before, i, d, forward), x, i - |b|)
    && !Kept(a, b, x, i - |b|)
  }

  /** Round d leaves all other cells alone. */
  ghost predicate Untouched(n: nat, m: nat, before: seq<int>, after: seq<int>, d: nat) {
    && |before| == |after| == n + m + 1
    && forall i :: 0 <= i < |after| && !InRound(n, m, d, i) ==> after[i] == before[i]
  }

  /** Round d turned the vector `before` into `after`. */
  ghost predicate RoundDone<T>(a: seq<T>, b: seq<T>, before: seq<int>, after: seq<int>, d: nat, forward: bool) {
    && |before| == |after| == |a| + |b| + 1
    && (forall i :: InRound(|a|, |b|, d, i) ==> Stepped(a, b, before, i, d, forward, after[i]))
    && Untouched(|a|, |b|, before, after, d)
  }

  // ---- What the cells mean ----

  /** Cell `i` holds a point that d edits suffice to reach. */
  ghost predicate Reached<T>(a: seq<T>, b: seq<T>, c: seq<int>, i: int, d: nat) {
    && 0 <= i < |c| && 0 <= c[i] && 0 <= c[i] - (i - |b|)
    && Dist(a, b, c[i], c[i] - (i - |b|)) <= d
  }

  ghost predicate AllReached<T>(a: seq<T>, b: seq<T>, c: seq<int>, d: nat) {
    |c| == |a| + |b| + 1 && forall i :: InRound(|a|, |b|, d, i) ==> Reached(a, b, c, i, d)
  }

  /** No point of the rectangle that d edits reach lies beyond the cell of its diagonal. */
  ghost predicate Furthest<T>(a: seq<T>, b: seq<T>, c: seq<int>, d: nat) {
    && |c| == |a| + |b| + 1
    && forall x: nat, y: nat :: x <= |a| && y <= |b| && Dist(a, b, x, y) <= d && Even(x - y + d) ==> x <= c[x - y + |b|]
  }

  /** A step comes from a cell of the previous round. */
  lemma {:induction false} LandingFrom(n: nat, m: nat, c: seq<int>, i: int, d: nat, forward: bool) returns (from: int)
    requires n > 0 && m > 0 && d > 0 && |c| == n + m + 1 && InRound(n, m, d, i)
    ensures InRound(n, m, d - 1, from)
    ensures (from == i + 1 && Landing(n, m, c, i, d, forward) == c[from])
         || (from == i - 1 && Landing(n, m, c, i, d, forward) == c[from] + 1)
  {
    ClipIsNearest(n, m, d);
    NeighboursWritten(n, m, d, i);
    from := if Inserts(c, i, Lo(n, m, d), Hi(n, m, d), forward) then i + 1 else i - 1;
  }

  lemma {:induction false} LandingReached<T>(a: seq<T>, b: seq<T>, before: seq<int>, i: int, d: nat, forward: bool)
    requires |a| > 0 && |b| > 0 && d > 0 && InRound(|a|, |b|, d, i)
    requires AllReached(a, b, before, d - 1)
    ensures var t := Landing(|a|, |b|, before, i, d, forward);
      0 <= t && 0 <= t - (i - |b|) && Dist(a, b, t, t - (i - |b|)) <= d
  {
    hide Landing, Dist;
    var from := LandingFrom(|a|, |b|, before, i, d, forward);
    assert Reached(a, b, before, from, d - 1);
    DistNeighbours(a, b, before[from], before[from] - (from - |b|));
  }

  lemma {:induction false} NotFarOutside<T>(a: seq<T>, b: seq<T>, x: nat, y: nat)
    ensures x <= |a| + Dist(a, b, x, y) && y <= |b| + Dist(a, b, x, y)
  {
    if x > |a| { DistBeyondRight(a, b, x - |a|, y); }
    if y > |b| { DistBeyondBottom(a, b, x, y - |b|); }
  }

  lemma {:induction false} StepReached<T>(a: seq<T>, b: seq<T>, before: seq<int>, i: int, d: nat, forward: bool, x: int)
    requires |a| > 0 && |b| > 0 && d > 0 && InRound(|a|, |b|, d, i)
    requires AllReached(a, b, before, d - 1)
    requires Landing(|a|, |b|, before, i, d, forward) <= x
    requires Snake(a, b, Landing(|a|, |b|, before, i, d, forward), x, i - |b|)
    ensures 0 <= x && 0 <= x - (i - |b|)
    ensures Dist(a, b, x, x - (i - |b|)) <= d
    ensures x <= |a| + d && x - (i - |b|) <= |b| + d
  {
    hide ClipDiagonalBound;
    LandingReached(a, b, before, i, d, forward);
    var t := Landing(|a|, |b|, before, i, d, forward);
    DistSnake(a, b, t, t - (i - |b|), x - t);
    NotFarOutside(a, b, x, x - (i - |b|));
  }

  /** The clipped bounds lose nothing: at the ends of the range the one neighbour that is read is at
      least as far as the one that is not. */
  lemma {:induction false} LandingCoversDeletion<T>(a: seq<T>, b: seq<T>, before: seq<int>, i: int, d: nat,
          forward: bool, u: nat, v: nat)
    requires |a| > 0 && |b| > 0 && d > 0 && InRound(|a|, |b|, d, i)
    requires Furthest(a, b, before, d - 1)
    requires u <= |a| && v <= |b| && Dist(a, b, u, v) <= d - 1 && u - v == i - |b| - 1
    ensures u + 1 <= Landing(|a|, |b|, before, i, d, forward)
  {
    var m := |b|;
    ClipIsNearest(|a|, m, d);
    DistBounds(a, b, u, v);
    EvenStep(i - m + d - 2);
    assert u <= before[u - v + m];
    if i == Lo(|a|, m, d) {
      assert u == 0 && v == m && i == 1;
      DistBounds(a, b, 1, m - 1);
      assert 1 <= before[1 - (m - 1) + m];
    }
  }

  lemma {:induction false} LandingCoversInsertion<T>(a: seq<T>, b: seq<T>, before: seq<int>, i: int, d: nat,
          forward: bool, u: nat, v: nat)
    requires |a| > 0 && |b| > 0 && d > 0 && InRound(|a|, |b|, d, i)
    requires Furthest(a, b, before, d - 1)
    requires u <= |a| && v <= |b| && Dist(a, b, u, v) <= d - 1 && u - v == i - |b| + 1
    ensures u <= Landing(|a|, |b|, before, i, d, forward)
  {
    var n, m := |a|, |b|;
    ClipIsNearest(n, m, d);
    DistBounds(a, b, u, v);
    assert u <= before[u - v + m];
    if i == Hi(n, m, d) {
      assert u == n && v == 0 && i == n + m - 1;
      DistBounds(a, b, n - 1, 1);
      EvenStep(n + d - 3);
      assert n - 1 <= before[(n - 1) - 1 + m];
    }
  }

  lemma {:induction false} StepFurthest<T>(a: seq<T>, b: seq<T>, before: seq<int>, i: int, d: nat, forward: bool,
          x: int, u: nat, v: nat)
    requires Stepped(a, b, before, i, d, forward, x)
    requires AllReached(a, b, before, d - 1) && Furthest(a, b, before, d - 1)
    requires u <= |a| && v <= |b| && u - v == i - |b| && Dist(a, b, u, v) <= d
    ensures u <= x
    decreases u
  {
    StepReached(a, b, before, i, d, forward, x);
    if u > 0 && v > 0 {
      if Match(a, b, u - 1, v - 1) {
        StepFurthest(a, b, before, i, d, forward, x, u - 1, v - 1);
        assert Kept(a, b, u - 1, i - |b|);
      } else if Dist(a, b, u, v) == 1 + Dist(a, b, u - 1, v) {
        LandingCoversDeletion(a, b, before, i, d, forward, u - 1, v);
      } else {
        LandingCoversInsertion(a, b, before, i, d, forward, u, v - 1);
      }
    }
  }

  /** What every round keeps: after round d each cell of the round holds the furthest point of its
      diagonal that d edits reach. */
  lemma {:induction false} RoundKeepsMeaning<T>(a: seq<T>, b: seq<T>, before: seq<int>, after: seq<int>, d: nat,
          forward: bool)
    requires |a| > 0 && |b| > 0 && d > 0
    requires RoundDone(a, b, before, after, d, forward)
    requires AllReached(a, b, before, d - 1) && Furthest(a, b, before, d - 1)
    ensures AllReached(a, b, after, d) && Furthest(a, b, after, d)
  {
    forall i | InRound(|a|, |b|, d, i)
      ensures Reached(a, b, after, i, d)
    {
      StepReached(a, b, before, i, d, forward, after[i]);
    }
    forall u: nat, v: nat | u <= |a| && v <= |b| && Dist(a, b, u, v) <= d && Even(u - v + d)
      ensures u <= after[u - v + |b|]
    {
      DistBounds(a, b, u, v);
      StepFurthest(a, b, before, u - v + |b|, d, forward, after[u - v + |b|], u, v);
    }
  }

  /** The vector before the first round: just the start point, which no equal pair leaves. */
  lemma {:induction false} StartMeaning<T>(a: seq<T>, b: seq<T>, c: seq<int>)
    requires |a| > 0 && |b| > 0 && a[0] != b[0]
    requires |c| == |a| + |b| + 1 && c[|b|] == 0
    ensures AllReached(a, b, c, 0) && Furthest(a, b, c, 0)
  {
    forall x: nat, y: nat | x <= |a| && y <= |b| && Dist(a, b, x, y) <= 0
      ensures x == y == 0
    {
      DistZero(a, b, x, y);
      assert !Kept(a, b, 0, 0);
    }
  }

  // ---- The two searches together ----

  /** On the diagonal of forward cell i, the forward point has met or passed the reverse point. */
  ghost predicate Meets(n: nat, m: nat, f: seq<int>, r: seq<int>, i: int)
    requires |f| == |r| == n + m + 1 && 0 <= i <= n + m
  {
    f[i] >= n - r[n + m - i]
  }

  /** Completeness of the overlap test: if the distance is d + e, then the search vectors of round d
      forward and round e backward meet on a diagonal of both rounds. */
  lemma {:induction false} SearchesMeet<T>(a: seq<T>, b: seq<T>, f: seq<int>, r: seq<int>, d: nat, e: nat)
    returns (i: int)
    requires Furthest(a, b, f, d) && Furthest(Rev(a), Rev(b), r, e)
    requires Distance(a, b) == d + e
    ensures InRound(|a|, |b|, d, i) && InRound(|a|, |b|, e, |a| + |b| - i)
    ensures Meets(|a|, |b|, f, r, i)
  {
    var x, y := MiddlePoint(a, b, d);
    DistBounds(a, b, x, y);
    DistBounds(Rev(a), Rev(b), |a| - x, |b| - y);
    i := x - y + |b|;
    assert (|a| - x) - (|b| - y) + |b| == |a| + |b| - i;
  }

  /** The point of column x on a diagonal lies in the rectangle, d edits after the start and e edits
      before the end of a shortest path. */
  ghost predicate OnShortest<T>(a: seq<T>, b: seq<T>, x: int, diagonal: int, d: nat, e: nat) {
    && 0 <= x <= |a| && 0 <= x - diagonal <= |b|
    && Dist(a, b, x, x - diagonal) == d && RDist(a, b, x, x - diagonal) == e
    && Distance(a, b) == d + e
  }

  /** Soundness of the overlap test: where the vectors meet, and no shorter path exists, both points
      lie on a shortest path. */
  lemma {:induction false} MeetingPoint<T>(a: seq<T>, b: seq<T>, f: seq<int>, r: seq<int>, d: nat, e: nat, i: int)
    requires |f| == |r| == |a| + |b| + 1 && 0 <= i <= |a| + |b|
    requires Reached(a, b, f, i, d) && Reached(Rev(a), Rev(b), r, |a| + |b| - i, e)
    requires Meets(|a|, |b|, f, r, i)
    requires Distance(a, b) >= d + e
    ensures Distance(a, b) == d + e
    ensures OnShortest(a, b, f[i], i - |b|, d, e)
    ensures OnShortest(a, b, |a| - r[|a| + |b| - i], i - |b|, d, e)
  {
    var qx := |a| - r[|a| + |b| - i];
    Overlap(a, b, f[i], f[i] - (i - |b|), qx, qx - (i - |b|), d, e);
  }
}
