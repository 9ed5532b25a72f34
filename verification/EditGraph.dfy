/** The edit graph of two sequences, on which the difference algorithm searches.

    A point (x, y) means "x elements of `a` and y elements of `b` are consumed".  A horizontal
    edge deletes an element of `a`, a vertical edge inserts an element of `b`, and a diagonal edge
    keeps a pair of equal elements.  The grid is unbounded: beyond the end of either sequence
    there are no diagonal edges, but the search may still step there. */
module EditGraph {
  import opened Sequences

  ghost predicate Match<T>(a: seq<T>, b: seq<T>, x: int, y: int) {
    0 <= x < |a| && 0 <= y < |b| && a[x] == b[y]
  }

  function Min(x: int, y: int): int {
    if x <= y then x else y
  }

  /** The number of insertions and deletions a shortest path from (0, 0) to (x, y) needs. */
  ghost function Dist<T>(a: seq<T>, b: seq<T>, x: nat, y: nat): nat
    decreases x + y
  {
    if x == 0 then y
    else if y == 0 then x
    else if Match(a, b, x - 1, y - 1) then Dist(a, b, x - 1, y - 1)
    else 1 + Min(Dist(a, b, x - 1, y), Dist(a, b, x, y - 1))
  }

  /** The edit distance of two whole sequences. */
  ghost function Distance<T>(a: seq<T>, b: seq<T>): nat {
    Dist(a, b, |a|, |b|)
  }

  /** Parity, defined by counting so that proofs about rounds need no division. */
  ghost predicate Even(x: int)
    decreases if x < 0 then -x else x
  {
    if x == 0 then true else if x > 0 then !Even(x - 1) else !Even(x + 1)
  }

  lemma {:induction false} EvenStep(x: int)
    ensures Even(x + 1) == !Even(x) && Even(x + 2) == Even(x)
  {
  }

  lemma {:induction false} EvenShift(x: nat, k: nat)
    ensures Even(x + k + k) == Even(x)
  {
    if k > 0 { EvenShift(x, k - 1); }
  }

  lemma {:induction false} EvenIsRemainder(x: int)
    ensures Even(x) == (x % 2 == 0)
    decreases if x < 0 then -x else x
  {
    if x > 0 { EvenIsRemainder(x - 1); } else if x < 0 { EvenIsRemainder(x + 1); }
  }

  function Abs(x: int): nat {
    if x < 0 then -x else x
  }

  lemma {:induction false} DistBounds<T>(a: seq<T>, b: seq<T>, x: nat, y: nat)
    ensures Abs(x - y) <= Dist(a, b, x, y) <= x + y
    ensures Even(x - y + Dist(a, b, x, y))
    decreases x + y
  {
    if x == 0 || y == 0 {
      EvenShift(0, x);
    } else if Match(a, b, x - 1, y - 1) {
      DistBounds(a, b, x - 1, y - 1);
    } else {
      DistBounds(a, b, x - 1, y);
      DistBounds(a, b, x, y - 1);
    }
  }

  /** One step along either axis changes the distance by at most one. */
  lemma {:induction false} DistNeighbours<T>(a: seq<T>, b: seq<T>, x: nat, y: nat)
    ensures Dist(a, b, x + 1, y) <= Dist(a, b, x, y) + 1
    ensures Dist(a, b, x, y) <= Dist(a, b, x + 1, y) + 1
    ensures Dist(a, b, x, y + 1) <= Dist(a, b, x, y) + 1
    ensures Dist(a, b, x, y) <= Dist(a, b, x, y + 1) + 1
    decreases x + y
  {
    if y > 0 { DistNeighbours(a, b, x, y - 1); }
    if x > 0 { DistNeighbours(a, b, x - 1, y); }
  }

  /** Distances never decrease along a diagonal. */
  lemma {:induction false} DistDiagonal<T>(a: seq<T>, b: seq<T>, x: nat, y: nat)
    ensures Dist(a, b, x, y) <= Dist(a, b, x + 1, y + 1)
  {
    DistNeighbours(a, b, x, y);
    DistNeighbours(a, b, x + 1, y);
    DistNeighbours(a, b, x, y + 1);
  }

  lemma {:induction false} DistDiagonals<T>(a: seq<T>, b: seq<T>, x: nat, y: nat, n: nat)
    ensures Dist(a, b, x, y) <= Dist(a, b, x + n, y + n)
  {
    if n > 0 {
      DistDiagonals(a, b, x, y, n - 1);
      DistDiagonal(a, b, x + n - 1, y + n - 1);
    }
  }

  /** There is a diagonal edge leaving column k on the given diagonal (x minus y). */
  ghost predicate Kept<T>(a: seq<T>, b: seq<T>, k: int, diagonal: int) {
    Match(a, b, k, k - diagonal)
  }

  /** Equal pairs in a row: the diagonal edges a path can follow for free from column `from` to
      column `to`. */
  ghost predicate Snake<T>(a: seq<T>, b: seq<T>, from: int, to: int, diagonal: int) {
    forall k :: from <= k < to ==> Kept(a, b, k, diagonal)
  }

  lemma {:induction false} DistSnake<T>(a: seq<T>, b: seq<T>, x: nat, y: nat, n: nat)
    requires Snake(a, b, x, x + n, x - y)
    ensures Dist(a, b, x + n, y + n) == Dist(a, b, x, y)
  {
    if n > 0 {
      DistSnake(a, b, x, y, n - 1);
      assert Kept(a, b, x + n - 1, x - y);
    }
  }

  lemma {:induction false} DistFar<T>(a: seq<T>, b: seq<T>, x: nat, y: nat, dx: nat, dy: nat)
    ensures Dist(a, b, x + dx, y + dy) <= Dist(a, b, x, y) + dx + dy
    decreases dx + dy
  {
    if dx > 0 {
      DistFar(a, b, x, y, dx - 1, dy);
      DistNeighbours(a, b, x + dx - 1, y + dy);
    } else if dy > 0 {
      DistFar(a, b, x, y, dx, dy - 1);
      DistNeighbours(a, b, x + dx, y + dy - 1);
    }
  }

  /** Beyond the end of a sequence every step costs one. */
  lemma {:induction false} DistBeyondRight<T>(a: seq<T>, b: seq<T>, n: nat, y: nat)
    ensures Dist(a, b, |a| + n, y) == Dist(a, b, |a|, y) + n
    decreases n, y
  {
    if n > 0 {
      DistBeyondRight(a, b, n - 1, y);
      if y > 0 {
        DistBeyondRight(a, b, n, y - 1);
        DistBeyondRight(a, b, n - 1, y - 1);
        DistNeighbours(a, b, |a| + n - 1, y - 1);
      }
    }
  }

  lemma {:induction false} DistBeyondBottom<T>(a: seq<T>, b: seq<T>, x: nat, n: nat)
    ensures Dist(a, b, x, |b| + n) == Dist(a, b, x, |b|) + n
    decreases n, x
  {
    if n > 0 {
      DistBeyondBottom(a, b, x, n - 1);
      if x > 0 {
        DistBeyondBottom(a, b, x - 1, n);
        DistBeyondBottom(a, b, x - 1, n - 1);
        DistNeighbours(a, b, x - 1, |b| + n - 1);
      }
    }
  }

  /** Distance zero means the two prefixes are equal. */
  lemma {:induction false} DistZero<T>(a: seq<T>, b: seq<T>, x: nat, y: nat)
    requires Dist(a, b, x, y) == 0
    ensures x == y && Snake(a, b, 0, x, 0)
    decreases x + y
  {
    if x > 0 && y > 0 {
      DistZero(a, b, x - 1, y - 1);
    }
  }

  /** Two non-empty ranges whose first elements differ and whose last elements differ are at least
      two edits apart; this is what trimming common ends guarantees to the search. */
  lemma {:induction false} TrimmedDistance<T>(a: seq<T>, b: seq<T>)
    requires |a| > 0 && |b| > 0
    requires a[0] != b[0] && a[|a| - 1] != b[|b| - 1]
    ensures Distance(a, b) >= 2
  {
    assert !Kept(a, b, 0, 0);
    if Dist(a, b, |a| - 1, |b|) == 0 {
      DistZero(a, b, |a| - 1, |b|);
    }
    if Dist(a, b, |a|, |b| - 1) == 0 {
      DistZero(a, b, |a|, |b| - 1);
    }
  }

  // ---- The graph read backwards ----

  lemma {:induction false} MatchRev<T>(a: seq<T>, b: seq<T>, x: int, y: int)
    ensures Match(Rev(a), Rev(b), |a| - 1 - x, |b| - 1 - y) == Match(a, b, x, y)
  {
  }

  /** The number of edits a shortest path from (x, y) to the far corner needs. */
  ghost function RDist<T>(a: seq<T>, b: seq<T>, x: int, y: int): nat
    requires x <= |a| && y <= |b|
  {
    Dist(Rev(a), Rev(b), |a| - x, |b| - y)
  }

  /** Every point splits a path: going through it never beats the shortest path. */
  lemma {:induction false} ThroughAtLeast<T>(a: seq<T>, b: seq<T>, x: nat, y: nat)
    requires x <= |a| && y <= |b|
    ensures Dist(a, b, x, y) + RDist(a, b, x, y) >= Distance(a, b)
    decreases |a| - x + |b| - y
  {
    MatchRev(a, b, x, y);
    if x == |a| {
      DistFar(a, b, x, y, 0, |b| - y);
    } else if y == |b| {
      DistFar(a, b, x, y, |a| - x, 0);
    } else if Match(a, b, x, y) {
      ThroughAtLeast(a, b, x + 1, y + 1);
    } else {
      ThroughAtLeast(a, b, x + 1, y);
      ThroughAtLeast(a, b, x, y + 1);
      DistNeighbours(a, b, x, y);
    }
  }

  /** The point before (x, y) on a shortest path from the start. */
  lemma {:induction false} Predecessor<T>(a: seq<T>, b: seq<T>, x: nat, y: nat) returns (px: nat, py: nat)
    requires x <= |a| && y <= |b| && Dist(a, b, x, y) > 0
    ensures px <= x && py <= y && px + py < x + y
    ensures Dist(a, b, x, y) - 1 <= Dist(a, b, px, py) <= Dist(a, b, x, y)
    ensures RDist(a, b, px, py) + Dist(a, b, px, py) <= RDist(a, b, x, y) + Dist(a, b, x, y)
  {
    if x > 0 && y > 0 && Match(a, b, x - 1, y - 1) {
      MatchRev(a, b, x - 1, y - 1);
      px, py := x - 1, y - 1;
    } else {
      DistNeighbours(Rev(a), Rev(b), |a| - x, |b| - y);
      if y > 0 && Dist(a, b, x, y) == 1 + Dist(a, b, x, y - 1) {
        px, py := x, y - 1;
      } else {
        px, py := x - 1, y;
      }
    }
  }

  /** Following a shortest path back from (x, y) finds a point exactly `i` edits from the start. */
  lemma {:induction false} PointBefore<T>(a: seq<T>, b: seq<T>, i: nat, x: nat, y: nat)
    returns (px: nat, py: nat)
    requires x <= |a| && y <= |b|
    requires i <= Dist(a, b, x, y)
    ensures px <= x && py <= y && Dist(a, b, px, py) == i
    ensures RDist(a, b, px, py) + i <= RDist(a, b, x, y) + Dist(a, b, x, y)
    decreases x + y
  {
    hide Dist;
    px, py := x, y;
    if i < Dist(a, b, x, y) {
      px, py := Predecessor(a, b, x, y);
      px, py := PointBefore(a, b, i, px, py);
    }
  }

  /** Myers' splitting property: a shortest path has a point at every edit count. */
  lemma {:induction false} MiddlePoint<T>(a: seq<T>, b: seq<T>, i: nat) returns (x: nat, y: nat)
    requires i <= Distance(a, b)
    ensures x <= |a| && y <= |b|
    ensures Dist(a, b, x, y) == i && RDist(a, b, x, y) == Distance(a, b) - i
  {
    x, y := PointBefore(a, b, i, |a|, |b|);
    ThroughAtLeast(a, b, x, y);
  }

  /** The distance does not depend on the direction of reading. */
  lemma {:induction false} DistanceReversed<T>(a: seq<T>, b: seq<T>)
    ensures Distance(Rev(a), Rev(b)) == Distance(a, b)
  {
    var x, y := MiddlePoint(a, b, 0);
    DistZero(a, b, x, y);
    var corner := |a| - |b|;
    assert Snake(Rev(a), Rev(b), |a| - x, |a|, corner) by {
      forall k | |a| - x <= k < |a|
        ensures Kept(Rev(a), Rev(b), k, corner)
      {
        assert Kept(a, b, |a| - 1 - k, 0);
        MatchRev(a, b, |a| - 1 - k, |a| - 1 - k);
      }
    }
    DistSnake(Rev(a), Rev(b), |a| - x, |b| - y, x);
  }

  // ---- Sub-ranges ----

  lemma {:induction false} DistPrefix<T>(a: seq<T>, b: seq<T>, m: nat, n: nat, x: nat, y: nat)
    requires x <= m <= |a| && y <= n <= |b|
    ensures Dist(a[..m], b[..n], x, y) == Dist(a, b, x, y)
    decreases x + y
  {
    if x > 0 && y > 0 {
      DistPrefix(a, b, m, n, x - 1, y - 1);
      DistPrefix(a, b, m, n, x - 1, y);
      DistPrefix(a, b, m, n, x, y - 1);
    }
  }

  lemma {:induction false} RevDrop<T>(s: seq<T>, n: nat)
    requires n <= |s|
    ensures Rev(s[n..]) == Rev(s)[..|s| - n]
  {
  }

  /** Cutting both sequences at (x, y): the two parts have the two distances of that point. */
  lemma {:induction false} SplitDistance<T>(a: seq<T>, b: seq<T>, x: nat, y: nat)
    requires x <= |a| && y <= |b|
    ensures Distance(a[..x], b[..y]) == Dist(a, b, x, y)
    ensures Distance(a[x..], b[y..]) == RDist(a, b, x, y)
  {
    DistPrefix(a, b, x, y, x, y);
    RevDrop(a, x);
    RevDrop(b, y);
    DistanceReversed(a[x..], b[y..]);
    DistPrefix(Rev(a), Rev(b), |a| - x, |b| - y, |a| - x, |b| - y);
  }

  /** Dropping equal last elements keeps the distance. */
  lemma {:induction false} TrimLast<T>(a: seq<T>, b: seq<T>)
    requires |a| > 0 && |b| > 0 && a[|a| - 1] == b[|b| - 1]
    ensures Distance(a[..|a| - 1], b[..|b| - 1]) == Distance(a, b)
  {
    SplitDistance(a, b, |a| - 1, |b| - 1);
  }

  /** Dropping equal first elements keeps the distance. */
  lemma {:induction false} TrimFirst<T>(a: seq<T>, b: seq<T>)
    requires |a| > 0 && |b| > 0 && a[0] == b[0]
    ensures Distance(a[1..], b[1..]) == Distance(a, b)
  {
    SplitDistance(a, b, 1, 1);
    MatchRev(a, b, 0, 0);
    DistanceReversed(a, b);
  }

  // ---- Overlap of the two searches ----

  /** A point found by one search that lies on a diagonal the other search has reached is inside
      the rectangle, unless a shorter path exists. */
  lemma {:induction false} PointInside<T>(a: seq<T>, b: seq<T>, x: nat, y: nat, d: nat, e: nat)
    requires Dist(a, b, x, y) <= d
    requires Distance(a, b) >= d + e
    requires Abs((|a| - |b|) - (x - y)) <= e
    ensures x <= |a| && y <= |b|
  {
    if x > |a| {
      DistBeyondRight(a, b, x - |a|, y);
      if y <= |b| {
        DistFar(a, b, |a|, y, 0, |b| - y);
      } else {
        DistBeyondBottom(a, b, |a|, y - |b|);
      }
    } else if y > |b| {
      DistBeyondBottom(a, b, x, y - |b|);
      DistFar(a, b, x, |b|, |a| - x, 0);
    }
  }

  lemma {:induction false} OverlapInside<T>(a: seq<T>, b: seq<T>, px: nat, py: nat, qx: int, qy: int, d: nat, e: nat)
    requires qx <= |a| && qy <= |b|
    requires px - py == qx - qy
    requires Dist(a, b, px, py) <= d && RDist(a, b, qx, qy) <= e
    requires Distance(a, b) >= d + e
    ensures 0 <= qx && 0 <= qy && px <= |a| && py <= |b|
  {
    var ra, rb := Rev(a), Rev(b);
    DistBounds(a, b, px, py);
    DistBounds(ra, rb, |a| - qx, |b| - qy);
    PointInside(a, b, px, py, d, e);
    DistanceReversed(a, b);
    PointInside(ra, rb, |a| - qx, |b| - qy, e, d);
  }

  /** The overlap lemma: when a forward point p reached with d edits has met a reverse point q
      reached with e edits on the same diagonal, and no path shorter than d + e exists, both lie
      on a shortest path, inside the rectangle. */
  lemma {:induction false} Overlap<T>(a: seq<T>, b: seq<T>, px: nat, py: nat, qx: int, qy: int, d: nat, e: nat)
    requires qx <= |a| && qy <= |b|
    requires px - py == qx - qy && qx <= px
    requires Dist(a, b, px, py) <= d && RDist(a, b, qx, qy) <= e
    requires Distance(a, b) >= d + e
    ensures 0 <= qx && 0 <= qy && px <= |a| && py <= |b|
    ensures Distance(a, b) == d + e
    ensures Dist(a, b, px, py) == d == Dist(a, b, qx, qy)
    ensures RDist(a, b, px, py) == e == RDist(a, b, qx, qy)
  {
    OverlapInside(a, b, px, py, qx, qy, d, e);
    DistDiagonals(a, b, qx, qy, px - qx);
    DistDiagonals(Rev(a), Rev(b), |a| - px, |b| - py, px - qx);
    ThroughAtLeast(a, b, px, py);
    ThroughAtLeast(a, b, qx, qy);
  }
}
