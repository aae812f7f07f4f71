/** The even-odd ray test `is_point_in_poly`. The intersection value `xints`
    is a quotient in the game; here the comparison `r <= xints` is decided
    exactly by cross-multiplying with the column difference. */
module Polygon {
  import opened Grid

  function Min(a: int, b: int): int { if a <= b then a else b }
  function Max(a: int, b: int): int { if a <= b then b else a }

  /** `q.r <= (q.c - a.c) * (b.r - a.r) / (b.c - a.c) + a.r`, for an edge whose columns differ. */
  predicate AtOrAboveCrossing(q: Pos, a: Pos, b: Pos) {
    var num := (q.c - a.c) * (b.r - a.r);
    var den := b.c - a.c;
    if den > 0 then (q.r - a.r) * den <= num
    else if den < 0 then (q.r - a.r) * den >= num
    else false
  }

  /** One pass of the test's loop over the edge from `a` (p1) to `b` (p2):
      whether it flips the `inside` flag for the point `q`. */
  predicate EdgeFlips(q: Pos, a: Pos, b: Pos) {
    if q.c > Min(a.c, b.c) && q.c <= Max(a.c, b.c) && q.r <= Max(a.r, b.r) then
      a.r == b.r || AtOrAboveCrossing(q, a, b)
    else false
  }

  /** The vertex `poly[k % n]` that pass k of the loop reads as p2. */
  function Vertex(poly: seq<Pos>, k: nat): Pos
    requires |poly| > 0
  {
    poly[k % |poly|]
  }

  /** The vertex pass k reads as p1: `poly[0]` on the first pass, then the p2 of
      the pass before. */
  function Prev(poly: seq<Pos>, k: nat): Pos
    requires |poly| > 0
  {
    if k == 0 then poly[0] else Vertex(poly, k - 1)
  }

  /** The flag after the first `i` passes of the loop `for i in range(n + 1)`. */
  function FlagAfter(q: Pos, poly: seq<Pos>, i: nat): bool
    requires |poly| > 0 && i <= |poly| + 1
  {
    if i == 0 then false
    else if EdgeFlips(q, Prev(poly, i - 1), Vertex(poly, i - 1)) then !FlagAfter(q, poly, i - 1)
    else FlagAfter(q, poly, i - 1)
  }

  /** `is_point_in_poly`. */
  predicate InPoly(q: Pos, poly: seq<Pos>)
    requires |poly| > 0
  {
    FlagAfter(q, poly, |poly| + 1)
  }

  /** Reference definition: how many of the first m edges of the closed polygon
      (poly[k] to poly[k + 1], and finally poly[n - 1] back to poly[0]) flip for q. */
  function Crossings(q: Pos, poly: seq<Pos>, m: nat): nat
    requires |poly| > 0 && m <= |poly|
  {
    if m == 0 then 0
    else Crossings(q, poly, m - 1) + (if EdgeFlips(q, poly[m - 1], poly[m % |poly|]) then 1 else 0)
  }

  /** The loop visits every edge of the closed polygon exactly once, closing edge
      included (its extra first pass is the empty edge poly[0] to poly[0]): the point
      is inside exactly when an odd number of edges flip for it. */
  lemma {:induction false} InPolyIsOddCrossings(q: Pos, poly: seq<Pos>)
    requires |poly| > 0
    ensures InPoly(q, poly) <==> Crossings(q, poly, |poly|) % 2 == 1
  {
    FlagAfterCounts(q, poly, |poly|);
  }

  lemma {:induction false} FlagAfterCounts(q: Pos, poly: seq<Pos>, m: nat)
    requires |poly| > 0 && m <= |poly|
    ensures FlagAfter(q, poly, m + 1) <==> Crossings(q, poly, m) % 2 == 1
  {
    if m == 0 {
      assert Vertex(poly, 0) == poly[0];
      assert !EdgeFlips(q, poly[0], poly[0]);
    } else {
      FlagAfterCounts(q, poly, m - 1);
      PrevIsPrevious(poly, m);
    }
  }

  lemma PrevIsPrevious(poly: seq<Pos>, k: nat)
    requires 1 <= k <= |poly|
    ensures Prev(poly, k) == poly[k - 1]
  {
    assert (k - 1) % |poly| == k - 1;
  }

  /** An edge whose endpoints share a column never flips; any other edge flips
      exactly when min col < c <= max col and q's row is at or above the edge's
      row at column c. */
  lemma EdgeFlipsChar(q: Pos, a: Pos, b: Pos)
    ensures a.c == b.c ==> !EdgeFlips(q, a, b)
    ensures a.c != b.c ==>
      (EdgeFlips(q, a, b) <==> Min(a.c, b.c) < q.c <= Max(a.c, b.c) && AtOrAboveCrossing(q, a, b))
  {
    if a.c != b.c && Min(a.c, b.c) < q.c <= Max(a.c, b.c) && AtOrAboveCrossing(q, a, b) {
      CrossingRowBound(q, a, b);
    }
  }

  /** On the interval, the crossing row lies between the endpoint rows, so being
      at or above it implies being at or above the lower endpoint. */
  lemma CrossingRowBound(q: Pos, a: Pos, b: Pos)
    requires a.c != b.c && Min(a.c, b.c) < q.c <= Max(a.c, b.c) && AtOrAboveCrossing(q, a, b)
    ensures q.r <= Max(a.r, b.r)
  {
    var t, den, dr := q.c - a.c, b.c - a.c, b.r - a.r;
    if den > 0 {
      assert 0 < t <= den;
      if dr >= 0 {
        assert t * dr <= den * dr;
        assert (q.r - a.r) * den <= den * dr;
      } else {
        assert t * dr < 0;
      }
    } else {
      assert den < t <= 0;
      if dr >= 0 {
        assert t * dr >= den * dr;
        assert (q.r - a.r) * den >= den * dr;
      } else {
        assert t * dr >= 0;
      }
    }
  }

  /** For an edge between 8-neighbours (every edge of a fence), the test is exact
      integer arithmetic: the edge flips exactly when the columns differ, q sits in
      the higher column and q's row is at or above the row of the vertex there. */
  lemma AdjacentEdgeFlips(q: Pos, a: Pos, b: Pos)
    requires Adjacent(a, b)
    ensures EdgeFlips(q, a, b) <==>
      a.c != b.c && q.c == Max(a.c, b.c) && q.r <= (if a.c < b.c then b.r else a.r)
  {
  }
}
