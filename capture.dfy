/** What `validate_and_capture` computes, as functions of the board it starts
    from: which cells a fence encloses, how many enemy cells it takes, and the
    board with every enclosed cell marked captured. */
module Capture {
  import opened Grid
  import opened Polygon

  /** A grid point off the fence that the ray test places inside it. */
  predicate Enclosed(poly: seq<Pos>, q: Pos)
    requires |poly| > 0
  {
    q !in poly && InPoly(q, poly)
  }

  /** Cell (i, j) is an enclosed, uncaptured dot of the opponent of `p`. */
  function TakesAt(g: Board, poly: seq<Pos>, p: int): (int, int) -> bool
    requires IsSquare(g) && |poly| > 0
  {
    (i, j) => 0 <= i < |g| && 0 <= j < |g| && Enclosed(poly, Pos(i, j))
              && g[i][j].owner == Opponent(p) && !g[i][j].captured
  }

  /** The value `validate_and_capture` returns: the enclosed, uncaptured enemy dots
      (zero when there is none, which is its `has_enemy_dot` check). */
  function CaptureCount(g: Board, poly: seq<Pos>, p: int): nat
    requires IsSquare(g) && |poly| > 0
  {
    CountUpTo(|g|, TakesAt(g, poly, p), |g|, 0)
  }

  /** The board with the enclosed cells strictly before (r, c) in row-major order
      marked captured: the state of the marking loop when it reaches (r, c). */
  function MarkedUpTo(g: Board, poly: seq<Pos>, r: int, c: int): (g': Board)
    requires IsSquare(g) && |poly| > 0
    ensures IsSquare(g') && |g'| == |g|
  {
    seq(|g|, i requires 0 <= i < |g| =>
      seq(|g|, j requires 0 <= j < |g| =>
        if Before(i, j, r, c) && Enclosed(poly, Pos(i, j)) then g[i][j].(captured := true) else g[i][j]))
  }

  /** The board after a scoring fence: every enclosed cell captured. */
  function Captured(g: Board, poly: seq<Pos>): (g': Board)
    requires IsSquare(g) && |poly| > 0
    ensures IsSquare(g') && |g'| == |g|
  {
    MarkedUpTo(g, poly, |g|, 0)
  }

  /** `g'` is a later board than `g`: same size, same owners, captured flags only set. */
  predicate Grows(g: Board, g': Board)
    requires IsSquare(g) && IsSquare(g')
  {
    |g'| == |g| &&
    forall i, j :: 0 <= i < |g| && 0 <= j < |g| ==>
      g'[i][j].owner == g[i][j].owner && (g[i][j].captured ==> g'[i][j].captured)
  }

  /** Cells of owner `e` that went from uncaptured on `g` to captured on `g'`. */
  function FlippedOf(g: Board, g': Board, e: int): (int, int) -> bool
    requires IsSquare(g) && IsSquare(g') && |g'| == |g|
  {
    (i, j) => 0 <= i < |g| && 0 <= j < |g| && g[i][j].owner == e && !g[i][j].captured && g'[i][j].captured
  }

  /** A scoring fence changes exactly the enclosed, uncaptured cells, whoever owns
      them (the capturer's own dots and empty points too), and only by setting their
      captured flag: fence cells and cells outside are left as they were. */
  lemma CapturedEffect(g: Board, poly: seq<Pos>)
    requires IsSquare(g) && |poly| > 0
    ensures Grows(g, Captured(g, poly))
    ensures forall i, j :: 0 <= i < |g| && 0 <= j < |g| ==>
      (Captured(g, poly)[i][j] != g[i][j] <==> Enclosed(poly, Pos(i, j)) && !g[i][j].captured)
    ensures forall i, j :: 0 <= i < |g| && 0 <= j < |g| && Enclosed(poly, Pos(i, j)) ==> Captured(g, poly)[i][j].captured
    ensures forall q :: q in poly && InBounds(|g|, q) ==> Captured(g, poly)[q.r][q.c] == g[q.r][q.c]
  {
  }

  /** The count is positive exactly when the fence encloses an uncaptured enemy dot. */
  lemma CaptureCountPositive(g: Board, poly: seq<Pos>, p: int)
    requires IsSquare(g) && |poly| > 0
    ensures CaptureCount(g, poly, p) > 0 <==>
      exists i, j :: 0 <= i < |g| && 0 <= j < |g| && Enclosed(poly, Pos(i, j))
                     && g[i][j].owner == Opponent(p) && !g[i][j].captured
  {
    var f := TakesAt(g, poly, p);
    CountPositive(|g|, f, |g|, 0);
    forall i, j | 0 <= i < |g| && 0 <= j < |g|
      ensures Before(i, j, |g|, 0)
      ensures f(i, j) <==> Enclosed(poly, Pos(i, j)) && g[i][j].owner == Opponent(p) && !g[i][j].captured
    {
    }
  }

  /** The returned count is exactly the number of enemy dots whose captured flag
      the fence sets. */
  lemma CaptureCountIsFlippedEnemies(g: Board, poly: seq<Pos>, p: int)
    requires IsSquare(g) && |poly| > 0
    ensures CaptureCount(g, poly, p) == CountUpTo(|g|, FlippedOf(g, Captured(g, poly), Opponent(p)), |g|, 0)
  {
    var g' := Captured(g, poly);
    forall i, j | 0 <= i < |g| && 0 <= j < |g|
      ensures TakesAt(g, poly, p)(i, j) == FlippedOf(g, g', Opponent(p))(i, j)
    {
      assert g'[i][j] == if Enclosed(poly, Pos(i, j)) then g[i][j].(captured := true) else g[i][j];
    }
    CountSame(|g|, TakesAt(g, poly, p), FlippedOf(g, g', Opponent(p)), |g|, 0);
  }

  /** Cell (i, j) holds a captured dot of `e`. */
  function CapturedOf(g: Board, e: int): (int, int) -> bool
    requires IsSquare(g)
  {
    (i, j) => 0 <= i < |g| && 0 <= j < |g| && g[i][j].owner == e && g[i][j].captured
  }

  /** How many dots of `e` are captured on `g`. */
  function CapturedCount(g: Board, e: int): nat
    requires IsSquare(g)
  {
    CountUpTo(|g|, CapturedOf(g, e), |g|, 0)
  }

  /** A later board never has fewer captured dots of anybody. */
  lemma GrowsCapturedCount(g: Board, g': Board, e: int)
    requires IsSquare(g) && IsSquare(g') && Grows(g, g')
    ensures CapturedCount(g, e) <= CapturedCount(g', e)
  {
    CountMono(|g|, CapturedOf(g, e), CapturedOf(g', e), |g|, 0);
  }

  /** A scoring fence of `p` adds exactly its returned count to the captured dots of
      the opponent, and takes no captured dot away from anybody. */
  lemma CapturedCountAfter(g: Board, poly: seq<Pos>, p: int)
    requires IsSquare(g) && |poly| > 0
    ensures CapturedCount(Captured(g, poly), Opponent(p)) == CapturedCount(g, Opponent(p)) + CaptureCount(g, poly, p)
    ensures forall e :: CapturedCount(g, e) <= CapturedCount(Captured(g, poly), e)
  {
    var g' := Captured(g, poly);
    var e := Opponent(p);
    CapturedEffect(g, poly);
    CaptureCountIsFlippedEnemies(g, poly, p);
    CountSplit(|g|, CapturedOf(g', e), CapturedOf(g, e), FlippedOf(g, g', e), |g|, 0);
    forall x
      ensures CapturedCount(g, x) <= CapturedCount(g', x)
    {
      GrowsCapturedCount(g, g', x);
    }
  }

  /** The marking loop's first state is the board it starts from. */
  lemma MarkStart(g: Board, poly: seq<Pos>)
    requires IsSquare(g) && |poly| > 0
    ensures MarkedUpTo(g, poly, 0, 0) == g
  {
    var m := MarkedUpTo(g, poly, 0, 0);
    forall i | 0 <= i < |g|
      ensures m[i] == g[i]
    {
    }
  }

  /** One pass of the marking loop at (r, c): an enclosed cell not yet captured gets
      its captured flag; nothing else changes. */
  lemma MarkStep(g: Board, poly: seq<Pos>, r: int, c: int)
    requires IsSquare(g) && |poly| > 0 && 0 <= r < |g| && 0 <= c < |g|
    ensures var m := MarkedUpTo(g, poly, r, c);
      m[r][c] == g[r][c]
      && MarkedUpTo(g, poly, r, c + 1) ==
         if Enclosed(poly, Pos(r, c)) && !m[r][c].captured
         then m[r := m[r][c := m[r][c].(captured := true)]] else m
  {
    var m: Board, m': Board := MarkedUpTo(g, poly, r, c), MarkedUpTo(g, poly, r, c + 1);
    var want: Board := if Enclosed(poly, Pos(r, c)) && !m[r][c].captured
                then m[r := m[r][c := m[r][c].(captured := true)]] else m;
    forall i | 0 <= i < |g|
      ensures m'[i] == want[i]
    {
      forall j | 0 <= j < |g|
        ensures m'[i][j] == want[i][j]
      {
      }
    }
  }

  /** The end of a row of the marking loop is the start of the next. */
  lemma MarkRowEnd(g: Board, poly: seq<Pos>, r: int)
    requires IsSquare(g) && |poly| > 0
    ensures MarkedUpTo(g, poly, r, |g|) == MarkedUpTo(g, poly, r + 1, 0)
  {
    var m, m' := MarkedUpTo(g, poly, r, |g|), MarkedUpTo(g, poly, r + 1, 0);
    forall i | 0 <= i < |g|
      ensures m[i] == m'[i]
    {
    }
  }

  /** One pass of the counting loop at (r, c) adds one exactly for an enclosed,
      uncaptured enemy dot. */
  lemma TakeStep(g: Board, poly: seq<Pos>, p: int, r: int, c: int)
    requires IsSquare(g) && |poly| > 0 && 0 <= r < |g| && 0 <= c < |g|
    ensures CountUpTo(|g|, TakesAt(g, poly, p), r, c + 1) ==
      CountUpTo(|g|, TakesAt(g, poly, p), r, c)
      + (if Enclosed(poly, Pos(r, c)) && g[r][c].owner == Opponent(p) && !g[r][c].captured then 1 else 0)
  {
  }
}
