/** Grid points, cells and the read-only board queries of the game engine
    (`get_neighbors`, `check_full`, the list of legal targets). Both game
    variants share them; the side length is the length of the board. */
module Grid {

  datatype Option<T> = None | Some(value: T)

  /** A grid coordinate: row, column. */
  datatype Pos = Pos(r: int, c: int)

  /** One grid point: `owner` is 0 (nobody), 1 or 2; `captured` marks it inert. */
  datatype Cell = Cell(owner: int, captured: bool)

  /** Rows of cells; a well-formed board is square. */
  type Board = seq<seq<Cell>>

  const Nobody := 0

  predicate IsPlayer(p: int) { p == 1 || p == 2 }

  /** The other player, written `3 - player_id` in the game. */
  function Opponent(p: int): (e: int)
    ensures IsPlayer(p) ==> IsPlayer(e) && e != p
  {
    3 - p
  }

  predicate IsSquare(g: Board) {
    forall i :: 0 <= i < |g| ==> |g[i]| == |g|
  }

  predicate InBounds(n: int, q: Pos) {
    0 <= q.r < n && 0 <= q.c < n
  }

  /** `q` is on the board, owned by `p` and not captured. */
  predicate Live(g: Board, q: Pos, p: int)
    requires IsSquare(g)
  {
    InBounds(|g|, q) && g[q.r][q.c].owner == p && !g[q.r][q.c].captured
  }

  /** `q` may receive a dot: on the board, owned by nobody, not captured. */
  predicate Legal(g: Board, q: Pos)
    requires IsSquare(g)
  {
    Live(g, q, Nobody)
  }

  /** 8-connectivity: distinct points at most one step apart on each axis. */
  predicate Adjacent(a: Pos, b: Pos) {
    a != b && -1 <= a.r - b.r <= 1 && -1 <= a.c - b.c <= 1
  }

  /** Row-major order of grid points, the order of every nested `for r / for c` scan. */
  predicate Before(i: int, j: int, r: int, c: int) {
    i < r || (i == r && j < c)
  }

  /** The eight step directions in the order `get_neighbors` tries them:
      the four orthogonal ones first, then the four diagonal ones. */
  const Directions: seq<Pos> :=
    [Pos(-1, 0), Pos(1, 0), Pos(0, -1), Pos(0, 1), Pos(-1, -1), Pos(-1, 1), Pos(1, -1), Pos(1, 1)]

  function Shift(q: Pos, d: Pos): Pos {
    Pos(q.r + d.r, q.c + d.c)
  }

  /** Position of the step from `a` to `b` in `Directions`, or 8 when `b` is not adjacent. */
  function DirIndex(a: Pos, b: Pos): (k: nat)
    ensures k <= 8
    ensures k < 8 <==> Adjacent(a, b)
    ensures k < 8 ==> Shift(a, Directions[k]) == b
  {
    var dr, dc := b.r - a.r, b.c - a.c;
    if dr == -1 && dc == 0 then 0
    else if dr == 1 && dc == 0 then 1
    else if dr == 0 && dc == -1 then 2
    else if dr == 0 && dc == 1 then 3
    else if dr == -1 && dc == -1 then 4
    else if dr == -1 && dc == 1 then 5
    else if dr == 1 && dc == -1 then 6
    else if dr == 1 && dc == 1 then 7
    else 8
  }

  lemma DirIndexOfShift(a: Pos, k: nat)
    requires k < 8
    ensures DirIndex(a, Shift(a, Directions[k])) == k
  {
  }

  /** The neighbours found by the first `k` directions, in the order they are found. */
  function NeighborsUpTo(g: Board, q: Pos, p: int, k: nat): (ns: seq<Pos>)
    requires IsSquare(g) && k <= 8
    ensures |ns| <= k
    ensures forall x :: x in ns <==> Live(g, x, p) && Adjacent(q, x) && DirIndex(q, x) < k
    ensures forall i, j :: 0 <= i < j < |ns| ==> DirIndex(q, ns[i]) < DirIndex(q, ns[j])
  {
    if k == 0 then []
    else
      var x := Shift(q, Directions[k - 1]);
      DirIndexOfShift(q, k - 1);
      NeighborsUpTo(g, q, p, k - 1) + (if Live(g, x, p) then [x] else [])
  }

  /** `get_neighbors`: the live cells of `p` around `q`, in direction order. */
  function Neighbors(g: Board, q: Pos, p: int): (ns: seq<Pos>)
    requires IsSquare(g)
    ensures |ns| <= 8
    ensures forall x :: x in ns <==> Live(g, x, p) && Adjacent(q, x)
    ensures forall i, j :: 0 <= i < j < |ns| ==> DirIndex(q, ns[i]) < DirIndex(q, ns[j])
  {
    NeighborsUpTo(g, q, p, 8)
  }

  /** Row-major scan from (r, c) on: no legal cell remains there. */
  function FullFrom(g: Board, r: nat, c: nat): (full: bool)
    requires IsSquare(g)
    decreases |g| - r, |g| - c
    ensures full <==> forall i, j :: 0 <= i < |g| && 0 <= j < |g| && !Before(i, j, r, c) ==> !Legal(g, Pos(i, j))
  {
    if r >= |g| then true
    else if c >= |g| then FullFrom(g, r + 1, 0)
    else if Legal(g, Pos(r, c)) then false
    else FullFrom(g, r, c + 1)
  }

  /** `check_full`: every cell is owned or captured. */
  function IsFull(g: Board): (full: bool)
    requires IsSquare(g)
    ensures full <==> forall i, j :: 0 <= i < |g| && 0 <= j < |g| ==> g[i][j].owner != Nobody || g[i][j].captured
  {
    assert forall i, j :: 0 <= i < |g| && 0 <= j < |g| ==>
      (Legal(g, Pos(i, j)) <==> g[i][j].owner == Nobody && !g[i][j].captured);
    FullFrom(g, 0, 0)
  }

  /** The legal cells strictly before (r, c) in row-major order. */
  function LegalUpTo(g: Board, r: nat, c: nat): (ms: seq<Pos>)
    requires IsSquare(g) && r <= |g| && c <= |g|
    decreases r, c
    ensures forall x :: x in ms <==> InBounds(|g|, x) && Legal(g, x) && Before(x.r, x.c, r, c)
    ensures forall i, j :: 0 <= i < j < |ms| ==> Before(ms[i].r, ms[i].c, ms[j].r, ms[j].c)
  {
    if c > 0 then
      LegalUpTo(g, r, c - 1) + (if Legal(g, Pos(r, c - 1)) then [Pos(r, c - 1)] else [])
    else if r > 0 then LegalUpTo(g, r - 1, |g|)
    else []
  }

  /** `possible_moves`: every legal cell, in row-major order; empty exactly on a full board. */
  function LegalMoves(g: Board): (ms: seq<Pos>)
    requires IsSquare(g)
    ensures forall x :: x in ms <==> Legal(g, x)
    ensures forall i, j :: 0 <= i < j < |ms| ==> Before(ms[i].r, ms[i].c, ms[j].r, ms[j].c)
    ensures ms == [] <==> IsFull(g)
  {
    var ms := LegalUpTo(g, |g|, 0);
    assert ms != [] ==> Legal(g, ms[0]);
    assert !IsFull(g) ==> exists i, j :: 0 <= i < |g| && 0 <= j < |g| && Legal(g, Pos(i, j));
    ms
  }

  /** The board with `p` written as the owner of `q` (captured flag kept). */
  function SetOwner(g: Board, q: Pos, p: int): (g': Board)
    requires IsSquare(g) && InBounds(|g|, q)
    ensures IsSquare(g') && |g'| == |g|
    ensures g'[q.r][q.c] == Cell(p, g[q.r][q.c].captured)
    ensures forall i, j :: 0 <= i < |g| && 0 <= j < |g| && Pos(i, j) != q ==> g'[i][j] == g[i][j]
  {
    g[q.r := g[q.r][q.c := Cell(p, g[q.r][q.c].captured)]]
  }

  /** Writing back the owner a point had undoes a write: the trial moves of
      `main.py` reset the owner to 0 after searching. */
  lemma SetOwnerUndo(g: Board, q: Pos, p: int)
    requires IsSquare(g) && InBounds(|g|, q)
    ensures SetOwner(SetOwner(g, q, p), q, g[q.r][q.c].owner) == g
  {
    var h := SetOwner(SetOwner(g, q, p), q, g[q.r][q.c].owner);
    forall i | 0 <= i < |g|
      ensures h[i] == g[i]
    {
      assert forall j :: 0 <= j < |g| ==> h[i][j] == g[i][j];
    }
  }

  /** The n-by-n board of the start of a game. */
  function EmptyBoard(n: nat): Board
  {
    seq(n, i => seq(n, j => Cell(Nobody, false)))
  }

  /** A prefix one longer is the prefix and the next element. */
  lemma TakeOneMore<T>(s: seq<T>, j: nat)
    requires j < |s|
    ensures s[..j + 1] == s[..j] + [s[j]]
  {
  }

  // Counting over the grid, used by the capture count and the evaluation

  /** Number of cells (i, j) strictly before (r, c) in row-major order on which `f` holds. */
  function CountUpTo(n: nat, f: (int, int) -> bool, r: nat, c: nat): nat
    requires r <= n && c <= n && (r < n || c == 0)
    decreases r, c
  {
    if c > 0 then CountUpTo(n, f, r, c - 1) + (if f(r, c - 1) then 1 else 0)
    else if r > 0 then CountUpTo(n, f, r - 1, n)
    else 0
  }

  /** Sum of `f` over the cells strictly before (r, c) in row-major order. */
  function SumUpTo(n: nat, f: (int, int) -> int, r: nat, c: nat): int
    requires r <= n && c <= n && (r < n || c == 0)
    decreases r, c
  {
    if c > 0 then SumUpTo(n, f, r, c - 1) + f(r, c - 1)
    else if r > 0 then SumUpTo(n, f, r - 1, n)
    else 0
  }

  /** A sum of values that each lie in [lo, hi] lies between lo and hi times the
      number of cells summed. */
  lemma {:induction false} SumBounds(n: nat, f: (int, int) -> int, lo: int, hi: int, r: nat, c: nat)
    requires r <= n && c <= n && (r < n || c == 0)
    requires forall i, j :: 0 <= i < n && 0 <= j < n ==> lo <= f(i, j) <= hi
    ensures lo * (r * n + c) <= SumUpTo(n, f, r, c) <= hi * (r * n + c)
    decreases r, c
  {
    if c > 0 {
      SumBounds(n, f, lo, hi, r, c - 1);
      assert lo * (r * n + c) == lo * (r * n + (c - 1)) + lo;
      assert hi * (r * n + c) == hi * (r * n + (c - 1)) + hi;
    } else if r > 0 {
      SumBounds(n, f, lo, hi, r - 1, n);
      assert (r - 1) * n + n == r * n;
    }
  }

  /** A count is positive exactly when some counted cell satisfies `f`. */
  lemma {:induction false} CountPositive(n: nat, f: (int, int) -> bool, r: nat, c: nat)
    requires r <= n && c <= n && (r < n || c == 0)
    decreases r, c
    ensures CountUpTo(n, f, r, c) > 0 <==> exists i, j :: 0 <= i < n && 0 <= j < n && Before(i, j, r, c) && f(i, j)
  {
    if c > 0 {
      CountPositive(n, f, r, c - 1);
      if f(r, c - 1) {
        assert Before(r, c - 1, r, c);
      }
    } else if r > 0 {
      CountPositive(n, f, r - 1, n);
      forall i, j | 0 <= i < n && 0 <= j < n
        ensures Before(i, j, r, c) <==> Before(i, j, r - 1, n)
      {
      }
    }
  }

  /** Counts of two tests that agree on every cell are equal. */
  lemma {:induction false} CountSame(n: nat, f: (int, int) -> bool, h: (int, int) -> bool, r: nat, c: nat)
    requires r <= n && c <= n && (r < n || c == 0)
    requires forall i, j :: 0 <= i < n && 0 <= j < n ==> f(i, j) == h(i, j)
    decreases r, c
    ensures CountUpTo(n, f, r, c) == CountUpTo(n, h, r, c)
  {
    if c > 0 {
      CountSame(n, f, h, r, c - 1);
      assert f(r, c - 1) == h(r, c - 1);
    } else if r > 0 {
      CountSame(n, f, h, r - 1, n);
    }
  }

  /** A test that holds on exactly one of two disjoint tests counts as their sum. */
  lemma {:induction false} CountSplit(n: nat, u: (int, int) -> bool, f: (int, int) -> bool, h: (int, int) -> bool, r: nat, c: nat)
    requires r <= n && c <= n && (r < n || c == 0)
    requires forall i, j :: 0 <= i < n && 0 <= j < n ==> (u(i, j) <==> f(i, j) || h(i, j)) && !(f(i, j) && h(i, j))
    decreases r, c
    ensures CountUpTo(n, u, r, c) == CountUpTo(n, f, r, c) + CountUpTo(n, h, r, c)
  {
    if c > 0 {
      CountSplit(n, u, f, h, r, c - 1);
      assert (u(r, c - 1) <==> f(r, c - 1) || h(r, c - 1)) && !(f(r, c - 1) && h(r, c - 1));
    } else if r > 0 {
      CountSplit(n, u, f, h, r - 1, n);
    }
  }

  /** A weaker test never counts more cells. */
  lemma {:induction false} CountMono(n: nat, f: (int, int) -> bool, h: (int, int) -> bool, r: nat, c: nat)
    requires r <= n && c <= n && (r < n || c == 0)
    requires forall i, j :: 0 <= i < n && 0 <= j < n && f(i, j) ==> h(i, j)
    decreases r, c
    ensures CountUpTo(n, f, r, c) <= CountUpTo(n, h, r, c)
  {
    if c > 0 {
      CountMono(n, f, h, r, c - 1);
      assert f(r, c - 1) ==> h(r, c - 1);
    } else if r > 0 {
      CountMono(n, f, h, r - 1, n);
    }
  }

  // The cells not yet on a path: the measure that makes the cycle search terminate

  /** The points (r, 0) .. (r, c - 1). */
  ghost function RowCells(r: int, c: nat): set<Pos> {
    if c == 0 then {} else RowCells(r, c - 1) + {Pos(r, c - 1)}
  }

  /** The points of the first `r` rows of an n-by-n board. */
  ghost function RowsCells(n: nat, r: nat): set<Pos> {
    if r == 0 then {} else RowsCells(n, r - 1) + RowCells(r - 1, n)
  }

  /** Every point of the n-by-n board. */
  ghost function AllCells(n: nat): set<Pos> {
    RowsCells(n, n)
  }

  lemma {:induction false} InRowsCells(n: nat, r: nat, x: Pos)
    requires 0 <= x.r < r && 0 <= x.c < n
    ensures x in RowsCells(n, r)
  {
    if x.r < r - 1 {
      InRowsCells(n, r - 1, x);
    } else {
      InRowCells(x.r, n, x);
    }
  }

  lemma {:induction false} InRowCells(r: int, c: nat, x: Pos)
    requires x.r == r && 0 <= x.c < c
    ensures x in RowCells(r, c)
  {
    if x.c < c - 1 {
      InRowCells(r, c - 1, x);
    }
  }

  /** The coordinate set of a path (`set(path)`). */
  function Elements(path: seq<Pos>): set<Pos> {
    set x | x in path
  }

  lemma {:induction false} RowCellsSize(r: int, c: nat)
    ensures |RowCells(r, c)| <= c
  {
    if c > 0 {
      RowCellsSize(r, c - 1);
    }
  }

  lemma {:induction false} RowsCellsSize(n: nat, r: nat)
    ensures |RowsCells(n, r)| <= r * n
  {
    if r > 0 {
      RowsCellsSize(n, r - 1);
      RowCellsSize(r - 1, n);
      assert r * n == (r - 1) * n + n;
    }
  }

  /** How many grid points a path has not visited yet. */
  ghost function Rem(n: nat, path: seq<Pos>): nat {
    var k := |Elements(path)|;
    if k <= n * n then n * n - k else 0
  }

  /** Extending an on-board path by an unvisited grid point leaves one point fewer to visit. */
  lemma RemStep(n: nat, path: seq<Pos>, x: Pos)
    requires forall y :: y in path ==> InBounds(n, y)
    requires InBounds(n, x) && x !in path
    ensures Rem(n, path) >= 1 && Rem(n, path + [x]) == Rem(n, path) - 1
  {
    var after := Elements(path + [x]);
    assert after == Elements(path) + {x};
    forall y | y in after
      ensures y in AllCells(n)
    {
      InRowsCells(n, n, y);
    }
    assert after <= AllCells(n);
    RowsCellsSize(n, n);
    var all := AllCells(n);
    assert all == after + (all - after);
    assert |all| == |after| + |all - after|;
  }
}
