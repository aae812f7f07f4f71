/** What the two AI players share: the extended integers that stand for the
    `float('-inf')` / `float('inf')` sentinels of the alpha-beta search, the list of
    legal moves, and the measure that makes every search finite. */
module Search {
  import opened Grid
  import opened Capture
  import opened Rules
  import opened Engine

  /** A search value: an evaluation, or one of the two infinite sentinels. */
  datatype Ext = NegInf | Fin(v: int) | PosInf

  /** Python's `<=` on these values. */
  predicate ELe(a: Ext, b: Ext) {
    a.NegInf? || b.PosInf? || (a.Fin? && b.Fin? && a.v <= b.v)
  }

  /** Python's `>`: the negation of `<=` on a total order. */
  predicate EGt(a: Ext, b: Ext) {
    !ELe(a, b)
  }

  /** `max(a, b)`. */
  function EMax(a: Ext, b: Ext): (m: Ext)
    ensures ELe(a, m) && ELe(b, m)
    ensures m == a || m == b
  {
    if EGt(b, a) then b else a
  }

  /** `min(a, b)`. */
  function EMin(a: Ext, b: Ext): (m: Ext)
    ensures ELe(m, a) && ELe(m, b)
    ensures m == a || m == b
  {
    if ELe(b, a) then b else a
  }

  /** `x` clipped to the window [a, b]: the part of a search value an alpha-beta
      search with that window is bound to get right. */
  function Clamp(x: Ext, a: Ext, b: Ext): Ext {
    EMin(EMax(a, x), b)
  }

  /** The full window clips nothing. */
  lemma ClampFull(x: Ext)
    ensures Clamp(x, NegInf, PosInf) == x
  {
  }

  /** A value at or above the top of a window is clipped to the top. */
  lemma ClampTop(x: Ext, a: Ext, b: Ext)
    requires EGt(b, a) && ELe(b, x)
    ensures Clamp(x, a, b) == b
  {
  }

  /** One child of a maximizing node: `alpha` is `alpha0` raised by the best pruned
      value `v` so far, `u` is the best plain value so far and agrees with `v` above
      `alpha0`, and the child's pruned value `w` agrees with its plain value `p` in the
      window [alpha, beta]. On a cut-off both new bests are at least `beta`; otherwise
      the raised bound and the agreement carry over to the next child. */
  lemma MaxStep(alpha0: Ext, beta: Ext, alpha: Ext, v: Ext, u: Ext, w: Ext, p: Ext)
    requires EGt(beta, alpha0) && alpha == EMax(alpha0, v) && EGt(beta, alpha) && EMax(alpha0, u) == alpha
    requires Clamp(w, alpha, beta) == Clamp(p, alpha, beta)
    ensures ELe(beta, EMax(alpha, w)) ==> ELe(beta, EMax(v, w)) && ELe(beta, EMax(u, p))
    ensures !ELe(beta, EMax(alpha, w)) ==>
      EMax(alpha, w) == EMax(alpha0, EMax(v, w)) && EMax(alpha0, EMax(u, p)) == EMax(alpha, w)
  {
  }

  /** The mirror image of `MaxStep` for a minimizing node. */
  lemma MinStep(alpha: Ext, beta0: Ext, beta: Ext, v: Ext, u: Ext, w: Ext, p: Ext)
    requires EGt(beta0, alpha) && beta == EMin(beta0, v) && EGt(beta, alpha) && EMin(beta0, u) == beta
    requires Clamp(w, alpha, beta) == Clamp(p, alpha, beta)
    ensures ELe(EMin(beta, w), alpha) ==> ELe(EMin(v, w), alpha) && ELe(EMin(u, p), alpha)
    ensures !ELe(EMin(beta, w), alpha) ==>
      EMin(beta, w) == EMin(beta0, EMin(v, w)) && EMin(beta0, EMin(u, p)) == EMin(beta, w)
  {
  }

  /** A value at or below the bottom of a window is clipped to the bottom. */
  lemma ClampBottom(x: Ext, a: Ext, b: Ext)
    requires EGt(b, a) && ELe(x, a)
    ensures Clamp(x, a, b) == a
  {
  }

  /** The cell (i, j) is on the board and legal. */
  function LegalAt(g: Board): (int, int) -> bool
    requires IsSquare(g)
  {
    (i, j) => 0 <= i < |g| && 0 <= j < |g| && Legal(g, Pos(i, j))
  }

  /** How many legal moves the board still has: zero exactly on a full board. */
  function LegalCount(g: Board): (k: nat)
    requires IsSquare(g)
    ensures k == 0 <==> IsFull(g)
  {
    NotFullHasLegal(g);
    CountUpTo(|g|, LegalAt(g), |g|, 0)
  }

  lemma NotFullHasLegal(g: Board)
    requires IsSquare(g)
    ensures CountUpTo(|g|, LegalAt(g), |g|, 0) > 0 <==> !IsFull(g)
  {
    CountPositive(|g|, LegalAt(g), |g|, 0);
    if !IsFull(g) {
      var i, j :| 0 <= i < |g| && 0 <= j < |g| && g[i][j].owner == Nobody && !g[i][j].captured;
      assert Before(i, j, |g|, 0) && LegalAt(g)(i, j);
    }
  }

  /** A dot put on a legal point, followed by anything that only sets captured flags,
      leaves strictly fewer legal moves: every search terminates, whatever its depth. */
  lemma LegalCountDrops(g: Board, q: Pos, p: int, g': Board)
    requires IsSquare(g) && InBounds(|g|, q) && Legal(g, q) && p != Nobody
    requires IsSquare(g') && Grows(SetOwner(g, q, p), g')
    ensures LegalCount(g') < LegalCount(g)
  {
    var n := |g|;
    var placed: Board := SetOwner(g, q, p);
    var rest := (i: int, j: int) => 0 <= i < n && 0 <= j < n && Legal(g, Pos(i, j)) && Pos(i, j) != q;
    var at := (i: int, j: int) => i == q.r && j == q.c;
    forall i, j | 0 <= i < n && 0 <= j < n && LegalAt(g')(i, j)
      ensures rest(i, j)
    {
      assert g'[i][j].owner == placed[i][j].owner;
      assert !placed[i][j].captured;
    }
    CountMono(n, LegalAt(g'), rest, n, 0);
    CountSplit(n, LegalAt(g), rest, at, n, 0);
    assert Before(q.r, q.c, n, 0) && at(q.r, q.c);
    CountPositive(n, at, n, 0);
  }

  /** A trial move (a dot of `p` on a legal point, then the capture sweep) leaves a
      square board with strictly fewer legal moves. */
  lemma PlayDrops(s: State, q: Pos, p: int)
    requires IsSquare(s.grid) && InBounds(|s.grid|, q) && Legal(s.grid, q) && IsPlayer(p)
    ensures IsSquare(Play(s, q, p).grid) && |Play(s, q, p).grid| == |s.grid|
    ensures LegalCount(Play(s, q, p).grid) < LegalCount(s.grid)
  {
    hide FindCycleStep;
    PlayLater(s, q, p);
    LegalCountDrops(s.grid, q, p, Play(s, q, p).grid);
  }

  /** A trial move of a search: the state left by a dot of `p` on `q`. */
  type Step = (State, Pos, int) -> State

  /** Every trial move on a legal point keeps the board square and leaves strictly
      fewer legal moves, so a search over trial moves is finite whatever its depth. */
  ghost predicate Shrinks(play: Step) {
    forall s: State, q: Pos, p: int {:trigger play(s, q, p)} ::
      IsSquare(s.grid) && InBounds(|s.grid|, q) && Legal(s.grid, q) && IsPlayer(p) ==>
        IsSquare(play(s, q, p).grid) && |play(s, q, p).grid| == |s.grid|
        && LegalCount(play(s, q, p).grid) < LegalCount(s.grid)
  }

  /** The trial move of `last_min.py`: the dot, then `check_for_cycles_around`. */
  ghost function Trial(): (play: Step)
    ensures Shrinks(play)
  {
    var play := (s: State, q: Pos, p: int) =>
      if IsSquare(s.grid) && InBounds(|s.grid|, q) && IsPlayer(p) then Play(s, q, p) else s;
    forall s: State, q: Pos, p: int | IsSquare(s.grid) && InBounds(|s.grid|, q) && Legal(s.grid, q) && IsPlayer(p)
      ensures IsSquare(play(s, q, p).grid) && |play(s, q, p).grid| == |s.grid|
        && LegalCount(play(s, q, p).grid) < LegalCount(s.grid)
    {
      PlayDrops(s, q, p);
    }
    play
  }

  lemma TrialIsPlay(s: State, q: Pos, p: int)
    requires IsSquare(s.grid) && InBounds(|s.grid|, q) && IsPlayer(p)
    ensures Trial()(s, q, p) == Play(s, q, p)
  {
    hide FindCycleStep;
  }

  /** The trial move of `main.py`: the owner written, no capture. */
  function Placement(): (play: Step)
    ensures Shrinks(play)
  {
    var play := (s: State, q: Pos, p: int) =>
      if IsSquare(s.grid) && InBounds(|s.grid|, q) then Place(s, q, p) else s;
    forall s: State, q: Pos, p: int | IsSquare(s.grid) && InBounds(|s.grid|, q) && Legal(s.grid, q) && IsPlayer(p)
      ensures IsSquare(play(s, q, p).grid) && |play(s, q, p).grid| == |s.grid|
        && LegalCount(play(s, q, p).grid) < LegalCount(s.grid)
    {
      LegalCountDrops(s.grid, q, p, SetOwner(s.grid, q, p));
    }
    play
  }

  /** The best value of a list of search values, `float('-inf')` for none: the
      `best_score` of a scan that keeps the larger value. */
  function Top(vs: seq<Ext>): (m: Ext)
    ensures forall k :: 0 <= k < |vs| ==> ELe(vs[k], m)
    ensures vs != [] ==> m in vs
    ensures vs == [] ==> m == NegInf
  {
    if vs == [] then NegInf else EMax(Top(vs[..|vs| - 1]), vs[|vs| - 1])
  }

  lemma TopStep(vs: seq<Ext>, i: nat)
    requires i < |vs|
    ensures Top(vs[..i + 1]) == EMax(Top(vs[..i]), vs[i])
  {
    assert vs[..i + 1][..i] == vs[..i];
  }

  /** The moves whose value is `m`, in their order: `best_moves`. */
  function Ties(ms: seq<Pos>, vs: seq<Ext>, m: Ext): (ts: seq<Pos>)
    requires |ms| == |vs|
    ensures forall x :: x in ts <==> exists k :: 0 <= k < |ms| && ms[k] == x && vs[k] == m
  {
    if ms == [] then []
    else
      var ts := Ties(ms[..|ms| - 1], vs[..|vs| - 1], m);
      assert forall k :: 0 <= k < |ms| - 1 ==> ms[..|ms| - 1][k] == ms[k] && vs[..|vs| - 1][k] == vs[k];
      ts + (if vs[|vs| - 1] == m then [ms[|ms| - 1]] else [])
  }

  lemma TiesStep(ms: seq<Pos>, vs: seq<Ext>, m: Ext, i: nat)
    requires |ms| == |vs| && i < |ms|
    ensures Ties(ms[..i + 1], vs[..i + 1], m) == Ties(ms[..i], vs[..i], m) + (if vs[i] == m then [ms[i]] else [])
  {
    assert ms[..i + 1][..i] == ms[..i];
    assert vs[..i + 1][..i] == vs[..i];
  }

  /** The best value is always reached, so `best_moves` is empty only for no moves. */
  lemma TopTies(ms: seq<Pos>, vs: seq<Ext>)
    requires |ms| == |vs|
    ensures Ties(ms, vs, Top(vs)) == [] <==> ms == []
    ensures forall x :: x in Ties(ms, vs, Top(vs)) ==> x in ms
  {
    if ms != [] {
      var k :| 0 <= k < |vs| && vs[k] == Top(vs);
      assert ms[k] in Ties(ms, vs, Top(vs));
    }
  }

  /** No tie with a value nobody reached. */
  lemma TiesAbsent(ms: seq<Pos>, vs: seq<Ext>, m: Ext)
    requires |ms| == |vs|
    requires forall k :: 0 <= k < |vs| ==> vs[k] != m
    ensures Ties(ms, vs, m) == []
  {
  }

  /** `possible_moves`: the legal cells collected in row-major order. */
  method PossibleMoves(game: Game) returns (ms: seq<Pos>)
    requires game.Valid()
    ensures ms == LegalMoves(game.grid)
  {
    ms := [];
    var r := 0;
    while r < game.n
      invariant 0 <= r <= game.n
      invariant ms == LegalUpTo(game.grid, r, 0)
    {
      var c := 0;
      while c < game.n
        invariant 0 <= c <= game.n
        invariant ms == LegalUpTo(game.grid, r, c)
      {
        if game.grid[r][c].owner == Nobody && !game.grid[r][c].captured {
          ms := ms + [Pos(r, c)];
        }
        c := c + 1;
      }
      r := r + 1;
    }
  }
}
