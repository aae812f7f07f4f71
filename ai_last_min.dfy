/** The computer player of `last_min.py` (N = 7): a heuristic evaluation, an
    alpha-beta minimax whose trial moves run the full capture sweep between a
    `snapshot()` and a `restore()`, and a move choice that prefers capturing, then
    blocking, then (unless the random 15% branch fires) the best minimax value. */
module LastMinAi {
  import opened Grid
  import opened Rules
  import opened Engine
  import opened Search

  /** `LOGICAL_GRID_SIZE` of this version. */
  const Size: nat := 7

  /** The shape term for an own dot with `k` same-owner neighbours. The last branch
      (`-150`, "over-clustering") is dead: a neighbour count is never negative. */
  function ShapeBonus(k: int): (b: int)
    ensures k >= 0 ==> b != -150 && -50 <= b <= 400
  {
    if k == 0 then -50
    else if k == 1 then 100
    else if k == 2 then 200
    else if k >= 3 then 400
    else -150
  }

  /** What one cell adds to the evaluation for player `me`: nothing when it is
      captured or empty; for an own dot its shape term plus 50 when it touches an
      enemy dot; for an enemy dot -100 when it has three friends, +200 when `me`
      surrounds it at least as much, +350 when `me` has three dots next to it. */
  function CellWorth(g: Board, me: int, q: Pos): (w: int)
    requires IsSquare(g) && InBounds(|g|, q) && IsPlayer(me)
    ensures -100 <= w <= 550
    ensures g[q.r][q.c].captured || g[q.r][q.c].owner == Nobody ==> w == 0
  {
    var cell := g[q.r][q.c];
    var e := Opponent(me);
    if cell.captured then 0
    else if cell.owner == me then
      var myN := |Neighbors(g, q, me)|;
      var enN := |Neighbors(g, q, e)|;
      ShapeBonus(myN) + (if enN > 0 then 50 else 0)
    else if cell.owner == e then
      var enN := |Neighbors(g, q, e)|;
      var myN := |Neighbors(g, q, me)|;
      (if enN >= 3 then -100 else 0) + (if myN >= 2 && enN <= myN then 200 else 0)
      + (if myN >= 3 then 350 else 0)
    else 0
  }

  function Worth(g: Board, me: int): (int, int) -> int
    requires IsSquare(g) && IsPlayer(me)
  {
    (i, j) => if 0 <= i < |g| && 0 <= j < |g| then CellWorth(g, me, Pos(i, j)) else 0
  }

  /** `evaluate_board` without its `random.uniform(-4, 4)` noise: 5000 per own point,
      -4000 per enemy point, plus the worth of every cell. */
  function Evaluation(s: State, me: int): int
    requires IsSquare(s.grid) && IsPlayer(me)
  {
    5000 * Score(s, me) - 4000 * Score(s, Opponent(me)) + SumUpTo(|s.grid|, Worth(s.grid, me), |s.grid|, 0)
  }

  /** Around the points term, the board part of the evaluation lies between -100 and
      550 per cell of the board. */
  lemma EvaluationBounds(s: State, me: int)
    requires IsSquare(s.grid) && IsPlayer(me)
    ensures var n := |s.grid|;
      var base := 5000 * Score(s, me) - 4000 * Score(s, Opponent(me));
      base - 100 * (n * n) <= Evaluation(s, me) <= base + 550 * (n * n)
  {
    var n := |s.grid|;
    SumBounds(n, Worth(s.grid, me), -100, 550, n, 0);
  }

  /** On the 7-by-7 board of this version the board part of the evaluation is
      confined to a fixed band around the points term. */
  lemma EvaluationOnBoard(s: State, me: int)
    requires IsSquare(s.grid) && |s.grid| == Size && IsPlayer(me)
    ensures var base := 5000 * Score(s, me) - 4000 * Score(s, Opponent(me));
      base - 4900 <= Evaluation(s, me) <= base + 26950
  {
    EvaluationBounds(s, me);
  }

  /** `minimax(game, depth, alpha, beta, maximizing)` on the state `s`, with `play`
      for the trial move: the evaluation at depth 0 or on a full board, otherwise a
      scan of the board in row-major order. */
  ghost function MinimaxValue(play: Step, s: State, me: int, depth: int, alpha: Ext, beta: Ext, maximizing: bool): Ext
    requires Shrinks(play) && IsSquare(s.grid) && IsPlayer(me)
    decreases LegalCount(s.grid), 1, 0, 0
  {
    if depth == 0 || IsFull(s.grid) then Fin(Evaluation(s, me))
    else Scan(play, s, me, depth, alpha, beta, maximizing, 0, 0, if maximizing then NegInf else PosInf)
  }

  /** The value of the trial move on `q` by the player to move (`me` when
      maximizing, the enemy otherwise), searched one level deeper. */
  ghost function ChildValue(play: Step, s: State, me: int, q: Pos, depth: int, alpha: Ext, beta: Ext, maximizing: bool): Ext
    requires Shrinks(play) && IsSquare(s.grid) && IsPlayer(me) && InBounds(|s.grid|, q) && Legal(s.grid, q)
    decreases LegalCount(s.grid), 0, 0, 0
  {
    var mover := if maximizing then me else Opponent(me);
    MinimaxValue(play, play(s, q, mover), me, depth - 1, alpha, beta, !maximizing)
  }

  /** The two nested loops of `minimax` from cell (r, c) on, with the window
      (alpha, beta) and the best value `best` so far; a cut-off returns at once. */
  ghost function Scan(play: Step, s: State, me: int, depth: int, alpha: Ext, beta: Ext, maximizing: bool,
                      r: nat, c: nat, best: Ext): Ext
    requires Shrinks(play) && IsSquare(s.grid) && IsPlayer(me) && r <= |s.grid| && c <= |s.grid|
    decreases LegalCount(s.grid), 0, |s.grid| - r, |s.grid| - c
  {
    if r == |s.grid| then best
    else if c == |s.grid| then Scan(play, s, me, depth, alpha, beta, maximizing, r + 1, 0, best)
    else if !Legal(s.grid, Pos(r, c)) then Scan(play, s, me, depth, alpha, beta, maximizing, r, c + 1, best)
    else
      var v := ChildValue(play, s, me, Pos(r, c), depth, alpha, beta, maximizing);
      var best' := if maximizing then EMax(best, v) else EMin(best, v);
      var alpha' := if maximizing then EMax(alpha, v) else alpha;
      var beta' := if maximizing then beta else EMin(beta, v);
      if ELe(beta', alpha') then best'
      else Scan(play, s, me, depth, alpha', beta', maximizing, r, c + 1, best')
  }

  /** The search never returns an infinite sentinel: the evaluation is reached at
      the leaves, and a board that is not full has a move for the scan to try. */
  lemma {:induction false} MinimaxFinite(play: Step, s: State, me: int, depth: int, alpha: Ext, beta: Ext, maximizing: bool)
    requires Shrinks(play) && IsSquare(s.grid) && IsPlayer(me)
    ensures MinimaxValue(play, s, me, depth, alpha, beta, maximizing).Fin?
    decreases LegalCount(s.grid), 1, 0, 0, 0
  {
    hide Evaluation, PureValue, PureScan;
    if !(depth == 0 || IsFull(s.grid)) {
      ScanFinite(play, s, me, depth, alpha, beta, maximizing, 0, 0, if maximizing then NegInf else PosInf);
    }
  }

  lemma {:induction false} ScanFinite(play: Step, s: State, me: int, depth: int, alpha: Ext, beta: Ext, maximizing: bool,
                                      r: nat, c: nat, best: Ext)
    requires Shrinks(play) && IsSquare(s.grid) && IsPlayer(me) && r <= |s.grid| && c <= |s.grid|
    requires if maximizing then !best.PosInf? else !best.NegInf?
    requires best.Fin? || !FullFrom(s.grid, r, c)
    ensures Scan(play, s, me, depth, alpha, beta, maximizing, r, c, best).Fin?
    decreases LegalCount(s.grid), 0, |s.grid| - r, |s.grid| - c, 1
  {
    hide Evaluation, PureValue, PureScan, MinimaxValue, ChildValue;
    if r == |s.grid| {
    } else if c == |s.grid| {
      ScanFinite(play, s, me, depth, alpha, beta, maximizing, r + 1, 0, best);
    } else if !Legal(s.grid, Pos(r, c)) {
      ScanFinite(play, s, me, depth, alpha, beta, maximizing, r, c + 1, best);
    } else {
      ScanFiniteAt(play, s, me, depth, alpha, beta, maximizing, r, c, best);
    }
  }

  /** `ScanFinite` at an empty cell: the child's value is finite, so the best value
      becomes finite. */
  lemma {:induction false} ScanFiniteAt(play: Step, s: State, me: int, depth: int, alpha: Ext, beta: Ext, maximizing: bool,
                                        r: nat, c: nat, best: Ext)
    requires Shrinks(play) && IsSquare(s.grid) && IsPlayer(me) && r < |s.grid| && c < |s.grid|
    requires Legal(s.grid, Pos(r, c))
    requires if maximizing then !best.PosInf? else !best.NegInf?
    ensures Scan(play, s, me, depth, alpha, beta, maximizing, r, c, best).Fin?
    decreases LegalCount(s.grid), 0, |s.grid| - r, |s.grid| - c, 0
  {
    hide Evaluation, PureValue, PureScan, MinimaxValue, Scan;
    var mover := if maximizing then me else Opponent(me);
    MinimaxFinite(play, play(s, Pos(r, c), mover), me, depth - 1, alpha, beta, !maximizing);
    ScanAt(play, s, me, depth, alpha, beta, maximizing, r, c, best);
    var v := ChildValue(play, s, me, Pos(r, c), depth, alpha, beta, maximizing);
    var best' := if maximizing then EMax(best, v) else EMin(best, v);
    var alpha' := if maximizing then EMax(alpha, v) else alpha;
    var beta' := if maximizing then beta else EMin(beta, v);
    if !ELe(beta', alpha') {
      ScanFinite(play, s, me, depth, alpha', beta', maximizing, r, c + 1, best');
    }
  }

  /** The pruned scan passes over a filled cell, moves on at the end of a row, and
      returns its best value at the end of the board. */
  lemma ScanPass(play: Step, s: State, me: int, depth: int, alpha: Ext, beta: Ext, maximizing: bool,
                 r: nat, c: nat, best: Ext)
    requires Shrinks(play) && IsSquare(s.grid) && IsPlayer(me) && r <= |s.grid| && c <= |s.grid|
    requires !(r < |s.grid| && c < |s.grid| && Legal(s.grid, Pos(r, c)))
    ensures Scan(play, s, me, depth, alpha, beta, maximizing, r, c, best)
         == if r == |s.grid| then best
            else if c == |s.grid| then Scan(play, s, me, depth, alpha, beta, maximizing, r + 1, 0, best)
            else Scan(play, s, me, depth, alpha, beta, maximizing, r, c + 1, best)
  {
    hide Evaluation, MinimaxValue, ChildValue;
  }

  /** One step of the pruned scan at an empty cell: the child is searched, the
      window narrowed, and the scan goes on or cuts off. */
  lemma ScanAt(play: Step, s: State, me: int, depth: int, alpha: Ext, beta: Ext, maximizing: bool,
               r: nat, c: nat, best: Ext)
    requires Shrinks(play) && IsSquare(s.grid) && IsPlayer(me) && r < |s.grid| && c < |s.grid|
    requires Legal(s.grid, Pos(r, c))
    ensures var v := ChildValue(play, s, me, Pos(r, c), depth, alpha, beta, maximizing);
      var best' := if maximizing then EMax(best, v) else EMin(best, v);
      var alpha' := if maximizing then EMax(alpha, v) else alpha;
      var beta' := if maximizing then beta else EMin(beta, v);
      Scan(play, s, me, depth, alpha, beta, maximizing, r, c, best)
      == if ELe(beta', alpha') then best'
         else Scan(play, s, me, depth, alpha', beta', maximizing, r, c + 1, best')
  {
    hide Evaluation, MinimaxValue, ChildValue;
  }

  /** The plain minimax value, every move searched: the reference the pruned
      search is proved against. */
  ghost function PureValue(play: Step, s: State, me: int, depth: int, maximizing: bool): Ext
    requires Shrinks(play) && IsSquare(s.grid) && IsPlayer(me)
    decreases LegalCount(s.grid), 1, 0, 0
  {
    if depth == 0 || IsFull(s.grid) then Fin(Evaluation(s, me))
    else PureScan(play, s, me, depth, maximizing, 0, 0, if maximizing then NegInf else PosInf)
  }

  /** The best (for `me` when maximizing, for the enemy otherwise) of `acc` and the
      plain values of the moves from cell (r, c) on. */
  ghost function PureScan(play: Step, s: State, me: int, depth: int, maximizing: bool, r: nat, c: nat, acc: Ext): Ext
    requires Shrinks(play) && IsSquare(s.grid) && IsPlayer(me) && r <= |s.grid| && c <= |s.grid|
    decreases LegalCount(s.grid), 0, |s.grid| - r, |s.grid| - c
  {
    if r == |s.grid| then acc
    else if c == |s.grid| then PureScan(play, s, me, depth, maximizing, r + 1, 0, acc)
    else if !Legal(s.grid, Pos(r, c)) then PureScan(play, s, me, depth, maximizing, r, c + 1, acc)
    else
      var mover := if maximizing then me else Opponent(me);
      var p := PureValue(play, play(s, Pos(r, c), mover), me, depth - 1, !maximizing);
      PureScan(play, s, me, depth, maximizing, r, c + 1, if maximizing then EMax(acc, p) else EMin(acc, p))
  }

  /** One step of the plain scan at an empty cell. */
  lemma PureScanAt(play: Step, s: State, me: int, depth: int, maximizing: bool, r: nat, c: nat, acc: Ext)
    requires Shrinks(play) && IsSquare(s.grid) && IsPlayer(me) && r < |s.grid| && c < |s.grid|
    requires Legal(s.grid, Pos(r, c))
    ensures var mover := if maximizing then me else Opponent(me);
      var p := PureValue(play, play(s, Pos(r, c), mover), me, depth - 1, !maximizing);
      PureScan(play, s, me, depth, maximizing, r, c, acc)
      == PureScan(play, s, me, depth, maximizing, r, c + 1, if maximizing then EMax(acc, p) else EMin(acc, p))
  {
    hide Evaluation, PureValue;
  }

  /** The plain scan only improves on its start value. */
  lemma {:induction false} PureScanMono(play: Step, s: State, me: int, depth: int, maximizing: bool, r: nat, c: nat, acc: Ext)
    requires Shrinks(play) && IsSquare(s.grid) && IsPlayer(me) && r <= |s.grid| && c <= |s.grid|
    ensures var x := PureScan(play, s, me, depth, maximizing, r, c, acc);
      if maximizing then ELe(acc, x) else ELe(x, acc)
    decreases |s.grid| - r, |s.grid| - c
  {
    hide Evaluation, MinimaxValue, Scan, ChildValue;
    if r == |s.grid| {
    } else if c == |s.grid| {
      PureScanMono(play, s, me, depth, maximizing, r + 1, 0, acc);
    } else if !Legal(s.grid, Pos(r, c)) {
      PureScanMono(play, s, me, depth, maximizing, r, c + 1, acc);
    } else {
      var mover := if maximizing then me else Opponent(me);
      var p := PureValue(play, play(s, Pos(r, c), mover), me, depth - 1, !maximizing);
      PureScanMono(play, s, me, depth, maximizing, r, c + 1, if maximizing then EMax(acc, p) else EMin(acc, p));
    }
  }

  /** Alpha-beta is correct: inside any non-empty window the pruned value and the
      plain minimax value agree once clipped to the window. */
  lemma {:induction false} AlphaBeta(play: Step, s: State, me: int, depth: int, alpha: Ext, beta: Ext, maximizing: bool)
    requires Shrinks(play) && IsSquare(s.grid) && IsPlayer(me) && EGt(beta, alpha)
    ensures Clamp(MinimaxValue(play, s, me, depth, alpha, beta, maximizing), alpha, beta)
         == Clamp(PureValue(play, s, me, depth, maximizing), alpha, beta)
    decreases LegalCount(s.grid), 1, 0, 0, 0
  {
    hide Evaluation, Scan, PureScan, ChildValue;
    if !(depth == 0 || IsFull(s.grid)) {
      if maximizing {
        AlphaBetaMax(play, s, me, depth, alpha, beta, 0, 0, alpha, NegInf, NegInf);
      } else {
        AlphaBetaMin(play, s, me, depth, alpha, beta, 0, 0, beta, PosInf, PosInf);
      }
    }
  }

  /** The maximizing scan: with `alpha` the window's low end raised by the best value
      `v` found so far, and `u` the plain best so far agreeing with `v` above `alpha0`,
      the rest of the scan keeps the two in agreement within [alpha0, beta]. */
  lemma {:induction false} AlphaBetaMax(play: Step, s: State, me: int, depth: int, alpha0: Ext, beta: Ext,
                                        r: nat, c: nat, alpha: Ext, v: Ext, u: Ext)
    requires Shrinks(play) && IsSquare(s.grid) && IsPlayer(me) && r <= |s.grid| && c <= |s.grid|
    requires EGt(beta, alpha0) && alpha == EMax(alpha0, v) && EGt(beta, alpha) && EMax(alpha0, u) == alpha
    ensures Clamp(Scan(play, s, me, depth, alpha, beta, true, r, c, v), alpha0, beta)
         == Clamp(PureScan(play, s, me, depth, true, r, c, u), alpha0, beta)
    decreases LegalCount(s.grid), 0, |s.grid| - r, |s.grid| - c, 1
  {
    hide Evaluation, MinimaxValue, PureValue, ChildValue;
    if r == |s.grid| {
    } else if c == |s.grid| {
      AlphaBetaMax(play, s, me, depth, alpha0, beta, r + 1, 0, alpha, v, u);
    } else if !Legal(s.grid, Pos(r, c)) {
      AlphaBetaMax(play, s, me, depth, alpha0, beta, r, c + 1, alpha, v, u);
    } else {
      AlphaBetaMaxAt(play, s, me, depth, alpha0, beta, r, c, alpha, v, u);
    }
  }

  /** `AlphaBetaMax` at a legal cell: the child is searched and the scan goes on or
      cuts off. */
  lemma {:induction false} AlphaBetaMaxAt(play: Step, s: State, me: int, depth: int, alpha0: Ext, beta: Ext,
                                          r: nat, c: nat, alpha: Ext, v: Ext, u: Ext)
    requires Shrinks(play) && IsSquare(s.grid) && IsPlayer(me) && r < |s.grid| && c < |s.grid|
    requires Legal(s.grid, Pos(r, c))
    requires EGt(beta, alpha0) && alpha == EMax(alpha0, v) && EGt(beta, alpha) && EMax(alpha0, u) == alpha
    ensures Clamp(Scan(play, s, me, depth, alpha, beta, true, r, c, v), alpha0, beta)
         == Clamp(PureScan(play, s, me, depth, true, r, c, u), alpha0, beta)
    decreases LegalCount(s.grid), 0, |s.grid| - r, |s.grid| - c, 0
  {
    hide Evaluation, MinimaxValue, PureValue, Scan, PureScan;
    var t := play(s, Pos(r, c), me);
    AlphaBeta(play, t, me, depth - 1, alpha, beta, false);
    var ab := MinimaxValue(play, t, me, depth - 1, alpha, beta, false);
    var p := PureValue(play, t, me, depth - 1, false);
    var v', alpha', u' := EMax(v, ab), EMax(alpha, ab), EMax(u, p);
    assert ChildValue(play, s, me, Pos(r, c), depth, alpha, beta, true) == ab;
    ScanAt(play, s, me, depth, alpha, beta, true, r, c, v);
    PureScanAt(play, s, me, depth, true, r, c, u);
    MaxStep(alpha0, beta, alpha, v, u, ab, p);
    if ELe(beta, alpha') {
      PureScanMono(play, s, me, depth, true, r, c + 1, u');
      ClampTop(v', alpha0, beta);
      ClampTop(PureScan(play, s, me, depth, true, r, c + 1, u'), alpha0, beta);
    } else {
      AlphaBetaMax(play, s, me, depth, alpha0, beta, r, c + 1, alpha', v', u');
    }
  }

  /** The minimizing scan, the mirror image of `AlphaBetaMax`. */
  lemma {:induction false} AlphaBetaMin(play: Step, s: State, me: int, depth: int, alpha: Ext, beta0: Ext,
                                        r: nat, c: nat, beta: Ext, v: Ext, u: Ext)
    requires Shrinks(play) && IsSquare(s.grid) && IsPlayer(me) && r <= |s.grid| && c <= |s.grid|
    requires EGt(beta0, alpha) && beta == EMin(beta0, v) && EGt(beta, alpha) && EMin(beta0, u) == beta
    ensures Clamp(Scan(play, s, me, depth, alpha, beta, false, r, c, v), alpha, beta0)
         == Clamp(PureScan(play, s, me, depth, false, r, c, u), alpha, beta0)
    decreases LegalCount(s.grid), 0, |s.grid| - r, |s.grid| - c, 1
  {
    hide Evaluation, MinimaxValue, PureValue, ChildValue;
    if r == |s.grid| {
    } else if c == |s.grid| {
      AlphaBetaMin(play, s, me, depth, alpha, beta0, r + 1, 0, beta, v, u);
    } else if !Legal(s.grid, Pos(r, c)) {
      AlphaBetaMin(play, s, me, depth, alpha, beta0, r, c + 1, beta, v, u);
    } else {
      AlphaBetaMinAt(play, s, me, depth, alpha, beta0, r, c, beta, v, u);
    }
  }

  /** `AlphaBetaMin` at a legal cell. */
  lemma {:induction false} AlphaBetaMinAt(play: Step, s: State, me: int, depth: int, alpha: Ext, beta0: Ext,
                                          r: nat, c: nat, beta: Ext, v: Ext, u: Ext)
    requires Shrinks(play) && IsSquare(s.grid) && IsPlayer(me) && r < |s.grid| && c < |s.grid|
    requires Legal(s.grid, Pos(r, c))
    requires EGt(beta0, alpha) && beta == EMin(beta0, v) && EGt(beta, alpha) && EMin(beta0, u) == beta
    ensures Clamp(Scan(play, s, me, depth, alpha, beta, false, r, c, v), alpha, beta0)
         == Clamp(PureScan(play, s, me, depth, false, r, c, u), alpha, beta0)
    decreases LegalCount(s.grid), 0, |s.grid| - r, |s.grid| - c, 0
  {
    hide Evaluation, MinimaxValue, PureValue, Scan, PureScan;
    var t := play(s, Pos(r, c), Opponent(me));
    AlphaBeta(play, t, me, depth - 1, alpha, beta, true);
    var ab := MinimaxValue(play, t, me, depth - 1, alpha, beta, true);
    var p := PureValue(play, t, me, depth - 1, true);
    var v', beta', u' := EMin(v, ab), EMin(beta, ab), EMin(u, p);
    assert ChildValue(play, s, me, Pos(r, c), depth, alpha, beta, false) == ab;
    ScanAt(play, s, me, depth, alpha, beta, false, r, c, v);
    PureScanAt(play, s, me, depth, false, r, c, u);
    MinStep(alpha, beta0, beta, v, u, ab, p);
    if ELe(beta', alpha) {
      PureScanMono(play, s, me, depth, false, r, c + 1, u');
      ClampBottom(v', alpha, beta0);
      ClampBottom(PureScan(play, s, me, depth, false, r, c + 1, u'), alpha, beta0);
    } else {
      AlphaBetaMin(play, s, me, depth, alpha, beta0, r, c + 1, beta', v', u');
    }
  }

  /** With the full window `float('-inf'), float('inf')` that `get_move` passes, the
      pruned search returns exactly the plain minimax value. */
  lemma MinimaxExact(play: Step, s: State, me: int, depth: int, maximizing: bool)
    requires Shrinks(play) && IsSquare(s.grid) && IsPlayer(me)
    ensures MinimaxValue(play, s, me, depth, NegInf, PosInf, maximizing) == PureValue(play, s, me, depth, maximizing)
  {
    AlphaBeta(play, s, me, depth, NegInf, PosInf, maximizing);
    ClampFull(MinimaxValue(play, s, me, depth, NegInf, PosInf, maximizing));
    ClampFull(PureValue(play, s, me, depth, maximizing));
  }

  /** Each move of `ms` paired with the score `p` reaches by its trial. */
  ghost function Trials(play: Step, s: State, ms: seq<Pos>, p: int): seq<(Pos, int)>
  {
    seq(|ms|, k requires 0 <= k < |ms| => (ms[k], Score(play(s, ms[k], p), p)))
  }

  /** `capture_moves` (and `defensive_moves`): the trials, in order, whose score
      beats `current`. */
  function Gains(ts: seq<(Pos, int)>, current: int): (gs: seq<(Pos, int)>)
    ensures forall x :: x in gs <==> x in ts && x.1 > current
  {
    if ts == [] then []
    else
      var n := |ts| - 1;
      assert forall x :: x in ts <==> x in ts[..n] || x == ts[n];
      Gains(ts[..n], current) + (if ts[n].1 > current then [ts[n]] else [])
  }

  lemma GainsStep(ts: seq<(Pos, int)>, current: int, i: nat)
    requires i < |ts|
    ensures Gains(ts[..i + 1], current) == Gains(ts[..i], current) + (if ts[i].1 > current then [ts[i]] else [])
  {
    assert ts[..i + 1][..i] == ts[..i];
  }

  /** `sort(key=score, reverse=True)[0]`: Python's sort is stable, so the head is the
      first entry whose score is the largest. Its index is returned. */
  function FirstMax(cs: seq<(Pos, int)>): (k: nat)
    requires cs != []
    ensures k < |cs|
    ensures forall j :: 0 <= j < |cs| ==> cs[j].1 <= cs[k].1
    ensures forall j :: 0 <= j < k ==> cs[j].1 < cs[k].1
  {
    if |cs| == 1 then 0
    else
      var k := FirstMax(cs[..|cs| - 1]);
      assert forall j :: 0 <= j < |cs| - 1 ==> cs[..|cs| - 1][j] == cs[j];
      if cs[|cs| - 1].1 > cs[k].1 then |cs| - 1 else k
  }

  /** The values the last phase of `get_move` gives the legal moves `ms`: each move
      tried for `me`, then a minimizing search one level shallower. */
  ghost function Values(play: Step, s: State, me: int, depth: int, ms: seq<Pos>): seq<Ext>
    requires Shrinks(play) && IsSquare(s.grid) && IsPlayer(me)
    requires forall q :: q in ms ==> InBounds(|s.grid|, q) && Legal(s.grid, q)
  {
    seq(|ms|, k requires 0 <= k < |ms| => ChildValue(play, s, me, ms[k], depth, NegInf, PosInf, true))
  }

  /** The value of the i-th move of the list, and the list's length. */
  lemma ValuesAt(play: Step, s: State, me: int, depth: int, ms: seq<Pos>, i: nat)
    requires Shrinks(play) && IsSquare(s.grid) && IsPlayer(me)
    requires forall q :: q in ms ==> InBounds(|s.grid|, q) && Legal(s.grid, q)
    ensures |Values(play, s, me, depth, ms)| == |ms|
    ensures i < |ms| ==> Values(play, s, me, depth, ms)[i] == ChildValue(play, s, me, ms[i], depth, NegInf, PosInf, true)
  {
  }

  /** `get_move` on the state `s`. The two random draws are parameters: `explore`
      says whether `random.random() < 0.15` held, and `pick` is the index that
      `random.choice` takes, reduced modulo the length of the list it chooses from. */
  ghost function ChooseMove(play: Step, s: State, me: int, depth: int, explore: bool, pick: nat): Option<Pos>
    requires Shrinks(play) && IsSquare(s.grid) && IsPlayer(me)
  {
    var ms := LegalMoves(s.grid);
    if ms == [] then None
    else
      var caps := Gains(Trials(play, s, ms, me), Score(s, me));
      if caps != [] then Some(caps[FirstMax(caps)].0)
      else
        var e := Opponent(me);
        var defs := Gains(Trials(play, s, ms, e), Score(s, e));
        if defs != [] then Some(defs[FirstMax(defs)].0)
        else if explore then Some(ms[pick % |ms|])
        else
          var vs := Values(play, s, me, depth, ms);
          var ties := Ties(ms, vs, Top(vs));
          if ties == [] then None else Some(ties[pick % |ties|])
  }

  /** The player answers a move exactly when the board is not full, and the move
      is always legal. */
  lemma ChooseMoveLegal(play: Step, s: State, me: int, depth: int, explore: bool, pick: nat)
    requires Shrinks(play) && IsSquare(s.grid) && IsPlayer(me)
    ensures ChooseMove(play, s, me, depth, explore, pick).None? <==> IsFull(s.grid)
    ensures ChooseMove(play, s, me, depth, explore, pick).Some? ==>
      Legal(s.grid, ChooseMove(play, s, me, depth, explore, pick).value)
  {
    var ms := LegalMoves(s.grid);
    if ms != [] {
      var e := Opponent(me);
      var caps := Gains(Trials(play, s, ms, me), Score(s, me));
      var defs := Gains(Trials(play, s, ms, e), Score(s, e));
      GainsLegal(play, s, ms, me);
      GainsLegal(play, s, ms, e);
      if caps != [] {
        assert caps[FirstMax(caps)] in caps;
      } else if defs != [] {
        assert defs[FirstMax(defs)] in defs;
      } else if explore {
        assert ms[pick % |ms|] in ms;
      } else {
        var vs := Values(play, s, me, depth, ms);
        TopTies(ms, vs);
        var ties := Ties(ms, vs, Top(vs));
        assert ties[pick % |ties|] in ties;
      }
    }
  }

  /** Every entry of a gains list is a legal move with the score its trial reaches. */
  lemma GainsLegal(play: Step, s: State, ms: seq<Pos>, p: int)
    requires IsSquare(s.grid) && ms == LegalMoves(s.grid)
    ensures forall x :: x in Gains(Trials(play, s, ms, p), Score(s, p)) ==>
      Legal(s.grid, x.0) && x.1 == Score(play(s, x.0, p), p) && x.1 > Score(s, p)
  {
    var ts := Trials(play, s, ms, p);
    forall x | x in Gains(ts, Score(s, p))
      ensures Legal(s.grid, x.0) && x.1 == Score(play(s, x.0, p), p)
    {
      var k :| 0 <= k < |ts| && ts[k] == x;
      assert ms[k] in ms;
    }
  }

  /** The head of a non-empty gains list beats every legal move's trial score. */
  lemma GainsBest(play: Step, s: State, ms: seq<Pos>, p: int, q: Pos)
    requires IsSquare(s.grid) && ms == LegalMoves(s.grid)
    requires Legal(s.grid, q) && Score(play(s, q, p), p) > Score(s, p)
    ensures var gs := Gains(Trials(play, s, ms, p), Score(s, p));
      gs != [] && Legal(s.grid, gs[FirstMax(gs)].0)
      && Score(play(s, q, p), p) <= Score(play(s, gs[FirstMax(gs)].0, p), p)
  {
    var ts := Trials(play, s, ms, p);
    var gs := Gains(ts, Score(s, p));
    var i :| 0 <= i < |ms| && ms[i] == q;
    assert ts[i] in ts;
    assert ts[i] in gs;
    var k :| 0 <= k < |gs| && gs[k] == ts[i];
    var b := FirstMax(gs);
    assert gs[k].1 <= gs[b].1;
    GainsLegal(play, s, ms, p);
    assert gs[b] in gs;
  }

  /** When some move raises the player's own score, it plays one that raises it the
      most. */
  lemma ChooseMoveCaptures(play: Step, s: State, me: int, depth: int, explore: bool, pick: nat, q: Pos)
    requires Shrinks(play) && IsSquare(s.grid) && IsPlayer(me)
    requires Legal(s.grid, q) && Score(play(s, q, me), me) > Score(s, me)
    ensures var m := ChooseMove(play, s, me, depth, explore, pick);
      m.Some? && Legal(s.grid, m.value)
      && Score(play(s, q, me), me) <= Score(play(s, m.value, me), me)
  {
    GainsBest(play, s, LegalMoves(s.grid), me, q);
  }

  /** When no move raises its own score but some enemy move would raise the
      enemy's, it takes a point on which the enemy would gain the most. */
  lemma ChooseMoveBlocks(play: Step, s: State, me: int, depth: int, explore: bool, pick: nat, q: Pos)
    requires Shrinks(play) && IsSquare(s.grid) && IsPlayer(me)
    requires forall x :: Legal(s.grid, x) ==> Score(play(s, x, me), me) <= Score(s, me)
    requires Legal(s.grid, q) && Score(play(s, q, Opponent(me)), Opponent(me)) > Score(s, Opponent(me))
    ensures var m := ChooseMove(play, s, me, depth, explore, pick);
      var e := Opponent(me);
      m.Some? && Legal(s.grid, m.value)
      && Score(play(s, q, e), e) <= Score(play(s, m.value, e), e)
  {
    var ms := LegalMoves(s.grid);
    NoGains(play, s, ms, me);
    GainsBest(play, s, ms, Opponent(me), q);
  }

  /** No gains list when no trial raises the score. */
  lemma NoGains(play: Step, s: State, ms: seq<Pos>, p: int)
    requires IsSquare(s.grid) && ms == LegalMoves(s.grid)
    requires forall x :: Legal(s.grid, x) ==> Score(play(s, x, p), p) <= Score(s, p)
    ensures Gains(Trials(play, s, ms, p), Score(s, p)) == []
  {
    var gs := Gains(Trials(play, s, ms, p), Score(s, p));
    if gs != [] {
      assert gs[0] in gs;
      GainsLegal(play, s, ms, p);
    }
  }

  /** With nothing to capture or block and no random move, the move played has the
      best minimax value among all legal moves: the value the pruned search gives
      each move is its exact, unpruned minimax value. */
  lemma ChooseMoveSearches(play: Step, s: State, me: int, depth: int, pick: nat, q: Pos)
    requires Shrinks(play) && IsSquare(s.grid) && IsPlayer(me)
    requires forall x :: Legal(s.grid, x) ==> Score(play(s, x, me), me) <= Score(s, me)
    requires forall x :: Legal(s.grid, x) ==> Score(play(s, x, Opponent(me)), Opponent(me)) <= Score(s, Opponent(me))
    requires Legal(s.grid, q)
    ensures var m := ChooseMove(play, s, me, depth, false, pick);
      m.Some? && Legal(s.grid, m.value)
      && ELe(PureValue(play, play(s, q, me), me, depth - 1, false),
             PureValue(play, play(s, m.value, me), me, depth - 1, false))
  {
    hide Values, Trials, Gains, Evaluation, MinimaxValue, PureValue, Scan, PureScan;
    var ms := LegalMoves(s.grid);
    assert q in ms;
    NoGains(play, s, ms, me);
    NoGains(play, s, ms, Opponent(me));
    var vs := Values(play, s, me, depth, ms);
    ValuesAt(play, s, me, depth, ms, 0);
    var top := Top(vs);
    TopTies(ms, vs);
    var ties := Ties(ms, vs, top);
    var m := ties[pick % |ties|];
    assert ChooseMove(play, s, me, depth, false, pick) == Some(m);
    assert m in ties;
    var j :| 0 <= j < |ms| && ms[j] == m && vs[j] == top;
    var i :| 0 <= i < |ms| && ms[i] == q;
    assert ELe(vs[i], top);
    ValuesAt(play, s, me, depth, ms, i);
    ValuesAt(play, s, me, depth, ms, j);
    MinimaxExact(play, play(s, q, me), me, depth - 1, false);
    MinimaxExact(play, play(s, m, me), me, depth - 1, false);
  }

  /** The computer player: `player_id` and the search `depth`. */
  class AIPlayer {
    const id: int
    const depth: int

    constructor (id: int, depth: int := 3)
      requires IsPlayer(id)
      ensures this.id == id && this.depth == depth
    {
      this.id := id;
      this.depth := depth;
    }

    /** `evaluate_board(game)` without the noise. */
    method Evaluate(game: Game) returns (score: int)
      requires game.Valid() && IsPlayer(id)
      ensures score == Evaluation(game.Snap(), id)
    {
      hide Neighbors;
      var enemy := 3 - id;
      score := 5000 * Score(game.Snap(), id) - 4000 * Score(game.Snap(), enemy);
      ghost var base := score;
      ghost var f := Worth(game.grid, id);
      for r := 0 to game.n
        invariant score == base + SumUpTo(game.n, f, r, 0)
      {
        for c := 0 to game.n
          invariant score == base + SumUpTo(game.n, f, r, c)
        {
          var cell := game.grid[r][c];
          if cell.captured {
            continue;
          }
          if cell.owner == id {
            var mine := game.GetNeighbors(Pos(r, c), id);
            var theirs := game.GetNeighbors(Pos(r, c), enemy);
            score := score + ShapeBonus(|mine|);
            if |theirs| > 0 {
              score := score + 50;
            }
          } else if cell.owner == enemy {
            var theirs := game.GetNeighbors(Pos(r, c), enemy);
            var mine := game.GetNeighbors(Pos(r, c), id);
            if |theirs| >= 3 {
              score := score - 100;
            }
            if |mine| >= 2 && |theirs| <= |mine| {
              score := score + 200;
            }
            if |mine| >= 3 {
              score := score + 350;
            }
          }
        }
      }
    }

    /** `minimax(game, depth, alpha, beta, maximizing)`: every trial is undone, and
        the value is the one the search defines. */
    method Minimax(game: Game, depth: int, alpha: Ext, beta: Ext, maximizing: bool) returns (v: Ext)
      requires game.Valid() && IsPlayer(id)
      modifies game`grid, game`score1, game`score2, game`areas
      ensures game.Valid() && game.Snap() == old(game.Snap())
      ensures v == MinimaxValue(Trial(), old(game.Snap()), id, depth, alpha, beta, maximizing)
      ensures depth == 0 || IsFull(old(game.grid)) ==> v == Fin(Evaluation(old(game.Snap()), id))
      decreases LegalCount(game.grid), 1
    {
      hide Play, Scan, Evaluation, ChildValue, PureValue, PureScan;
      var full := game.CheckFull();
      if depth == 0 || full {
        var e := Evaluate(game);
        return Fin(e);
      }
      assert !(depth == 0 || IsFull(old(game.grid)));
      ghost var s := game.Snap();
      var a, b := alpha, beta;
      v := if maximizing then NegInf else PosInf;
      for r := 0 to game.n
        invariant game.Valid() && game.Snap() == s
        invariant Scan(Trial(), s, id, depth, a, b, maximizing, r, 0, v) == MinimaxValue(Trial(), s, id, depth, alpha, beta, maximizing)
      {
        for c := 0 to game.n
          invariant game.Valid() && game.Snap() == s
          invariant Scan(Trial(), s, id, depth, a, b, maximizing, r, c, v) == MinimaxValue(Trial(), s, id, depth, alpha, beta, maximizing)
        {
          if game.grid[r][c].owner == Nobody && !game.grid[r][c].captured {
            ScanAt(Trial(), s, id, depth, a, b, maximizing, r, c, v);
            var ev := Child(game, Pos(r, c), depth, a, b, maximizing);
            if maximizing {
              v := EMax(v, ev);
              a := EMax(a, ev);
            } else {
              v := EMin(v, ev);
              b := EMin(b, ev);
            }
            if ELe(b, a) {
              return;
            }
          } else {
            ScanPass(Trial(), s, id, depth, a, b, maximizing, r, c, v);
          }
        }
        ScanPass(Trial(), s, id, depth, a, b, maximizing, r, game.n, v);
      }
      ScanPass(Trial(), s, id, depth, a, b, maximizing, game.n, 0, v);
    }

    /** One trial of `minimax` or `get_move`: snapshot, a dot of the player to move
        on `q` with its captures, the deeper search, restore. */
    method Child(game: Game, q: Pos, depth: int, alpha: Ext, beta: Ext, maximizing: bool) returns (v: Ext)
      requires game.Valid() && IsPlayer(id) && InBounds(game.n, q) && Legal(game.grid, q)
      modifies game`grid, game`score1, game`score2, game`areas
      ensures game.Valid() && game.Snap() == old(game.Snap())
      ensures v == ChildValue(Trial(), old(game.Snap()), id, q, depth, alpha, beta, maximizing)
      decreases LegalCount(game.grid), 0
    {
      hide Play;
      var snap := game.Snapshot();
      var mover := if maximizing then id else 3 - id;
      TrialMove(game, q, mover);
      ghost var t := game.Snap();
      v := Minimax(game, depth - 1, alpha, beta, !maximizing);
      assert v == MinimaxValue(Trial(), t, id, depth - 1, alpha, beta, !maximizing);
      game.Restore(snap);
    }

    /** The trial move of `get_move` and `minimax`: the owner written, then
        `check_for_cycles_around` with its captures, scores and fences. */
    method TrialMove(game: Game, q: Pos, p: int)
      requires game.Valid() && InBounds(game.n, q) && IsPlayer(p)
      modifies game`grid, game`score1, game`score2, game`areas
      ensures game.Valid() && game.Snap() == Trial()(old(game.Snap()), q, p)
    {
      hide FindCycleStep;
      ghost var snap := game.Snap();
      game.grid := SetOwner(game.grid, q, p);
      ghost var placed := game.Snap();
      assert placed == Place(snap, q, p);
      game.CheckForCyclesAround(q);
      TrialIsPlay(snap, q, p);
    }

    /** The score `p` reaches by playing `q`, the board then restored. */
    method TrialScore(game: Game, q: Pos, p: int) returns (score: int)
      requires game.Valid() && InBounds(game.n, q) && IsPlayer(p)
      modifies game`grid, game`score1, game`score2, game`areas
      ensures game.Valid() && game.Snap() == old(game.Snap())
      ensures score == Score(Trial()(old(game.Snap()), q, p), p)
    {
      hide Play;
      var snap := game.Snapshot();
      TrialMove(game, q, p);
      score := if p == 1 then game.score1 else game.score2;
      game.Restore(snap);
    }

    /** The capture loop (for `p` the player) or the defence loop (for `p` the
        enemy) of `get_move`. */
    method GainsOf(game: Game, ms: seq<Pos>, p: int) returns (gs: seq<(Pos, int)>)
      requires game.Valid() && IsPlayer(p)
      requires forall q :: q in ms ==> InBounds(game.n, q)
      modifies game`grid, game`score1, game`score2, game`areas
      ensures game.Valid() && game.Snap() == old(game.Snap())
      ensures gs == Gains(Trials(Trial(), old(game.Snap()), ms, p), Score(old(game.Snap()), p))
    {
      hide Play;
      ghost var s := game.Snap();
      ghost var ts := Trials(Trial(), s, ms, p);
      var current := if p == 1 then game.score1 else game.score2;
      gs := [];
      for i := 0 to |ms|
        invariant game.Valid() && game.Snap() == s
        invariant gs == Gains(ts[..i], current)
      {
        var score := TrialScore(game, ms[i], p);
        GainsStep(ts, current, i);
        if score > current {
          gs := gs + [(ms[i], score)];
        }
      }
      assert ts[..|ts|] == ts;
    }

    /** `get_move(game)`. The random draws are the parameters `explore` and `pick`. */
    method GetMove(game: Game, explore: bool, pick: nat) returns (move: Option<Pos>)
      requires game.Valid() && IsPlayer(id)
      modifies game`grid, game`score1, game`score2, game`areas
      ensures game.Valid() && game.Snap() == old(game.Snap())
      ensures move == ChooseMove(Trial(), old(game.Snap()), id, depth, explore, pick)
    {
      hide Play;
      var ms := PossibleMoves(game);
      if ms == [] {
        return None;
      }
      var caps := GainsOf(game, ms, id);
      if caps != [] {
        var k := FirstMax(caps);
        return Some(caps[k].0);
      }
      var defs := GainsOf(game, ms, 3 - id);
      if defs != [] {
        var k := FirstMax(defs);
        return Some(defs[k].0);
      }
      if explore {
        return Some(ms[pick % |ms|]);
      }
      var ties := BestMoves(game, ms);
      if ties == [] {
        return None;
      }
      return Some(ties[pick % |ties|]);
    }

    /** The last loop of `get_move`: `best_moves`, the moves of best minimax value. */
    method BestMoves(game: Game, ms: seq<Pos>) returns (best: seq<Pos>)
      requires game.Valid() && IsPlayer(id)
      requires forall q :: q in ms ==> InBounds(game.n, q) && Legal(game.grid, q)
      modifies game`grid, game`score1, game`score2, game`areas
      ensures game.Valid() && game.Snap() == old(game.Snap())
      ensures var vs := Values(Trial(), old(game.Snap()), id, depth, ms); best == Ties(ms, vs, Top(vs))
    {
      hide Play;
      ghost var s := game.Snap();
      ghost var vs := Values(Trial(), s, id, depth, ms);
      var bestScore := NegInf;
      best := [];
      for i := 0 to |ms|
        invariant game.Valid() && game.Snap() == s
        invariant bestScore == Top(vs[..i]) && best == Ties(ms[..i], vs[..i], bestScore)
      {
        var score := Child(game, ms[i], depth, NegInf, PosInf, true);
        assert score == vs[i];
        TopStep(vs, i);
        TiesStep(ms, vs, bestScore, i);
        if EGt(score, bestScore) {
          TiesAbsent(ms[..i], vs[..i], score);
          TiesStep(ms, vs, score, i);
          bestScore := score;
          best := [ms[i]];
        } else if score == bestScore {
          best := best + [ms[i]];
        }
      }
      assert ms[..|ms|] == ms && vs[..|vs|] == vs;
    }
  }
}
