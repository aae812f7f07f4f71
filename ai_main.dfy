/** The computer player of `main.py` (N = 5): an evaluation by points and
    connectedness, an alpha-beta minimax whose trial moves only write an owner and
    reset it to 0 (no capture runs), and a move choice that plays a random point
    while more than 80% of the board is free and otherwise the first move of best
    minimax value. */
module MainAi {
  import opened Grid
  import opened Rules
  import opened Engine
  import opened Search

  /** `LOGICAL_GRID_SIZE` of this version. */
  const Size: nat := 5

  /** What the cell (i, j) adds: ten per same-owner uncaptured neighbour of every dot
      of `me`, captured or not. */
  function Links(g: Board, me: int): (int, int) -> int
    requires IsSquare(g)
  {
    (i, j) => if 0 <= i < |g| && 0 <= j < |g| && g[i][j].owner == me then 10 * |Neighbors(g, Pos(i, j), me)| else 0
  }

  /** `evaluate_board`: 100 per own point, -110 per enemy point, plus the links. */
  function Evaluation(s: State, me: int): int
    requires IsSquare(s.grid) && IsPlayer(me)
  {
    100 * Score(s, me) - 110 * Score(s, Opponent(me)) + SumUpTo(|s.grid|, Links(s.grid, me), |s.grid|, 0)
  }

  /** The link part of the evaluation lies between 0 and 80 per cell of the board. */
  lemma EvaluationBounds(s: State, me: int)
    requires IsSquare(s.grid) && IsPlayer(me)
    ensures var n := |s.grid|;
      var base := 100 * Score(s, me) - 110 * Score(s, Opponent(me));
      base <= Evaluation(s, me) <= base + 80 * (n * n)
  {
    var n := |s.grid|;
    SumBounds(n, Links(s.grid, me), 0, 80, n, 0);
  }

  /** On the 5-by-5 board of this version the link part of the evaluation is
      confined to a fixed band above the points term. */
  lemma EvaluationOnBoard(s: State, me: int)
    requires IsSquare(s.grid) && |s.grid| == Size && IsPlayer(me)
    ensures var base := 100 * Score(s, me) - 110 * Score(s, Opponent(me));
      base <= Evaluation(s, me) <= base + 2000
  {
    EvaluationBounds(s, me);
  }

  /** `minimax(game, depth, alpha, beta, maximizing_player)` on the state `s`, with
      `play` for the trial move. */
  ghost function MinimaxValue(play: Step, s: State, me: int, depth: int, alpha: Ext, beta: Ext, maximizing: bool): Ext
    requires Shrinks(play) && IsSquare(s.grid) && IsPlayer(me)
    decreases LegalCount(s.grid), 1, 0, 0
  {
    if depth == 0 || IsFull(s.grid) then Fin(Evaluation(s, me))
    else Scan(play, s, me, depth, alpha, beta, maximizing, 0, 0, if maximizing then NegInf else PosInf)
  }

  /** The value of the trial move on `q` by the player to move, one level deeper. */
  ghost function ChildValue(play: Step, s: State, me: int, q: Pos, depth: int, alpha: Ext, beta: Ext, maximizing: bool): Ext
    requires Shrinks(play) && IsSquare(s.grid) && IsPlayer(me) && InBounds(|s.grid|, q) && Legal(s.grid, q)
    decreases LegalCount(s.grid), 0, 0, 0
  {
    var mover := if maximizing then me else Opponent(me);
    MinimaxValue(play, play(s, q, mover), me, depth - 1, alpha, beta, !maximizing)
  }

  /** The two nested loops of `minimax` from cell (r, c) on. A cut-off (`beta <=
      alpha`) breaks only the inner loop: the scan goes on with the next row. */
  ghost function Scan(play: Step, s: State, me: int, depth: int, alpha: Ext, beta: Ext, maximizing: bool,
                      r: nat, c: nat, best: Ext): Ext
    requires Shrinks(play) && IsSquare(s.grid) && IsPlayer(me) && r <= |s.grid| && c <= |s.grid|
    decreases LegalCount(s.grid), 0, |s.grid| - r, |s.grid| - c
  {
    if r == |s.grid| then best
    else if c == |s.grid| then Scan(play, s, me, depth, alpha, beta, maximizing, r + 1, 0, best)
    else if !Legal(s.grid, Pos(r, c)) then Scan(play, s, me, depth, alpha, beta, maximizing, r, c + 1, best)
    else
      var v := ChildValue(play, s, me, Pos(r, c), depth, alpha, beta, maximizing);
      var best' := if maximizing then EMax(best, v) else EMin(best, v);
      var alpha' := if maximizing then EMax(alpha, v) else alpha;
      var beta' := if maximizing then beta else EMin(beta, v);
      if ELe(beta', alpha') then Scan(play, s, me, depth, alpha', beta', maximizing, r + 1, 0, best')
      else Scan(play, s, me, depth, alpha', beta', maximizing, r, c + 1, best')
  }

  /** The search never returns an infinite sentinel. */
  lemma {:induction false} MinimaxFinite(play: Step, s: State, me: int, depth: int, alpha: Ext, beta: Ext, maximizing: bool)
    requires Shrinks(play) && IsSquare(s.grid) && IsPlayer(me)
    ensures MinimaxValue(play, s, me, depth, alpha, beta, maximizing).Fin?
    decreases LegalCount(s.grid), 1, 0, 0, 0
  {
    hide Evaluation, PureValue, PureScan;
    if !(depth == 0 || IsFull(s.grid)) {
      ScanFinite(play, s, me, depth, alpha, beta, maximizing, 0, 0, if maximizing then NegInf else PosInf);
    }
  }

  lemma {:induction false} ScanFinite(play: Step, s: State, me: int, depth: int, alpha: Ext, beta: Ext, maximizing: bool,
                                      r: nat, c: nat, best: Ext)
    requires Shrinks(play) && IsSquare(s.grid) && IsPlayer(me) && r <= |s.grid| && c <= |s.grid|
    requires if maximizing then !best.PosInf? else !best.NegInf?
    requires best.Fin? || !FullFrom(s.grid, r, c)
    ensures Scan(play, s, me, depth, alpha, beta, maximizing, r, c, best).Fin?
    decreases LegalCount(s.grid), 0, |s.grid| - r, |s.grid| - c, 1
  {
    hide Evaluation, PureValue, PureScan, MinimaxValue, ChildValue;
    if r == |s.grid| {
    } else if c == |s.grid| {
      ScanFinite(play, s, me, depth, alpha, beta, maximizing, r + 1, 0, best);
    } else if !Legal(s.grid, Pos(r, c)) {
      ScanFinite(play, s, me, depth, alpha, beta, maximizing, r, c + 1, best);
    } else {
      ScanFiniteAt(play, s, me, depth, alpha, beta, maximizing, r, c, best);
    }
  }

  /** `ScanFinite` at an empty cell: the child's value is finite, so the best value
      becomes finite. */
  lemma {:induction false} ScanFiniteAt(play: Step, s: State, me: int, depth: int, alpha: Ext, beta: Ext, maximizing: bool,
                                        r: nat, c: nat, best: Ext)
    requires Shrinks(play) && IsSquare(s.grid) && IsPlayer(me) && r < |s.grid| && c < |s.grid|
    requires Legal(s.grid, Pos(r, c))
    requires if maximizing then !best.PosInf? else !best.NegInf?
    ensures Scan(play, s, me, depth, alpha, beta, maximizing, r, c, best).Fin?
    decreases LegalCount(s.grid), 0, |s.grid| - r, |s.grid| - c, 0
  {
    hide Evaluation, PureValue, PureScan, MinimaxValue, Scan;
    var mover := if maximizing then me else Opponent(me);
    MinimaxFinite(play, play(s, Pos(r, c), mover), me, depth - 1, alpha, beta, !maximizing);
    ScanAt(play, s, me, depth, alpha, beta, maximizing, r, c, best);
    var v := ChildValue(play, s, me, Pos(r, c), depth, alpha, beta, maximizing);
    var best' := if maximizing then EMax(best, v) else EMin(best, v);
    var alpha' := if maximizing then EMax(alpha, v) else alpha;
    var beta' := if maximizing then beta else EMin(beta, v);
    if ELe(beta', alpha') {
      ScanFinite(play, s, me, depth, alpha', beta', maximizing, r + 1, 0, best');
    } else {
      ScanFinite(play, s, me, depth, alpha', beta', maximizing, r, c + 1, best');
    }
  }

  /** The pruned scan passes over a filled cell, moves on at the end of a row, and
      returns its best value at the end of the board. */
  lemma ScanPass(play: Step, s: State, me: int, depth: int, alpha: Ext, beta: Ext, maximizing: bool,
                 r: nat, c: nat, best: Ext)
    requires Shrinks(play) && IsSquare(s.grid) && IsPlayer(me) && r <= |s.grid| && c <= |s.grid|
    requires !(r < |s.grid| && c < |s.grid| && Legal(s.grid, Pos(r, c)))
    ensures Scan(play, s, me, depth, alpha, beta, maximizing, r, c, best)
         == if r == |s.grid| then best
            else if c == |s.grid| then Scan(play, s, me, depth, alpha, beta, maximizing, r + 1, 0, best)
            else Scan(play, s, me, depth, alpha, beta, maximizing, r, c + 1, best)
  {
    hide Evaluation, MinimaxValue, ChildValue;
  }

  /** One step of the pruned scan at an empty cell: the child is searched, the
      window narrowed, and the scan goes on or cuts off. */
  lemma ScanAt(play: Step, s: State, me: int, depth: int, alpha: Ext, beta: Ext, maximizing: bool,
               r: nat, c: nat, best: Ext)
    requires Shrinks(play) && IsSquare(s.grid) && IsPlayer(me) && r < |s.grid| && c < |s.grid|
    requires Legal(s.grid, Pos(r, c))
    ensures var v := ChildValue(play, s, me, Pos(r, c), depth, alpha, beta, maximizing);
      var best' := if maximizing then EMax(best, v) else EMin(best, v);
      var alpha' := if maximizing then EMax(alpha, v) else alpha;
      var beta' := if maximizing then beta else EMin(beta, v);
      Scan(play, s, me, depth, alpha, beta, maximizing, r, c, best)
      == if ELe(beta', alpha') then Scan(play, s, me, depth, alpha', beta', maximizing, r + 1, 0, best')
         else Scan(play, s, me, depth, alpha', beta', maximizing, r, c + 1, best')
  {
    hide Evaluation, MinimaxValue, ChildValue;
  }

  /** The plain minimax value, every move searched: the reference the pruned
      search is proved against. */
  ghost function PureValue(play: Step, s: State, me: int, depth: int, maximizing: bool): Ext
    requires Shrinks(play) && IsSquare(s.grid) && IsPlayer(me)
    decreases LegalCount(s.grid), 1, 0, 0
  {
    if depth == 0 || IsFull(s.grid) then Fin(Evaluation(s, me))
    else PureScan(play, s, me, depth, maximizing, 0, 0, if maximizing then NegInf else PosInf)
  }

  /** The best (for `me` when maximizing, for the enemy otherwise) of `acc` and the
      plain values of the moves from cell (r, c) on. */
  ghost function PureScan(play: Step, s: State, me: int, depth: int, maximizing: bool, r: nat, c: nat, acc: Ext): Ext
    requires Shrinks(play) && IsSquare(s.grid) && IsPlayer(me) && r <= |s.grid| && c <= |s.grid|
    decreases LegalCount(s.grid), 0, |s.grid| - r, |s.grid| - c
  {
    if r == |s.grid| then acc
    else if c == |s.grid| then PureScan(play, s, me, depth, maximizing, r + 1, 0, acc)
    else if !Legal(s.grid, Pos(r, c)) then PureScan(play, s, me, depth, maximizing, r, c + 1, acc)
    else
      var mover := if maximizing then me else Opponent(me);
      var p := PureValue(play, play(s, Pos(r, c), mover), me, depth - 1, !maximizing);
      PureScan(play, s, me, depth, maximizing, r, c + 1, if maximizing then EMax(acc, p) else EMin(acc, p))
  }

  /** One step of the plain scan at an empty cell. */
  lemma PureScanAt(play: Step, s: State, me: int, depth: int, maximizing: bool, r: nat, c: nat, acc: Ext)
    requires Shrinks(play) && IsSquare(s.grid) && IsPlayer(me) && r < |s.grid| && c < |s.grid|
    requires Legal(s.grid, Pos(r, c))
    ensures var mover := if maximizing then me else Opponent(me);
      var p := PureValue(play, play(s, Pos(r, c), mover), me, depth - 1, !maximizing);
      PureScan(play, s, me, depth, maximizing, r, c, acc)
      == PureScan(play, s, me, depth, maximizing, r, c + 1, if maximizing then EMax(acc, p) else EMin(acc, p))
  {
    hide Evaluation, PureValue;
  }

  /** The plain scan only improves on its start value. */
  lemma {:induction false} PureScanMono(play: Step, s: State, me: int, depth: int, maximizing: bool, r: nat, c: nat, acc: Ext)
    requires Shrinks(play) && IsSquare(s.grid) && IsPlayer(me) && r <= |s.grid| && c <= |s.grid|
    ensures var x := PureScan(play, s, me, depth, maximizing, r, c, acc);
      if maximizing then ELe(acc, x) else ELe(x, acc)
    decreases |s.grid| - r, |s.grid| - c
  {
    hide Evaluation, MinimaxValue, Scan, ChildValue;
    if r == |s.grid| {
    } else if c == |s.grid| {
      PureScanMono(play, s, me, depth, maximizing, r + 1, 0, acc);
    } else if !Legal(s.grid, Pos(r, c)) {
      PureScanMono(play, s, me, depth, maximizing, r, c + 1, acc);
    } else {
      var mover := if maximizing then me else Opponent(me);
      var p := PureValue(play, play(s, Pos(r, c), mover), me, depth - 1, !maximizing);
      PureScanMono(play, s, me, depth, maximizing, r, c + 1, if maximizing then EMax(acc, p) else EMin(acc, p));
    }
  }

  /** The pruned scan only improves on its best value so far, cut-offs included. */
  lemma {:induction false} ScanMono(play: Step, s: State, me: int, depth: int, alpha: Ext, beta: Ext, maximizing: bool,
                                    r: nat, c: nat, best: Ext)
    requires Shrinks(play) && IsSquare(s.grid) && IsPlayer(me) && r <= |s.grid| && c <= |s.grid|
    ensures var x := Scan(play, s, me, depth, alpha, beta, maximizing, r, c, best);
      if maximizing then ELe(best, x) else ELe(x, best)
    decreases |s.grid| - r, |s.grid| - c
  {
    hide Evaluation, PureValue, PureScan, ChildValue, MinimaxValue;
    if r == |s.grid| {
    } else if c == |s.grid| {
      ScanMono(play, s, me, depth, alpha, beta, maximizing, r + 1, 0, best);
    } else if !Legal(s.grid, Pos(r, c)) {
      ScanMono(play, s, me, depth, alpha, beta, maximizing, r, c + 1, best);
    } else {
      var v := ChildValue(play, s, me, Pos(r, c), depth, alpha, beta, maximizing);
      var best' := if maximizing then EMax(best, v) else EMin(best, v);
      var alpha' := if maximizing then EMax(alpha, v) else alpha;
      var beta' := if maximizing then beta else EMin(beta, v);
      if ELe(beta', alpha') {
        ScanMono(play, s, me, depth, alpha', beta', maximizing, r + 1, 0, best');
      } else {
        ScanMono(play, s, me, depth, alpha', beta', maximizing, r, c + 1, best');
      }
    }
  }

  /** Alpha-beta is correct: inside any non-empty window the pruned value and the
      plain minimax value agree once clipped to the window. A cut-off that only
      leaves the inner loop still searches later rows, but can only raise (when
      maximizing) or lower (when minimizing) a value already outside the window. */
  lemma {:induction false} AlphaBeta(play: Step, s: State, me: int, depth: int, alpha: Ext, beta: Ext, maximizing: bool)
    requires Shrinks(play) && IsSquare(s.grid) && IsPlayer(me) && EGt(beta, alpha)
    ensures Clamp(MinimaxValue(play, s, me, depth, alpha, beta, maximizing), alpha, beta)
         == Clamp(PureValue(play, s, me, depth, maximizing), alpha, beta)
    decreases LegalCount(s.grid), 1, 0, 0, 0
  {
    hide Evaluation, Scan, PureScan, ChildValue;
    if !(depth == 0 || IsFull(s.grid)) {
      if maximizing {
        AlphaBetaMax(play, s, me, depth, alpha, beta, 0, 0, alpha, NegInf, NegInf);
      } else {
        AlphaBetaMin(play, s, me, depth, alpha, beta, 0, 0, beta, PosInf, PosInf);
      }
    }
  }

  /** The maximizing scan: with `alpha` the window's low end raised by the best value
      `v` found so far, and `u` the plain best so far agreeing with `v` above `alpha0`,
      the rest of the scan keeps the two in agreement within [alpha0, beta]. */
  lemma {:induction false} AlphaBetaMax(play: Step, s: State, me: int, depth: int, alpha0: Ext, beta: Ext,
                                        r: nat, c: nat, alpha: Ext, v: Ext, u: Ext)
    requires Shrinks(play) && IsSquare(s.grid) && IsPlayer(me) && r <= |s.grid| && c <= |s.grid|
    requires EGt(beta, alpha0) && alpha == EMax(alpha0, v) && EGt(beta, alpha) && EMax(alpha0, u) == alpha
    ensures Clamp(Scan(play, s, me, depth, alpha, beta, true, r, c, v), alpha0, beta)
         == Clamp(PureScan(play, s, me, depth, true, r, c, u), alpha0, beta)
    decreases LegalCount(s.grid), 0, |s.grid| - r, |s.grid| - c, 1
  {
    hide Evaluation, MinimaxValue, PureValue, ChildValue;
    if r == |s.grid| {
    } else if c == |s.grid| {
      AlphaBetaMax(play, s, me, depth, alpha0, beta, r + 1, 0, alpha, v, u);
    } else if !Legal(s.grid, Pos(r, c)) {
      AlphaBetaMax(play, s, me, depth, alpha0, beta, r, c + 1, alpha, v, u);
    } else {
      AlphaBetaMaxAt(play, s, me, depth, alpha0, beta, r, c, alpha, v, u);
    }
  }

  /** `AlphaBetaMax` at a legal cell: the child is searched and the scan goes on or
      cuts off. */
  lemma {:induction false} AlphaBetaMaxAt(play: Step, s: State, me: int, depth: int, alpha0: Ext, beta: Ext,
                                          r: nat, c: nat, alpha: Ext, v: Ext, u: Ext)
    requires Shrinks(play) && IsSquare(s.grid) && IsPlayer(me) && r < |s.grid| && c < |s.grid|
    requires Legal(s.grid, Pos(r, c))
    requires EGt(beta, alpha0) && alpha == EMax(alpha0, v) && EGt(beta, alpha) && EMax(alpha0, u) == alpha
    ensures Clamp(Scan(play, s, me, depth, alpha, beta, true, r, c, v), alpha0, beta)
         == Clamp(PureScan(play, s, me, depth, true, r, c, u), alpha0, beta)
    decreases LegalCount(s.grid), 0, |s.grid| - r, |s.grid| - c, 0
  {
    hide Evaluation, MinimaxValue, PureValue, Scan, PureScan;
    var t := play(s, Pos(r, c), me);
    AlphaBeta(play, t, me, depth - 1, alpha, beta, false);
    var ab := MinimaxValue(play, t, me, depth - 1, alpha, beta, false);
    var p := PureValue(play, t, me, depth - 1, false);
    var v', alpha', u' := EMax(v, ab), EMax(alpha, ab), EMax(u, p);
    assert ChildValue(play, s, me, Pos(r, c), depth, alpha, beta, true) == ab;
    ScanAt(play, s, me, depth, alpha, beta, true, r, c, v);
    PureScanAt(play, s, me, depth, true, r, c, u);
    MaxStep(alpha0, beta, alpha, v, u, ab, p);
    if ELe(beta, alpha') {
      PureScanMono(play, s, me, depth, true, r, c + 1, u');
      ScanMono(play, s, me, depth, alpha', beta, true, r + 1, 0, v');
      ClampTop(Scan(play, s, me, depth, alpha', beta, true, r + 1, 0, v'), alpha0, beta);
      ClampTop(PureScan(play, s, me, depth, true, r, c + 1, u'), alpha0, beta);
    } else {
      AlphaBetaMax(play, s, me, depth, alpha0, beta, r, c + 1, alpha', v', u');
    }
  }

  /** The minimizing scan, the mirror image of `AlphaBetaMax`. */
  lemma {:induction false} AlphaBetaMin(play: Step, s: State, me: int, depth: int, alpha: Ext, beta0: Ext,
                                        r: nat, c: nat, beta: Ext, v: Ext, u: Ext)
    requires Shrinks(play) && IsSquare(s.grid) && IsPlayer(me) && r <= |s.grid| && c <= |s.grid|
    requires EGt(beta0, alpha) && beta == EMin(beta0, v) && EGt(beta, alpha) && EMin(beta0, u) == beta
    ensures Clamp(Scan(play, s, me, depth, alpha, beta, false, r, c, v), alpha, beta0)
         == Clamp(PureScan(play, s, me, depth, false, r, c, u), alpha, beta0)
    decreases LegalCount(s.grid), 0, |s.grid| - r, |s.grid| - c, 1
  {
    hide Evaluation, MinimaxValue, PureValue, ChildValue;
    if r == |s.grid| {
    } else if c == |s.grid| {
      AlphaBetaMin(play, s, me, depth, alpha, beta0, r + 1, 0, beta, v, u);
    } else if !Legal(s.grid, Pos(r, c)) {
      AlphaBetaMin(play, s, me, depth, alpha, beta0, r, c + 1, beta, v, u);
    } else {
      AlphaBetaMinAt(play, s, me, depth, alpha, beta0, r, c, beta, v, u);
    }
  }

  /** `AlphaBetaMin` at a legal cell. */
  lemma {:induction false} AlphaBetaMinAt(play: Step, s: State, me: int, depth: int, alpha: Ext, beta0: Ext,
                                          r: nat, c: nat, beta: Ext, v: Ext, u: Ext)
    requires Shrinks(play) && IsSquare(s.grid) && IsPlayer(me) && r < |s.grid| && c < |s.grid|
    requires Legal(s.grid, Pos(r, c))
    requires EGt(beta0, alpha) && beta == EMin(beta0, v) && EGt(beta, alpha) && EMin(beta0, u) == beta
    ensures Clamp(Scan(play, s, me, depth, alpha, beta, false, r, c, v), alpha, beta0)
         == Clamp(PureScan(play, s, me, depth, false, r, c, u), alpha, beta0)
    decreases LegalCount(s.grid), 0, |s.grid| - r, |s.grid| - c, 0
  {
    hide Evaluation, MinimaxValue, PureValue, Scan, PureScan;
    var t := play(s, Pos(r, c), Opponent(me));
    AlphaBeta(play, t, me, depth - 1, alpha, beta, true);
    var ab := MinimaxValue(play, t, me, depth - 1, alpha, beta, true);
    var p := PureValue(play, t, me, depth - 1, true);
    var v', beta', u' := EMin(v, ab), EMin(beta, ab), EMin(u, p);
    assert ChildValue(play, s, me, Pos(r, c), depth, alpha, beta, false) == ab;
    ScanAt(play, s, me, depth, alpha, beta, false, r, c, v);
    PureScanAt(play, s, me, depth, false, r, c, u);
    MinStep(alpha, beta0, beta, v, u, ab, p);
    if ELe(beta', alpha) {
      PureScanMono(play, s, me, depth, false, r, c + 1, u');
      ScanMono(play, s, me, depth, alpha, beta', false, r + 1, 0, v');
      ClampBottom(Scan(play, s, me, depth, alpha, beta', false, r + 1, 0, v'), alpha, beta0);
      ClampBottom(PureScan(play, s, me, depth, false, r, c + 1, u'), alpha, beta0);
    } else {
      AlphaBetaMin(play, s, me, depth, alpha, beta0, r, c + 1, beta', v', u');
    }
  }

  /** With the full window `float('-inf'), float('inf')` that `get_move` passes, the
      pruned search returns exactly the plain minimax value. */
  lemma MinimaxExact(play: Step, s: State, me: int, depth: int, maximizing: bool)
    requires Shrinks(play) && IsSquare(s.grid) && IsPlayer(me)
    ensures MinimaxValue(play, s, me, depth, NegInf, PosInf, maximizing) == PureValue(play, s, me, depth, maximizing)
  {
    AlphaBeta(play, s, me, depth, NegInf, PosInf, maximizing);
    ClampFull(MinimaxValue(play, s, me, depth, NegInf, PosInf, maximizing));
    ClampFull(PureValue(play, s, me, depth, maximizing));
  }

  /** The index `get_move` keeps in `best_move`: a later value replaces the best so
      far only when strictly greater, starting from `float('-inf')`. */
  function BestIndex(vs: seq<Ext>): (k: Option<nat>)
    ensures k.Some? ==> k.value < |vs| && vs[k.value] == Top(vs)
    ensures k.Some? ==> forall j :: 0 <= j < k.value ==> EGt(vs[k.value], vs[j])
    ensures k.None? <==> forall j :: 0 <= j < |vs| ==> vs[j] == NegInf
  {
    if vs == [] then None
    else
      var n := |vs| - 1;
      assert forall j :: 0 <= j < n ==> vs[..n][j] == vs[j];
      if EGt(vs[n], Top(vs[..n])) then Some(n) else BestIndex(vs[..n])
  }

  lemma BestIndexStep(vs: seq<Ext>, i: nat)
    requires i < |vs|
    ensures BestIndex(vs[..i + 1]) == if EGt(vs[i], Top(vs[..i])) then Some(i) else BestIndex(vs[..i])
  {
    assert vs[..i + 1][..i] == vs[..i];
  }

  /** A value that beats every value before it in the row-major list `ms` beats the
      value of any move that comes before it on the board. */
  lemma FirstBeaten(ms: seq<Pos>, vs: seq<Ext>, i: nat, k: nat)
    requires |vs| == |ms| && i < |ms| && k < |ms|
    requires forall j :: 0 <= j < k ==> EGt(vs[k], vs[j])
    requires forall a, b :: 0 <= a < b < |ms| ==> Before(ms[a].r, ms[a].c, ms[b].r, ms[b].c)
    requires Before(ms[i].r, ms[i].c, ms[k].r, ms[k].c)
    ensures EGt(vs[k], vs[i])
  {
    if k <= i {
      assert false;
    }
  }

  /** The values the search loop of `get_move` gives the legal moves `ms`. */
  ghost function Values(play: Step, s: State, me: int, depth: int, ms: seq<Pos>): seq<Ext>
    requires Shrinks(play) && IsSquare(s.grid) && IsPlayer(me)
    requires forall q :: q in ms ==> InBounds(|s.grid|, q) && Legal(s.grid, q)
  {
    seq(|ms|, k requires 0 <= k < |ms| => ChildValue(play, s, me, ms[k], depth, NegInf, PosInf, true))
  }

  /** The value of the i-th move of the list, and the list's length. */
  lemma ValuesAt(play: Step, s: State, me: int, depth: int, ms: seq<Pos>, i: nat)
    requires Shrinks(play) && IsSquare(s.grid) && IsPlayer(me)
    requires forall q :: q in ms ==> InBounds(|s.grid|, q) && Legal(s.grid, q)
    ensures |Values(play, s, me, depth, ms)| == |ms|
    ensures i < |ms| ==> Values(play, s, me, depth, ms)[i] == ChildValue(play, s, me, ms[i], depth, NegInf, PosInf, true)
  {
  }

  /** `len(possible_moves) > LOGICAL_GRID_SIZE**2 * 0.8` in integers: for the board
      of side 5 the float product is exactly 20.0, so both comparisons agree. */
  predicate Crowded(moves: nat, n: nat) {
    5 * moves > 4 * (n * n)
  }

  /** `get_move` on the state `s`; `pick` is the index of the move the shuffle puts
      first, reduced modulo the number of moves. */
  ghost function ChooseMove(play: Step, s: State, me: int, depth: int, pick: nat): Option<Pos>
    requires Shrinks(play) && IsSquare(s.grid) && IsPlayer(me)
  {
    var ms := LegalMoves(s.grid);
    if Crowded(|ms|, |s.grid|) then Some(ms[pick % |ms|])
    else
      var k := BestIndex(Values(play, s, me, depth, ms));
      if k.Some? then Some(ms[k.value]) else None
  }

  /** The player answers a move exactly when the board is not full, and the move
      is always legal. */
  lemma ChooseMoveLegal(play: Step, s: State, me: int, depth: int, pick: nat)
    requires Shrinks(play) && IsSquare(s.grid) && IsPlayer(me)
    ensures ChooseMove(play, s, me, depth, pick).None? <==> IsFull(s.grid)
    ensures ChooseMove(play, s, me, depth, pick).Some? ==> Legal(s.grid, ChooseMove(play, s, me, depth, pick).value)
  {
    hide Evaluation, MinimaxValue, PureValue, Scan, PureScan, BestIndex;
    var ms := LegalMoves(s.grid);
    if Crowded(|ms|, |s.grid|) {
      assert ms[pick % |ms|] in ms;
    } else {
      var vs := Values(play, s, me, depth, ms);
      if ms != [] {
        MinimaxFinite(play, play(s, ms[0], me), me, depth - 1, NegInf, PosInf, false);
        assert vs[0] != NegInf;
      }
      var k := BestIndex(vs);
      if k.Some? {
        assert ms[k.value] in ms;
      }
    }
  }

  /** Below the 80% threshold the move played has the best exact minimax value of all
      legal moves, and every move before it in row-major order has a strictly lower
      value. */
  lemma ChooseMoveSearches(play: Step, s: State, me: int, depth: int, pick: nat, q: Pos)
    requires Shrinks(play) && IsSquare(s.grid) && IsPlayer(me)
    requires !Crowded(|LegalMoves(s.grid)|, |s.grid|)
    requires Legal(s.grid, q)
    ensures var m := ChooseMove(play, s, me, depth, pick);
      m.Some? && Legal(s.grid, m.value)
      && ELe(PureValue(play, play(s, q, me), me, depth - 1, false),
             PureValue(play, play(s, m.value, me), me, depth - 1, false))
      && (Before(q.r, q.c, m.value.r, m.value.c) ==>
            EGt(PureValue(play, play(s, m.value, me), me, depth - 1, false),
                PureValue(play, play(s, q, me), me, depth - 1, false)))
  {
    hide Evaluation, MinimaxValue, PureValue, Scan, PureScan, BestIndex;
    var ms := LegalMoves(s.grid);
    var vs := Values(play, s, me, depth, ms);
    var i :| 0 <= i < |ms| && ms[i] == q;
    MinimaxFinite(play, play(s, q, me), me, depth - 1, NegInf, PosInf, false);
    assert vs[i] != NegInf;
    var k := BestIndex(vs).value;
    assert ChooseMove(play, s, me, depth, pick) == Some(ms[k]);
    assert ms[k] in ms;
    assert ELe(vs[i], vs[k]);
    if Before(q.r, q.c, ms[k].r, ms[k].c) {
      FirstBeaten(ms, vs, i, k);
    }
    MinimaxExact(play, play(s, q, me), me, depth - 1, false);
    MinimaxExact(play, play(s, ms[k], me), me, depth - 1, false);
  }

  /** The computer player: `player_id` and the search `depth`. */
  class AIPlayer {
    const id: int
    const depth: int

    constructor (id: int, depth: int := 2)
      requires IsPlayer(id)
      ensures this.id == id && this.depth == depth
    {
      this.id := id;
      this.depth := depth;
    }

    /** `evaluate_board(game)`. */
    method Evaluate(game: Game) returns (score: int)
      requires game.Valid() && IsPlayer(id)
      ensures score == Evaluation(game.Snap(), id)
    {
      hide Neighbors;
      var enemy := 3 - id;
      score := 100 * Score(game.Snap(), id) - 110 * Score(game.Snap(), enemy);
      ghost var base := score;
      ghost var f := Links(game.grid, id);
      for r := 0 to game.n
        invariant score == base + SumUpTo(game.n, f, r, 0)
      {
        for c := 0 to game.n
          invariant score == base + SumUpTo(game.n, f, r, c)
        {
          if game.grid[r][c].owner == id {
            var neighbors := game.GetNeighbors(Pos(r, c), id);
            score := score + |neighbors| * 10;
          }
        }
      }
    }

    /** `minimax(game, depth, alpha, beta, maximizing_player)`: the board is left as
        found, and the value is the one the search defines. */
    method Minimax(game: Game, depth: int, alpha: Ext, beta: Ext, maximizing: bool) returns (v: Ext)
      requires game.Valid() && IsPlayer(id)
      modifies game`grid
      ensures game.Valid() && game.Snap() == old(game.Snap())
      ensures v == MinimaxValue(Placement(), old(game.Snap()), id, depth, alpha, beta, maximizing)
      ensures depth == 0 || IsFull(old(game.grid)) ==> v == Fin(Evaluation(old(game.Snap()), id))
      decreases LegalCount(game.grid), 1
    {
      hide Scan, Evaluation, ChildValue, PureValue, PureScan;
      var full := game.CheckFull();
      if depth == 0 || full {
        var e := Evaluate(game);
        return Fin(e);
      }
      assert !(depth == 0 || IsFull(old(game.grid)));
      ghost var s := game.Snap();
      var a, b := alpha, beta;
      v := if maximizing then NegInf else PosInf;
      for r := 0 to game.n
        invariant game.Valid() && game.Snap() == s
        invariant Scan(Placement(), s, id, depth, a, b, maximizing, r, 0, v) == MinimaxValue(Placement(), s, id, depth, alpha, beta, maximizing)
      {
        for c := 0 to game.n
          invariant game.Valid() && game.Snap() == s
          invariant Scan(Placement(), s, id, depth, a, b, maximizing, r, c, v) == MinimaxValue(Placement(), s, id, depth, alpha, beta, maximizing)
        {
          if game.grid[r][c].owner == Nobody && !game.grid[r][c].captured {
            ScanAt(Placement(), s, id, depth, a, b, maximizing, r, c, v);
            var ev := Child(game, Pos(r, c), depth, a, b, maximizing);
            if maximizing {
              v := EMax(v, ev);
              a := EMax(a, ev);
            } else {
              v := EMin(v, ev);
              b := EMin(b, ev);
            }
            if ELe(b, a) {
              break;
            }
          } else {
            ScanPass(Placement(), s, id, depth, a, b, maximizing, r, c, v);
          }
        }
        ScanPass(Placement(), s, id, depth, a, b, maximizing, r, game.n, v);
      }
      ScanPass(Placement(), s, id, depth, a, b, maximizing, game.n, 0, v);
    }

    /** One trial: the owner written, the deeper search, the owner reset to 0. */
    method Child(game: Game, q: Pos, depth: int, alpha: Ext, beta: Ext, maximizing: bool) returns (v: Ext)
      requires game.Valid() && IsPlayer(id) && InBounds(game.n, q) && Legal(game.grid, q)
      modifies game`grid
      ensures game.Valid() && game.Snap() == old(game.Snap())
      ensures v == ChildValue(Placement(), old(game.Snap()), id, q, depth, alpha, beta, maximizing)
      decreases LegalCount(game.grid), 0
    {
      hide Evaluation, MinimaxValue, Scan;
      ghost var s := game.Snap();
      var mover := if maximizing then id else 3 - id;
      game.grid := SetOwner(game.grid, q, mover);
      assert game.Snap() == Placement()(s, q, mover);
      v := Minimax(game, depth - 1, alpha, beta, !maximizing);
      game.grid := SetOwner(game.grid, q, Nobody);
      SetOwnerUndo(s.grid, q, mover);
    }

    /** `get_move(game)`; `pick` stands for the shuffle. */
    method GetMove(game: Game, pick: nat) returns (move: Option<Pos>)
      requires game.Valid() && IsPlayer(id)
      modifies game`grid
      ensures game.Valid() && game.Snap() == old(game.Snap())
      ensures move == ChooseMove(Placement(), old(game.Snap()), id, depth, pick)
    {
      hide Evaluation, MinimaxValue, PureValue, Scan, PureScan, ChildValue, Values, BestIndex, Top;
      ghost var s := game.Snap();
      var bestScore := NegInf;
      move := None;
      var ms := PossibleMoves(game);
      if Crowded(|ms|, game.n) {
        return Some(ms[pick % |ms|]);
      }
      ghost var vs := Values(Placement(), s, id, depth, ms);
      ValuesAt(Placement(), s, id, depth, ms, 0);
      ghost var k: Option<nat> := None;
      for i := 0 to |ms|
        invariant game.Valid() && game.Snap() == s
        invariant bestScore == Top(vs[..i]) && k == BestIndex(vs[..i])
        invariant move == if k.Some? then Some(ms[k.value]) else None
      {
        var r, c := ms[i].r, ms[i].c;
        var score := Child(game, Pos(r, c), depth, NegInf, PosInf, true);
        ValuesAt(Placement(), s, id, depth, ms, i);
        TopStep(vs, i);
        BestIndexStep(vs, i);
        if EGt(score, bestScore) {
          bestScore := score;
          move := Some(Pos(r, c));
          k := Some(i);
        }
      }
      assert vs[..|vs|] == vs;
    }
  }
}
