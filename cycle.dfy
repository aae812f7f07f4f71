/** The fence search `find_cycle`, as a depth-first search over a fixed board.
    The game keeps an explicit stack of paths; a path is popped, each live
    neighbour of its last point is tried in direction order (closing the fence
    when it is the start point), and the unvisited ones are pushed as extended
    paths. Popping the last pushed first means the children of a path are
    searched from the last neighbour to the first, each to the end before the
    next. The board does not change during the search, except by the capture
    that ends it. */
module Cycle {
  import opened Grid
  import opened Capture

  /** An entry of `captured_areas`: a fence path and the player it belongs to. */
  datatype Area = Area(path: seq<Pos>, owner: int)

  /** `is_cycle_already_captured`: some recorded fence has exactly this coordinate set. */
  function AlreadyCaptured(areas: seq<Area>, path: seq<Pos>): (b: bool)
    ensures b <==> exists i :: 0 <= i < |areas| && Elements(areas[i].path) == Elements(path)
  {
    if areas == [] then false
    else if Elements(areas[0].path) == Elements(path) then true
    else
      var b := AlreadyCaptured(areas[1..], path);
      assert forall i :: 1 <= i < |areas| ==> areas[i] == areas[1..][i - 1];
      b
  }

  function Last(s: seq<Pos>): Pos
    requires |s| > 0
  {
    s[|s| - 1]
  }

  /** A non-empty path of grid points. */
  predicate OnBoard(n: nat, path: seq<Pos>) {
    |path| > 0 && forall x :: x in path ==> InBounds(n, x)
  }

  /** The paths pushed when a path is expanded: `path + [x]` for each neighbour x
      of `ns` not yet on the path, in the order of `ns`. */
  function Extend(path: seq<Pos>, ns: seq<Pos>): seq<seq<Pos>>
  {
    if ns == [] then []
    else
      var x := ns[|ns| - 1];
      Extend(path, ns[..|ns| - 1]) + (if x !in path then [path + [x]] else [])
  }

  /** The pushed paths: at most one per neighbour, each the path and one neighbour
      not on it. */
  lemma {:induction false} ExtendShape(path: seq<Pos>, ns: seq<Pos>)
    ensures |Extend(path, ns)| <= |ns|
    ensures forall k :: k in Extend(path, ns) ==>
      |k| == |path| + 1 && k[..|path|] == path && k[|path|] in ns && k[|path|] !in path
  {
    if ns != [] {
      var x := ns[|ns| - 1];
      ExtendShape(path, ns[..|ns| - 1]);
      assert forall y :: y in ns[..|ns| - 1] ==> y in ns;
    }
  }

  /** Extending by one more neighbour pushes at most that one more path. */
  lemma ExtendStep(path: seq<Pos>, ns: seq<Pos>, j: nat)
    requires j < |ns|
    ensures Extend(path, ns[..j + 1]) == Extend(path, ns[..j]) + (if ns[j] !in path then [path + [ns[j]]] else [])
  {
    assert ns[..j + 1][..j] == ns[..j];
  }

  /** A successor function of the search: at most eight grid points after any point. */
  ghost predicate Steps(n: nat, next: Pos -> seq<Pos>) {
    forall q :: |next(q)| <= 8 && forall x :: x in next(q) ==> InBounds(n, x)
  }

  /** The test made when the start point turns up among the successors of the last
      point of a path: the path has at least four points and passes `ok`. */
  predicate Closes(next: Pos -> seq<Pos>, ok: seq<Pos> -> bool, start: Pos, path: seq<Pos>)
    requires |path| > 0
  {
    |path| >= 4 && start in next(Last(path)) && ok(path)
  }

  lemma KidsShrink(n: nat, path: seq<Pos>, ns: seq<Pos>, kids: seq<seq<Pos>>)
    requires OnBoard(n, path) && forall x :: x in ns ==> InBounds(n, x)
    requires kids == Extend(path, ns)
    ensures |kids| <= |ns|
    ensures forall k :: k in kids ==> OnBoard(n, k) && Rem(n, k) < Rem(n, path)
  {
    ExtendShape(path, ns);
    forall k | k in kids
      ensures OnBoard(n, k) && Rem(n, k) < Rem(n, path)
    {
      var x := k[|path|];
      assert k == path + [x];
      RemStep(n, path, x);
    }
  }

  /** What the search returns once it pops `path`, if it finds a closing path in
      the part of the search tree below `path`. */
  ghost function Visit(n: nat, next: Pos -> seq<Pos>, ok: seq<Pos> -> bool, start: Pos, path: seq<Pos>): Option<seq<Pos>>
    requires Steps(n, next) && OnBoard(n, path)
    decreases Rem(n, path), 9
  {
    if Closes(next, ok, start, path) then Some(path)
    else
      var ns := next(Last(path));
      var kids := Extend(path, ns);
      KidsShrink(n, path, ns, kids);
      VisitKids(n, next, ok, start, Rem(n, path), kids, |kids|)
  }

  /** The search below the first `i` children, the i-th searched first. */
  ghost function VisitKids(n: nat, next: Pos -> seq<Pos>, ok: seq<Pos> -> bool, start: Pos, bound: nat,
                           kids: seq<seq<Pos>>, i: nat): Option<seq<Pos>>
    requires Steps(n, next) && i <= |kids| <= 8
    requires forall k :: k in kids ==> OnBoard(n, k) && Rem(n, k) < bound
    decreases bound, i
  {
    if i == 0 then None
    else
      var v := Visit(n, next, ok, start, kids[i - 1]);
      if v.Some? then v else VisitKids(n, next, ok, start, bound, kids, i - 1)
  }

  /** What the search returns from a given stack: the top path's subtree first. */
  ghost function SearchStack(n: nat, next: Pos -> seq<Pos>, ok: seq<Pos> -> bool, start: Pos,
                             stack: seq<seq<Pos>>): Option<seq<Pos>>
    requires Steps(n, next) && forall k :: k in stack ==> OnBoard(n, k)
    decreases |stack|
  {
    if stack == [] then None
    else
      var v := Visit(n, next, ok, start, stack[|stack| - 1]);
      if v.Some? then v else SearchStack(n, next, ok, start, stack[..|stack| - 1])
  }

  /** Pushing the children of a path on a stack searches them before the rest. */
  lemma {:induction false} SearchPushed(n: nat, next: Pos -> seq<Pos>, ok: seq<Pos> -> bool, start: Pos,
                                        rest: seq<seq<Pos>>, bound: nat, kids: seq<seq<Pos>>, i: nat)
    requires Steps(n, next) && i <= |kids| <= 8
    requires forall k :: k in rest ==> OnBoard(n, k)
    requires forall k :: k in kids ==> OnBoard(n, k) && Rem(n, k) < bound
    ensures forall k :: k in rest + kids[..i] ==> OnBoard(n, k)
    ensures SearchStack(n, next, ok, start, rest + kids[..i]) ==
      var v := VisitKids(n, next, ok, start, bound, kids, i);
      if v.Some? then v else SearchStack(n, next, ok, start, rest)
  {
    if i == 0 {
      assert rest + kids[..0] == rest;
    } else {
      var st := rest + kids[..i];
      assert st[|st| - 1] == kids[i - 1];
      assert st[..|st| - 1] == rest + kids[..i - 1];
      SearchPushed(n, next, ok, start, rest, bound, kids, i - 1);
    }
  }

  /** One turn of the search loop that does not close: popping the top path and
      pushing its children leaves a stack with the same result. */
  lemma SearchStep(n: nat, next: Pos -> seq<Pos>, ok: seq<Pos> -> bool, start: Pos, stack: seq<seq<Pos>>)
    requires Steps(n, next) && stack != [] && forall k :: k in stack ==> OnBoard(n, k) && k[0] == start
    requires OnBoard(n, stack[|stack| - 1])
    requires !Closes(next, ok, start, stack[|stack| - 1])
    ensures var path := stack[|stack| - 1];
      var after := stack[..|stack| - 1] + Extend(path, next(Last(path)));
      (forall k :: k in after ==> OnBoard(n, k) && k[0] == start)
      && SearchStack(n, next, ok, start, after) == SearchStack(n, next, ok, start, stack)
  {
    var path, rest := stack[|stack| - 1], stack[..|stack| - 1];
    var ns := next(Last(path));
    var kids := Extend(path, ns);
    assert forall k :: k in rest ==> k in stack;
    KidsShrink(n, path, ns, kids);
    ExtendShape(path, ns);
    forall k | k in kids
      ensures k[0] == start
    {
      assert k[..|path|][0] == path[0];
    }
    SearchPushed(n, next, ok, start, rest, Rem(n, path), kids, |kids|);
    assert kids[..|kids|] == kids;
  }

  /** One turn of the search loop that closes: the search returns the popped path. */
  lemma SearchCloses(n: nat, next: Pos -> seq<Pos>, ok: seq<Pos> -> bool, start: Pos, stack: seq<seq<Pos>>)
    requires Steps(n, next) && stack != [] && forall k :: k in stack ==> OnBoard(n, k)
    requires OnBoard(n, stack[|stack| - 1])
    requires Closes(next, ok, start, stack[|stack| - 1])
    ensures SearchStack(n, next, ok, start, stack) == Some(stack[|stack| - 1])
  {
  }

  /** The live neighbours are a successor function of the search. */
  lemma NextOfSteps(g: Board, p: int)
    requires IsSquare(g)
    ensures Steps(|g|, NextOf(g, p))
  {
  }

  // The search as `find_cycle` runs it

  /** The live dots of `p` around a point, the successors of the fence search. */
  function NextOf(g: Board, p: int): Pos -> seq<Pos>
    requires IsSquare(g)
  {
    q => Neighbors(g, q, p)
  }

  /** The closing test of `find_cycle`: not a recorded fence, and it captures. */
  function OkOf(g: Board, areas: seq<Area>, p: int): seq<Pos> -> bool
    requires IsSquare(g)
  {
    path => |path| > 0 && !AlreadyCaptured(areas, path) && CaptureCount(g, path, p) > 0
  }

  /** The result of `find_cycle(start, p)` on board `g` with recorded fences `areas`. */
  ghost function FindCycleSpec(g: Board, areas: seq<Area>, start: Pos, p: int): Option<seq<Pos>>
    requires IsSquare(g) && InBounds(|g|, start)
  {
    Visit(|g|, NextOf(g, p), OkOf(g, areas, p), start, [start])
  }

  /** `find_cycle` starts its explicit stack with the one path `[start]`. */
  lemma SearchFromStart(g: Board, areas: seq<Area>, start: Pos, p: int)
    requires IsSquare(g) && InBounds(|g|, start)
    ensures Steps(|g|, NextOf(g, p))
    ensures SearchStack(|g|, NextOf(g, p), OkOf(g, areas, p), start, [[start]]) == FindCycleSpec(g, areas, start, p)
  {
    NextOfSteps(g, p);
  }

  // What is true of a path the search returns

  /** A search path: starts at `start`, stays on the board, never repeats a point,
      and each point is a successor of the one before. */
  predicate IsTrail(n: nat, next: Pos -> seq<Pos>, start: Pos, path: seq<Pos>) {
    |path| >= 1 && path[0] == start
    && (forall i :: 0 <= i < |path| ==> InBounds(n, path[i]))
    && (forall i, j :: 0 <= i < j < |path| ==> path[i] != path[j])
    && (forall i :: 1 <= i < |path| ==> path[i] in next(path[i - 1]))
  }

  lemma {:induction false} VisitSound(n: nat, next: Pos -> seq<Pos>, ok: seq<Pos> -> bool, start: Pos, path: seq<Pos>)
    requires Steps(n, next) && IsTrail(n, next, start, path)
    decreases Rem(n, path), 9
    ensures OnBoard(n, path)
    ensures var v := Visit(n, next, ok, start, path);
      v.Some? ==> IsTrail(n, next, start, v.value) && Closes(next, ok, start, v.value)
  {
    assert forall x :: x in path ==> InBounds(n, x);
    if !Closes(next, ok, start, path) {
      var ns := next(Last(path));
      var kids := Extend(path, ns);
      KidsShrink(n, path, ns, kids);
      ExtendTrails(n, next, start, path);
      VisitKidsSound(n, next, ok, start, Rem(n, path), kids, |kids|);
    }
  }

  /** Each path pushed from a trail is again a trail. */
  lemma ExtendTrails(n: nat, next: Pos -> seq<Pos>, start: Pos, path: seq<Pos>)
    requires Steps(n, next) && IsTrail(n, next, start, path)
    ensures forall k :: k in Extend(path, next(Last(path))) ==> IsTrail(n, next, start, k)
  {
    var ns := next(Last(path));
    ExtendShape(path, ns);
    forall k | k in Extend(path, ns)
      ensures IsTrail(n, next, start, k)
    {
      var x := k[|path|];
      assert k == path + [x];
    }
  }

  lemma {:induction false} VisitKidsSound(n: nat, next: Pos -> seq<Pos>, ok: seq<Pos> -> bool, start: Pos,
                                          bound: nat, kids: seq<seq<Pos>>, i: nat)
    requires Steps(n, next) && i <= |kids| <= 8
    requires forall k :: k in kids ==> OnBoard(n, k) && Rem(n, k) < bound && IsTrail(n, next, start, k)
    decreases bound, i
    ensures var v := VisitKids(n, next, ok, start, bound, kids, i);
      v.Some? ==> IsTrail(n, next, start, v.value) && Closes(next, ok, start, v.value)
  {
    if i > 0 {
      VisitSound(n, next, ok, start, kids[i - 1]);
      VisitKidsSound(n, next, ok, start, bound, kids, i - 1);
    }
  }

  /** A fence of `p` through `start`: at least four distinct grid points, each an
      8-neighbour of the one before and the last an 8-neighbour of the first, all
      of them live dots of `p`. */
  predicate IsFence(g: Board, start: Pos, p: int, path: seq<Pos>)
    requires IsSquare(g)
  {
    |path| >= 4 && path[0] == start
    && (forall i :: 0 <= i < |path| ==> Live(g, path[i], p))
    && (forall i, j :: 0 <= i < j < |path| ==> path[i] != path[j])
    && (forall i :: 1 <= i < |path| ==> Adjacent(path[i - 1], path[i]))
    && Adjacent(path[|path| - 1], start)
  }

  /** `find_cycle` returns either nothing or a fence of `p` through `start` whose
      coordinate set is not that of a recorded fence and which encloses at least
      one uncaptured enemy dot. */
  lemma FindCycleSound(g: Board, areas: seq<Area>, start: Pos, p: int)
    requires IsSquare(g) && InBounds(|g|, start)
    ensures var v := FindCycleSpec(g, areas, start, p);
      v.Some? ==> IsFence(g, start, p, v.value) && !AlreadyCaptured(areas, v.value) && CaptureCount(g, v.value, p) > 0
  {
    var next, ok := NextOf(g, p), OkOf(g, areas, p);
    VisitSound(|g|, next, ok, start, [start]);
    var v := FindCycleSpec(g, areas, start, p);
    if v.Some? {
      var path := v.value;
      assert start in next(Last(path));
      assert Live(g, start, p);
      forall i | 1 <= i < |path|
        ensures Live(g, path[i], p) && Adjacent(path[i - 1], path[i])
      {
        assert path[i] in next(path[i - 1]);
      }
      assert ok(path);
    }
  }

  // The termination measure of the explicit-stack search

  ghost function Pow9(k: nat): nat {
    if k == 0 then 1 else 9 * Pow9(k - 1)
  }

  /** Each stacked path weighs 9 to the number of points it has not visited. */
  ghost function Weight(n: nat, stack: seq<seq<Pos>>): nat {
    if stack == [] then 0 else Weight(n, stack[..|stack| - 1]) + Pow9(Rem(n, stack[|stack| - 1]))
  }

  lemma {:induction false} WeightConcat(n: nat, a: seq<seq<Pos>>, b: seq<seq<Pos>>)
    ensures Weight(n, a + b) == Weight(n, a) + Weight(n, b)
  {
    if b == [] {
      assert a + b == a;
    } else {
      WeightConcat(n, a, b[..|b| - 1]);
      assert (a + b)[..|a + b| - 1] == a + b[..|b| - 1];
    }
  }

  /** The children of a path weigh together at most |ns| ninths of the path. */
  lemma {:induction false} WeightExtend(n: nat, path: seq<Pos>, ns: seq<Pos>)
    requires OnBoard(n, path) && forall x :: x in ns ==> InBounds(n, x)
    ensures 9 * Weight(n, Extend(path, ns)) <= |ns| * Pow9(Rem(n, path))
  {
    if ns != [] {
      var front, x := ns[..|ns| - 1], ns[|ns| - 1];
      assert forall y :: y in front ==> y in ns;
      WeightExtend(n, path, front);
      var P, W := Pow9(Rem(n, path)), Weight(n, Extend(path, front));
      assert 9 * W <= |front| * P;
      if x !in path {
        RemStep(n, path, x);
        WeightConcat(n, Extend(path, front), [path + [x]]);
        assert [path + [x]][..0] == [];
        assert Weight(n, [path + [x]]) == Pow9(Rem(n, path) - 1);
        assert 9 * Pow9(Rem(n, path) - 1) == P;
        assert 9 * Weight(n, Extend(path, ns)) == 9 * W + P;
      } else {
        assert Extend(path, ns) == Extend(path, front);
        assert 9 * Weight(n, Extend(path, ns)) == 9 * W;
      }
      assert 9 * Weight(n, Extend(path, ns)) <= |front| * P + P;
      MulStep(|front|, P);
      assert |ns| == |front| + 1;
    }
  }

  lemma MulStep(a: nat, b: nat)
    ensures (a + 1) * b == a * b + b
  {
  }

  lemma {:induction false} Pow9Positive(k: nat)
    ensures Pow9(k) >= 1
  {
    if k > 0 {
      Pow9Positive(k - 1);
    }
  }

  /** Popping a path and pushing its children lowers the weight of the stack: the
      search loop terminates. */
  lemma PopPushDecreases(n: nat, rest: seq<seq<Pos>>, path: seq<Pos>, ns: seq<Pos>)
    requires OnBoard(n, path) && |ns| <= 8 && forall x :: x in ns ==> InBounds(n, x)
    ensures Weight(n, rest + Extend(path, ns)) < Weight(n, rest + [path])
  {
    var P := Pow9(Rem(n, path));
    WeightExtend(n, path, ns);
    WeightConcat(n, rest, Extend(path, ns));
    Pow9Positive(Rem(n, path));
    MulMono(|ns|, 8, P);
    assert 9 * Weight(n, Extend(path, ns)) <= 8 * P;
    assert (rest + [path])[..|rest + [path]| - 1] == rest;
    assert Weight(n, rest + [path]) == Weight(n, rest) + P;
  }

  lemma MulMono(a: nat, b: nat, k: nat)
    requires a <= b
    ensures a * k <= b * k
  {
  }
}
