/** The effect of a move on the game state, as functions of the state before it:
    the fence search with its capture and score, the recording of a fence, and the
    sweep `check_for_cycles_around` makes over the mover and the enemy dots around
    the new dot. The game's methods are proved to compute exactly these. */
module Rules {
  import opened Grid
  import opened Capture
  import opened Cycle

  /** What `snapshot` copies: the board, both scores and the recorded fences. */
  datatype State = State(grid: Board, score1: int, score2: int, areas: seq<Area>)

  /** `players[p].score`. */
  function Score(s: State, p: int): int {
    if p == 1 then s.score1 else s.score2
  }

  /** `players[p].score += k`. */
  function AddScore(s: State, p: int, k: int): (t: State)
    requires IsPlayer(p)
    ensures Score(t, p) == Score(s, p) + k && Score(t, Opponent(p)) == Score(s, Opponent(p))
    ensures t.grid == s.grid && t.areas == s.areas
  {
    if p == 1 then s.(score1 := s.score1 + k) else s.(score2 := s.score2 + k)
  }

  /** `find_cycle(start, p)` with its side effects: on success the fence's enclosed
      cells are captured and `p` scores the enemy dots among them. (A fence found
      has at least four points, `FindCycleSound`; the test for an empty one only
      keeps the capture well defined without unfolding that lemma here.) */
  ghost function FindCycleStep(s: State, start: Pos, p: int): (r: (State, Option<seq<Pos>>))
    requires IsSquare(s.grid) && InBounds(|s.grid|, start) && IsPlayer(p)
    ensures IsSquare(r.0.grid) && |r.0.grid| == |s.grid|
  {
    match FindCycleSpec(s.grid, s.areas, start, p)
    case None => (s, None)
    case Some(path) =>
      if |path| == 0 then (s, None)
      else (AddScore(s.(grid := Captured(s.grid, path)), p, CaptureCount(s.grid, path, p)), Some(path))
  }

  /** The two outcomes of the search, as the loop of `find_cycle` ends. */
  lemma FindCycleStepCases(s: State, start: Pos, p: int)
    requires IsSquare(s.grid) && InBounds(|s.grid|, start) && IsPlayer(p)
    ensures FindCycleSpec(s.grid, s.areas, start, p) == None ==> FindCycleStep(s, start, p) == (s, None)
    ensures forall path :: FindCycleSpec(s.grid, s.areas, start, p) == Some(path) ==>
      |path| > 0 &&
      FindCycleStep(s, start, p) ==
        (AddScore(s.(grid := Captured(s.grid, path)), p, CaptureCount(s.grid, path, p)), Some(path))
  {
    hide FindCycleSpec;
    FindCycleSound(s.grid, s.areas, start, p);
  }

  /** `captured_areas.append((cycle, owner))` when a fence was found. */
  function Record(s: State, cycle: Option<seq<Pos>>, owner: int): State {
    if cycle.Some? then s.(areas := s.areas + [Area(cycle.value, owner)]) else s
  }

  /** One search from `start` for `p`, then its fence recorded. */
  ghost function SearchAndRecord(s: State, start: Pos, p: int): (t: State)
    requires IsSquare(s.grid) && InBounds(|s.grid|, start) && IsPlayer(p)
    ensures IsSquare(t.grid) && |t.grid| == |s.grid|
  {
    var (t, cycle) := FindCycleStep(s, start, p);
    Record(t, cycle, p)
  }

  /** The state after the sweep visits offset (dr, dc): a search from that point
      when it holds a live dot of `e`, nothing otherwise. */
  ghost function AroundAt(s: State, center: Pos, e: int, dr: int, dc: int): (t: State)
    requires IsSquare(s.grid) && IsPlayer(e)
    ensures IsSquare(t.grid)
  {
    var q := Pos(center.r + dr, center.c + dc);
    if InBounds(|s.grid|, q) && Live(s.grid, q, e) then SearchAndRecord(s, q, e)
    else s
  }

  /** The enemy sweep of `check_for_cycles_around` from offset (dr, dc) on, in the
      order of its two loops: a search from every live dot of `e` among the nine
      points around `center`, each on the board left by the searches before it. */
  ghost function AroundFrom(s: State, center: Pos, e: int, dr: int, dc: int): State
    requires IsSquare(s.grid) && IsPlayer(e) && -1 <= dr && -1 <= dc <= 2
    decreases 2 - dr, 2 - dc
  {
    if dr > 1 then s
    else if dc > 1 then AroundFrom(s, center, e, dr + 1, -1)
    else AroundFrom(AroundAt(s, center, e, dr, dc), center, e, dr, dc + 1)
  }

  /** `check_for_cycles_around(r, c)`: a search for the owner of the new dot from the
      dot itself, then the enemy sweep. */
  ghost function CheckAround(s: State, center: Pos): State
    requires IsSquare(s.grid) && InBounds(|s.grid|, center) && IsPlayer(s.grid[center.r][center.c].owner)
  {
    var owner := s.grid[center.r][center.c].owner;
    var t := SearchAndRecord(s, center, owner);
    AroundFrom(t, center, Opponent(owner), -1, -1)
  }

  /** The dot of `p` put on `q` (the first line of `make_move` and of every trial move). */
  function Place(s: State, q: Pos, p: int): (t: State)
    requires IsSquare(s.grid) && InBounds(|s.grid|, q)
    ensures IsSquare(t.grid) && |t.grid| == |s.grid|
  {
    s.(grid := SetOwner(s.grid, q, p))
  }

  /** A placement followed by the sweep: the rules part of `make_move`. */
  ghost function Play(s: State, q: Pos, p: int): State
    requires IsSquare(s.grid) && InBounds(|s.grid|, q) && IsPlayer(p)
  {
    CheckAround(Place(s, q, p), q)
  }

  // What the rules preserve

  /** `t` comes after `s`: same owners, captured flags only set, scores never lower,
      recorded fences only appended. */
  predicate Later(s: State, t: State) {
    IsSquare(s.grid) && IsSquare(t.grid) && Grows(s.grid, t.grid)
    && s.score1 <= t.score1 && s.score2 <= t.score2
    && |s.areas| <= |t.areas| && t.areas[..|s.areas|] == s.areas
  }

  /** No two recorded fences have the same coordinate set. */
  predicate DistinctAreas(areas: seq<Area>) {
    forall i, j :: 0 <= i < j < |areas| ==> Elements(areas[i].path) != Elements(areas[j].path)
  }

  /** The state invariant: a square board; each score is at most the number of
      captured dots of the other player (every point is an enemy dot taken); recorded
      fences are distinct, owned by a player and at least four points long. */
  predicate Inv(s: State) {
    IsSquare(s.grid)
    && 0 <= s.score1 <= CapturedCount(s.grid, 2)
    && 0 <= s.score2 <= CapturedCount(s.grid, 1)
    && DistinctAreas(s.areas)
    && forall i :: 0 <= i < |s.areas| ==> IsPlayer(s.areas[i].owner) && |s.areas[i].path| >= 4
  }

  lemma LaterTrans(s: State, t: State, u: State)
    requires Later(s, t) && Later(t, u)
    ensures Later(s, u)
  {
    assert u.areas[..|s.areas|] == u.areas[..|t.areas|][..|s.areas|];
  }

  /** The search changes the state only as a later state, and only when it finds a
      fence: then the board is the captured one and `p` gains exactly the count. */
  lemma FindCycleStepLater(s: State, start: Pos, p: int)
    requires IsSquare(s.grid) && InBounds(|s.grid|, start) && IsPlayer(p)
    ensures var (t, cycle) := FindCycleStep(s, start, p);
      Later(s, t) && |t.grid| == |s.grid| && t.areas == s.areas
      && (cycle.None? ==> t == s)
      && (cycle.Some? ==> |cycle.value| >= 4 && t.grid == Captured(s.grid, cycle.value)
                          && Score(t, p) == Score(s, p) + CaptureCount(s.grid, cycle.value, p)
                          && Score(t, Opponent(p)) == Score(s, Opponent(p)))
  {
    hide FindCycleSpec;
    FindCycleSound(s.grid, s.areas, start, p);
    var (t, cycle) := FindCycleStep(s, start, p);
    if cycle.Some? {
      CapturedEffect(s.grid, cycle.value);
    }
  }

  /** A search and its recording leave a later state on a board of the same size,
      whatever the invariant. */
  lemma SearchAndRecordLater(s: State, start: Pos, p: int)
    requires IsSquare(s.grid) && InBounds(|s.grid|, start) && IsPlayer(p)
    ensures Later(s, SearchAndRecord(s, start, p))
  {
    hide FindCycleSpec;
    FindCycleStepLater(s, start, p);
    var (t, cycle) := FindCycleStep(s, start, p);
    if cycle.Some? {
      assert Record(t, cycle, p).areas[..|s.areas|] == s.areas;
    }
  }

  /** Recording a new fence after its capture keeps the invariant: the fence is
      distinct from the recorded ones, and the points scored are enemy dots that
      became captured. */
  lemma RecordFenceInv(s: State, t: State, path: seq<Pos>, p: int)
    requires Inv(s) && IsPlayer(p) && |path| >= 4 && !AlreadyCaptured(s.areas, path)
    requires Later(s, t) && t.areas == s.areas && t.grid == Captured(s.grid, path)
    requires Score(t, p) == Score(s, p) + CaptureCount(s.grid, path, p) && Score(t, Opponent(p)) == Score(s, Opponent(p))
    ensures var u := t.(areas := t.areas + [Area(path, p)]);
      Inv(u) && Later(s, u)
  {
    var u := t.(areas := t.areas + [Area(path, p)]);
    var e := Opponent(p);
    CapturedCountAfter(s.grid, path, p);
    assert CapturedCount(t.grid, e) == CapturedCount(s.grid, e) + CaptureCount(s.grid, path, p);
    assert CapturedCount(s.grid, p) <= CapturedCount(t.grid, p);
    assert Score(u, p) <= CapturedCount(u.grid, e);
    assert Score(u, e) <= CapturedCount(u.grid, p);
    assert DistinctAreas(u.areas);
    assert u.areas[..|s.areas|] == s.areas;
  }

  /** A search and its recording keep the invariant: the fence found is new, and its
      points are enemy dots that become captured. */
  lemma SearchAndRecordInv(s: State, start: Pos, p: int)
    requires Inv(s) && InBounds(|s.grid|, start) && IsPlayer(p)
    ensures var t := SearchAndRecord(s, start, p);
      Inv(t) && Later(s, t) && |t.grid| == |s.grid| && |t.areas| <= |s.areas| + 1
      && forall i :: |s.areas| <= i < |t.areas| ==> t.areas[i].owner == p
  {
    hide FindCycleSpec, FindCycleStep, Later;
    FindCycleStepLater(s, start, p);
    FindCycleStepCases(s, start, p);
    FindCycleSound(s.grid, s.areas, start, p);
    var (t, cycle) := FindCycleStep(s, start, p);
    if cycle.Some? {
      assert FindCycleSpec(s.grid, s.areas, start, p) == cycle;
      RecordFenceInv(s, t, cycle.value, p);
    }
  }

  /** An offset holding a live dot of `e` starts a search from it. */
  lemma AroundAtLive(s: State, center: Pos, e: int, dr: int, dc: int)
    requires IsSquare(s.grid) && IsPlayer(e)
    requires InBounds(|s.grid|, Pos(center.r + dr, center.c + dc)) && Live(s.grid, Pos(center.r + dr, center.c + dc), e)
    ensures AroundAt(s, center, e, dr, dc) == SearchAndRecord(s, Pos(center.r + dr, center.c + dc), e)
  {
    hide FindCycleStep;
  }

  /** Any other offset leaves the state as it is. */
  lemma AroundAtDead(s: State, center: Pos, e: int, dr: int, dc: int)
    requires IsSquare(s.grid) && IsPlayer(e)
    requires !Live(s.grid, Pos(center.r + dr, center.c + dc), e)
    ensures AroundAt(s, center, e, dr, dc) == s
  {
    hide FindCycleStep;
  }

  /** One step of the sweep: the offset (dr, dc), then the offsets after it. */
  lemma AroundFromStep(s: State, center: Pos, e: int, dr: int, dc: int)
    requires IsSquare(s.grid) && IsPlayer(e) && -1 <= dr <= 1 && -1 <= dc <= 1
    ensures AroundFrom(s, center, e, dr, dc) == AroundFrom(AroundAt(s, center, e, dr, dc), center, e, dr, dc + 1)
  {
    hide FindCycleStep;
  }

  /** The end of a row of the sweep moves to the next row. */
  lemma AroundFromRow(s: State, center: Pos, e: int, dr: int)
    requires IsSquare(s.grid) && IsPlayer(e) && -1 <= dr
    ensures AroundFrom(s, center, e, dr, 2) == if dr > 1 then s else AroundFrom(s, center, e, dr + 1, -1)
  {
    hide FindCycleStep;
  }

  /** How many of the offsets from (dr, dc) on, in the order of the sweep, hold a
      live dot of `e` around `center`: the searches the sweep may start. */
  function LiveAround(g: Board, center: Pos, e: int, dr: int, dc: int): nat
    requires IsSquare(g) && -1 <= dr && -1 <= dc <= 2
    decreases 2 - dr, 2 - dc
  {
    if dr > 1 then 0
    else if dc > 1 then LiveAround(g, center, e, dr + 1, -1)
    else (if Live(g, Pos(center.r + dr, center.c + dc), e) then 1 else 0) + LiveAround(g, center, e, dr, dc + 1)
  }

  /** Captures only remove live dots: a later board has no more of them around a point. */
  lemma {:induction false} LiveAroundGrows(g: Board, g': Board, center: Pos, e: int, dr: int, dc: int)
    requires IsSquare(g) && IsSquare(g') && Grows(g, g') && -1 <= dr && -1 <= dc <= 2
    decreases 2 - dr, 2 - dc
    ensures LiveAround(g', center, e, dr, dc) <= LiveAround(g, center, e, dr, dc)
  {
    if dr > 1 {
    } else if dc > 1 {
      LiveAroundGrows(g, g', center, e, dr + 1, -1);
    } else {
      LiveAroundGrows(g, g', center, e, dr, dc + 1);
    }
  }

  lemma AroundAtInv(s: State, center: Pos, e: int, dr: int, dc: int)
    requires Inv(s) && IsPlayer(e)
    ensures var t := AroundAt(s, center, e, dr, dc);
      Inv(t) && Later(s, t) && |t.grid| == |s.grid|
      && |t.areas| <= |s.areas| + (if Live(s.grid, Pos(center.r + dr, center.c + dc), e) then 1 else 0)
      && forall i :: |s.areas| <= i < |t.areas| ==> t.areas[i].owner == e
  {
    hide FindCycleStep;
    var q := Pos(center.r + dr, center.c + dc);
    if InBounds(|s.grid|, q) && Live(s.grid, q, e) {
      assert AroundAt(s, center, e, dr, dc) == SearchAndRecord(s, q, e);
      SearchAndRecordInv(s, q, e);
    } else {
      assert AroundAt(s, center, e, dr, dc) == s;
      assert s.areas[..|s.areas|] == s.areas;
    }
  }

  /** Appending twice: the new entries of the whole are those of either step. */
  lemma LaterOwners(s: State, t: State, u: State, e: int, e': int)
    requires Later(s, t) && Later(t, u)
    requires forall i :: |s.areas| <= i < |t.areas| ==> t.areas[i].owner == e || t.areas[i].owner == e'
    requires forall i :: |t.areas| <= i < |u.areas| ==> u.areas[i].owner == e || u.areas[i].owner == e'
    ensures Later(s, u)
    ensures forall i :: |s.areas| <= i < |u.areas| ==> u.areas[i].owner == e || u.areas[i].owner == e'
  {
    LaterTrans(s, t, u);
    forall i | |s.areas| <= i < |t.areas|
      ensures u.areas[i] == t.areas[i]
    {
      assert u.areas[i] == u.areas[..|t.areas|][i];
    }
  }

  lemma {:induction false} AroundFromInv(s: State, center: Pos, e: int, dr: int, dc: int)
    requires Inv(s) && IsPlayer(e) && -1 <= dr && -1 <= dc <= 2
    decreases 2 - dr, 2 - dc
    ensures var t := AroundFrom(s, center, e, dr, dc);
      Inv(t) && Later(s, t) && |t.grid| == |s.grid|
      && |t.areas| <= |s.areas| + LiveAround(s.grid, center, e, dr, dc)
      && forall i :: |s.areas| <= i < |t.areas| ==> t.areas[i].owner == e
  {
    hide FindCycleStep;
    if dr > 1 {
      assert s.areas[..|s.areas|] == s.areas;
    } else if dc > 1 {
      AroundFromInv(s, center, e, dr + 1, -1);
    } else {
      var t := AroundAt(s, center, e, dr, dc);
      AroundAtInv(s, center, e, dr, dc);
      AroundFromInv(t, center, e, dr, dc + 1);
      LiveAroundGrows(s.grid, t.grid, center, e, dr, dc + 1);
      LaterOwners(s, t, AroundFrom(t, center, e, dr, dc + 1), e, e);
    }
  }

  /** `check_for_cycles_around` keeps the invariant and leaves a later state on a
      board of the same size. It records at most one fence for the mover, and only
      as the first new entry, and exactly when its search finds one; every other new
      fence is the enemy's, at most one per live enemy dot of the 3-by-3 block around
      the new dot. */
  lemma CheckAroundInv(s: State, center: Pos)
    requires Inv(s) && InBounds(|s.grid|, center) && IsPlayer(s.grid[center.r][center.c].owner)
    ensures var t := CheckAround(s, center);
      var owner := s.grid[center.r][center.c].owner;
      Inv(t) && Later(s, t) && |t.grid| == |s.grid|
      && |t.areas| <= |s.areas| + 1 + LiveAround(s.grid, center, Opponent(owner), -1, -1)
      && (|s.areas| < |t.areas| && t.areas[|s.areas|].owner == owner <==> FindCycleSpec(s.grid, s.areas, center, owner).Some?)
      && forall i :: |s.areas| < i < |t.areas| ==> t.areas[i].owner == Opponent(owner)
  {
    hide FindCycleStep, FindCycleSpec, SearchAndRecord, AroundFrom;
    var owner := s.grid[center.r][center.c].owner;
    var e := Opponent(owner);
    SearchAndRecordInv(s, center, owner);
    SearchAndRecordFence(s, center, owner);
    var u := SearchAndRecord(s, center, owner);
    AroundFromInv(u, center, e, -1, -1);
    LiveAroundGrows(s.grid, u.grid, center, e, -1, -1);
    var t := AroundFrom(u, center, e, -1, -1);
    assert CheckAround(s, center) == t;
    LaterTrans(s, u, t);
    if |s.areas| < |u.areas| {
      assert t.areas[|s.areas|] == t.areas[..|u.areas|][|s.areas|];
    }
    if FindCycleSpec(s.grid, s.areas, center, owner).None? {
      assert u == s;
    }
  }

  // Recorded fences belong to their owners

  /** The recorded fences from index `k` on run through dots, on the current board,
      of the player each of them is tagged with. */
  predicate FencesOwned(s: State, k: nat) {
    IsSquare(s.grid) &&
    forall i, x :: k <= i < |s.areas| && x in s.areas[i].path ==>
      InBounds(|s.grid|, x) && s.grid[x.r][x.c].owner == s.areas[i].owner
  }

  /** Owners never change in a later state, so the fences recorded before it stay
      owned; with those it appends, all of them are. */
  lemma FencesOwnedJoin(s: State, t: State, k: nat)
    requires FencesOwned(s, k) && Later(s, t) && FencesOwned(t, |s.areas|)
    ensures FencesOwned(t, k)
  {
    forall i, x | k <= i < |s.areas| && x in t.areas[i].path
      ensures InBounds(|t.grid|, x) && t.grid[x.r][x.c].owner == t.areas[i].owner
    {
      assert t.areas[i] == t.areas[..|s.areas|][i];
    }
  }

  /** One search records exactly the fence `find_cycle` returns, tagged with the
      searcher; its points are dots of the searcher, and stay so after the capture. */
  lemma SearchAndRecordFence(s: State, start: Pos, p: int)
    requires IsSquare(s.grid) && InBounds(|s.grid|, start) && IsPlayer(p)
    ensures var t := SearchAndRecord(s, start, p);
      FencesOwned(t, |s.areas|)
      && (FindCycleSpec(s.grid, s.areas, start, p) == None ==> t == s)
      && forall path :: FindCycleSpec(s.grid, s.areas, start, p) == Some(path) ==>
           IsFence(s.grid, start, p, path) && t.areas == s.areas + [Area(path, p)]
  {
    hide FindCycleSpec;
    FindCycleSound(s.grid, s.areas, start, p);
    FindCycleStepCases(s, start, p);
    FindCycleStepLater(s, start, p);
    var t := SearchAndRecord(s, start, p);
    match FindCycleSpec(s.grid, s.areas, start, p)
    case None =>
    case Some(path) =>
      forall x | x in path
        ensures InBounds(|t.grid|, x) && t.grid[x.r][x.c].owner == p
      {
        var i :| 0 <= i < |path| && path[i] == x;
        assert Live(s.grid, path[i], p);
      }
  }

  /** The sweep at one offset records only fences of the enemy's own dots. */
  lemma AroundAtFences(s: State, center: Pos, e: int, dr: int, dc: int)
    requires IsSquare(s.grid) && IsPlayer(e)
    ensures FencesOwned(AroundAt(s, center, e, dr, dc), |s.areas|)
  {
    hide FindCycleStep, SearchAndRecord;
    var q := Pos(center.r + dr, center.c + dc);
    if InBounds(|s.grid|, q) && Live(s.grid, q, e) {
      SearchAndRecordFence(s, q, e);
    }
  }

  lemma {:induction false} AroundFromFences(s: State, center: Pos, e: int, dr: int, dc: int)
    requires IsSquare(s.grid) && IsPlayer(e) && -1 <= dr && -1 <= dc <= 2
    decreases 2 - dr, 2 - dc
    ensures FencesOwned(AroundFrom(s, center, e, dr, dc), |s.areas|)
  {
    hide FindCycleStep, SearchAndRecord;
    if dr > 1 {
    } else if dc > 1 {
      AroundFromFences(s, center, e, dr + 1, -1);
    } else {
      var t := AroundAt(s, center, e, dr, dc);
      AroundAtFences(s, center, e, dr, dc);
      AroundAtLater(s, center, e, dr, dc);
      AroundFromFences(t, center, e, dr, dc + 1);
      AroundFromLater(t, center, e, dr, dc + 1);
      FencesOwnedJoin(t, AroundFrom(t, center, e, dr, dc + 1), |s.areas|);
    }
  }

  /** Every fence `check_for_cycles_around` records runs through dots of the player
      it is tagged with; the fence the mover's search finds is the first new entry,
      tagged with the mover. */
  lemma CheckAroundFences(s: State, center: Pos)
    requires IsSquare(s.grid) && InBounds(|s.grid|, center) && IsPlayer(s.grid[center.r][center.c].owner)
    ensures var t := CheckAround(s, center);
      var owner := s.grid[center.r][center.c].owner;
      FencesOwned(t, |s.areas|)
      && forall path :: FindCycleSpec(s.grid, s.areas, center, owner) == Some(path) ==>
           IsFence(s.grid, center, owner, path) && |s.areas| < |t.areas| && t.areas[|s.areas|] == Area(path, owner)
  {
    hide FindCycleStep, SearchAndRecord, FindCycleSpec;
    var owner := s.grid[center.r][center.c].owner;
    var e := Opponent(owner);
    var u := SearchAndRecord(s, center, owner);
    SearchAndRecordFence(s, center, owner);
    SearchAndRecordLater(s, center, owner);
    var t := AroundFrom(u, center, e, -1, -1);
    AroundFromFences(u, center, e, -1, -1);
    AroundFromLater(u, center, e, -1, -1);
    FencesOwnedJoin(u, t, |s.areas|);
    if FindCycleSpec(s.grid, s.areas, center, owner).Some? {
      assert t.areas[|s.areas|] == t.areas[..|u.areas|][|s.areas|];
    }
  }

  /** The new dot goes on a free point, which is on no recorded fence. */
  lemma PlaceFences(s: State, q: Pos, p: int)
    requires Inv(s) && FencesOwned(s, 0) && InBounds(|s.grid|, q) && Legal(s.grid, q)
    ensures FencesOwned(Place(s, q, p), 0)
  {
    var t := Place(s, q, p);
    forall i, x | 0 <= i < |t.areas| && x in t.areas[i].path
      ensures InBounds(|t.grid|, x) && t.grid[x.r][x.c].owner == t.areas[i].owner
    {
      assert IsPlayer(s.areas[i].owner);
    }
  }

  /** A move keeps every recorded fence on dots of the player it is tagged with:
      the new dot goes on a free point, off every fence, and no owner changes
      after it. */
  lemma PlayFences(s: State, q: Pos, p: int)
    requires Inv(s) && FencesOwned(s, 0) && InBounds(|s.grid|, q) && Legal(s.grid, q) && IsPlayer(p)
    ensures FencesOwned(Play(s, q, p), 0)
  {
    hide FindCycleStep, SearchAndRecord, CheckAround, Inv;
    var t := Place(s, q, p);
    PlaceFences(s, q, p);
    CheckAroundFences(t, q);
    PlayLater(s, q, p);
    FencesOwnedJoin(t, Play(s, q, p), 0);
  }

  /** The sweep at one offset leaves a later state. */
  lemma AroundAtLater(s: State, center: Pos, e: int, dr: int, dc: int)
    requires IsSquare(s.grid) && IsPlayer(e)
    ensures Later(s, AroundAt(s, center, e, dr, dc))
  {
    hide FindCycleStep;
    var q := Pos(center.r + dr, center.c + dc);
    if InBounds(|s.grid|, q) && Live(s.grid, q, e) {
      SearchAndRecordLater(s, q, e);
    } else {
      assert s.areas[..|s.areas|] == s.areas;
    }
  }

  lemma {:induction false} AroundFromLater(s: State, center: Pos, e: int, dr: int, dc: int)
    requires IsSquare(s.grid) && IsPlayer(e) && -1 <= dr && -1 <= dc <= 2
    decreases 2 - dr, 2 - dc
    ensures Later(s, AroundFrom(s, center, e, dr, dc))
  {
    hide FindCycleStep;
    if dr > 1 {
      assert s.areas[..|s.areas|] == s.areas;
    } else if dc > 1 {
      AroundFromLater(s, center, e, dr + 1, -1);
    } else {
      var t := AroundAt(s, center, e, dr, dc);
      AroundAtLater(s, center, e, dr, dc);
      AroundFromLater(t, center, e, dr, dc + 1);
      LaterTrans(s, t, AroundFrom(t, center, e, dr, dc + 1));
    }
  }

  /** After the dot is placed, the capture sweep of a move only sets captured flags,
      raises scores and appends fences: no owner changes and nothing is uncaptured. */
  lemma PlayLater(s: State, q: Pos, p: int)
    requires IsSquare(s.grid) && InBounds(|s.grid|, q) && IsPlayer(p)
    ensures Later(Place(s, q, p), Play(s, q, p))
  {
    hide FindCycleStep;
    var t := Place(s, q, p);
    var u := SearchAndRecord(t, q, p);
    SearchAndRecordLater(t, q, p);
    AroundFromLater(u, q, Opponent(p), -1, -1);
    LaterTrans(t, u, AroundFrom(u, q, Opponent(p), -1, -1));
  }

  /** Putting a dot on a legal point keeps the invariant: the point was not
      captured, so no captured count changes. */
  lemma PlaceInv(s: State, q: Pos, p: int)
    requires Inv(s) && InBounds(|s.grid|, q) && Legal(s.grid, q) && IsPlayer(p)
    ensures Inv(Place(s, q, p))
  {
    var g, g' := s.grid, Place(s, q, p).grid;
    forall e
      ensures CapturedCount(g', e) == CapturedCount(g, e)
    {
      CountSame(|g|, CapturedOf(g', e), CapturedOf(g, e), |g|, 0);
    }
  }

  /** A move keeps the invariant and leaves a later state, whatever the board. */
  lemma PlayInv(s: State, q: Pos, p: int)
    requires Inv(s) && InBounds(|s.grid|, q) && Legal(s.grid, q) && IsPlayer(p)
    ensures Inv(Play(s, q, p)) && |Play(s, q, p).grid| == |s.grid|
    ensures Score(s, 1) <= Score(Play(s, q, p), 1) && Score(s, 2) <= Score(Play(s, q, p), 2)
    ensures Play(s, q, p).grid[q.r][q.c].owner == p
  {
    hide FindCycleStep;
    PlaceInv(s, q, p);
    CheckAroundInv(Place(s, q, p), q);
  }
}
