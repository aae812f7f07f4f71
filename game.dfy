/** The game object `KropkiGame` without its window: the board, the two scores,
    the recorded fences, whose turn it is, whether the game is over and the last
    move. Its methods update these fields in place as the game does, and each is
    proved to compute what the functions of the Grid, Polygon, Capture, Cycle and
    Rules modules say. */
module Engine {
  import opened Grid
  import opened Polygon
  import opened Capture
  import opened Cycle
  import opened Rules

  class Game {
    /** The side of the board, `LOGICAL_GRID_SIZE`. */
    const n: nat
    var grid: Board
    /** `player1.score` and `player2.score`. */
    var score1: int
    var score2: int
    /** `captured_areas`. */
    var areas: seq<Area>
    var turn: int
    var gameOver: bool
    var lastMove: Option<Pos>

    ghost predicate Valid()
      reads this
    {
      IsSquare(grid) && |grid| == n && IsPlayer(turn)
    }

    /** The part of the game a snapshot copies. */
    function Snap(): State
      reads this
    {
      State(grid, score1, score2, areas)
    }

    /** A new game: an empty board, no scores, no fences, player 1 to move. */
    constructor (size: nat)
      ensures Valid() && n == size && Inv(Snap())
      ensures grid == EmptyBoard(size) && score1 == 0 && score2 == 0 && areas == []
      ensures turn == 1 && !gameOver && lastMove == None
    {
      n := size;
      grid := EmptyBoard(size);
      score1, score2 := 0, 0;
      areas := [];
      turn := 1;
      gameOver := false;
      lastMove := None;
    }

    /** `get_neighbors(r, c, player_id)`. */
    method GetNeighbors(q: Pos, p: int) returns (ns: seq<Pos>)
      requires Valid()
      ensures ns == Neighbors(grid, q, p)
    {
      ns := [];
      var k := 0;
      while k < 8
        invariant 0 <= k <= 8
        invariant ns == NeighborsUpTo(grid, q, p, k)
      {
        var x := Shift(q, Directions[k]);
        assert NeighborsUpTo(grid, q, p, k + 1) == ns + (if Live(grid, x, p) then [x] else []);
        if 0 <= x.r < n && 0 <= x.c < n {
          if grid[x.r][x.c].owner == p && !grid[x.r][x.c].captured {
            ns := ns + [x];
          }
        }
        k := k + 1;
      }
    }

    /** `is_cycle_already_captured(path)`. */
    method IsCycleAlreadyCaptured(path: seq<Pos>) returns (b: bool)
      ensures b == AlreadyCaptured(areas, path)
    {
      var pathSet := Elements(path);
      var i := 0;
      while i < |areas|
        invariant 0 <= i <= |areas|
        invariant forall k :: 0 <= k < i ==> Elements(areas[k].path) != pathSet
      {
        if Elements(areas[i].path) == pathSet {
          return true;
        }
        i := i + 1;
      }
      return false;
    }

    /** `is_point_in_poly(r, c, poly)`. */
    method IsPointInPoly(q: Pos, poly: seq<Pos>) returns (inside: bool)
      requires |poly| > 0
      ensures inside == InPoly(q, poly)
    {
      var m := |poly|;
      inside := false;
      var p1 := poly[0];
      var i := 0;
      while i < m + 1
        invariant 0 <= i <= m + 1
        invariant inside == FlagAfter(q, poly, i)
        invariant p1 == Prev(poly, i)
      {
        var p2 := poly[i % m];
        assert p2 == Vertex(poly, i);
        if q.c > Min(p1.c, p2.c) && q.c <= Max(p1.c, p2.c) && q.r <= Max(p1.r, p2.r) {
          if p1.r == p2.r || AtOrAboveCrossing(q, p1, p2) {
            inside := !inside;
          }
        }
        p1 := p2;
        i := i + 1;
      }
    }

    /** Whether (r, c) is off the fence and inside it, as the two capture scans test it. */
    method IsEnclosed(q: Pos, poly: seq<Pos>, polySet: set<Pos>) returns (enclosed: bool)
      requires |poly| > 0 && polySet == Elements(poly)
      ensures enclosed == Enclosed(poly, q)
    {
      enclosed := false;
      if q !in polySet {
        enclosed := IsPointInPoly(q, poly);
      }
    }

    /** The first scan of `validate_and_capture`: is there an enclosed, uncaptured
        enemy dot (`has_enemy_dot`)? */
    method HasEnemyDot(poly: seq<Pos>, p: int, polySet: set<Pos>) returns (found: bool)
      requires Valid() && |poly| > 0 && polySet == Elements(poly)
      ensures found <==> CaptureCount(grid, poly, p) > 0
    {
      var e := 3 - p;
      found := false;
      var r := 0;
      while r < n
        invariant 0 <= r <= n && !found
        invariant forall i, j :: 0 <= i < n && 0 <= j < n && Before(i, j, r, 0) ==> !TakesAt(grid, poly, p)(i, j)
      {
        var c := 0;
        while c < n
          invariant 0 <= c <= n && !found
          invariant forall i, j :: 0 <= i < n && 0 <= j < n && Before(i, j, r, c) ==> !TakesAt(grid, poly, p)(i, j)
        {
          var enclosed := IsEnclosed(Pos(r, c), poly, polySet);
          if enclosed {
            if grid[r][c].owner == e && !grid[r][c].captured {
              CaptureCountPositive(grid, poly, p);
              found := true;
              break;
            }
          }
          c := c + 1;
        }
        if found {
          break;
        }
        r := r + 1;
      }
      if !found {
        forall i, j | 0 <= i < n && 0 <= j < n
          ensures !(Enclosed(poly, Pos(i, j)) && grid[i][j].owner == Opponent(p) && !grid[i][j].captured)
        {
          assert Before(i, j, n, 0);
          assert !TakesAt(grid, poly, p)(i, j);
        }
        CaptureCountPositive(grid, poly, p);
      }
    }

    /** One cell of the second scan: an enclosed cell not yet captured is marked
        captured, and counts when it holds a dot of `e`. */
    method CaptureCell(q: Pos, poly: seq<Pos>, e: int, polySet: set<Pos>) returns (took: bool)
      requires Valid() && InBounds(n, q) && |poly| > 0 && polySet == Elements(poly)
      modifies this`grid
      ensures Valid()
      ensures took == (Enclosed(poly, q) && old(grid)[q.r][q.c].owner == e && !old(grid)[q.r][q.c].captured)
      ensures grid == if Enclosed(poly, q) && !old(grid)[q.r][q.c].captured
                      then old(grid)[q.r := old(grid)[q.r][q.c := old(grid)[q.r][q.c].(captured := true)]]
                      else old(grid)
    {
      took := false;
      var enclosed := IsEnclosed(q, poly, polySet);
      if enclosed {
        if !grid[q.r][q.c].captured {
          if grid[q.r][q.c].owner == e {
            took := true;
          }
          grid := grid[q.r := grid[q.r][q.c := grid[q.r][q.c].(captured := true)]];
        }
      }
    }

    /** The second scan of `validate_and_capture`: mark every enclosed cell captured,
        counting the enemy dots among those not captured before. */
    method CaptureEnclosed(poly: seq<Pos>, p: int, polySet: set<Pos>) returns (count: nat)
      requires Valid() && |poly| > 0 && polySet == Elements(poly)
      modifies this`grid
      ensures Valid()
      ensures count == CaptureCount(old(grid), poly, p) && grid == Captured(old(grid), poly)
    {
      var e := 3 - p;
      assert e == Opponent(p);
      ghost var g0 := grid;
      MarkStart(g0, poly);
      count := 0;
      var r := 0;
      while r < n
        invariant 0 <= r <= n
        invariant grid == MarkedUpTo(g0, poly, r, 0)
        invariant count == CountUpTo(n, TakesAt(g0, poly, p), r, 0)
      {
        var c := 0;
        while c < n
          invariant 0 <= c <= n
          invariant grid == MarkedUpTo(g0, poly, r, c)
          invariant count == CountUpTo(n, TakesAt(g0, poly, p), r, c)
        {
          MarkStep(g0, poly, r, c);
          TakeStep(g0, poly, p, r, c);
          var took := CaptureCell(Pos(r, c), poly, e, polySet);
          if took {
            count := count + 1;
          }
          c := c + 1;
        }
        MarkRowEnd(g0, poly, r);
        r := r + 1;
      }
    }

    /** `validate_and_capture(poly, player_id)`: 0 when the fence encloses no
        uncaptured enemy dot; otherwise every enclosed cell is captured and the
        number of enemy dots taken is returned. */
    method ValidateAndCapture(poly: seq<Pos>, p: int) returns (count: nat)
      requires Valid() && |poly| > 0
      modifies this`grid
      ensures Valid()
      ensures count == CaptureCount(old(grid), poly, p)
      ensures grid == if count == 0 then old(grid) else Captured(old(grid), poly)
    {
      var polySet := Elements(poly);
      var found := HasEnemyDot(poly, p, polySet);
      if !found {
        return 0;
      }
      count := CaptureEnclosed(poly, p, polySet);
    }

    /** What the search does when the start point closes a path of four or more
        points: skip a recorded fence; otherwise capture, and score when the count
        is positive. */
    method TryClose(path: seq<Pos>, p: int) returns (closed: bool)
      requires Valid() && IsPlayer(p) && |path| > 0
      modifies this`grid, this`score1, this`score2
      ensures Valid()
      ensures closed == (!AlreadyCaptured(areas, path) && CaptureCount(old(grid), path, p) > 0)
      ensures !closed ==> grid == old(grid) && score1 == old(score1) && score2 == old(score2)
      ensures closed ==> Snap() == AddScore(old(Snap()).(grid := Captured(old(grid), path)), p, CaptureCount(old(grid), path, p))
    {
      var already := IsCycleAlreadyCaptured(path);
      if already {
        return false;
      }
      var points := ValidateAndCapture(path, p);
      if points > 0 {
        if p == 1 {
          score1 := score1 + points;
        } else {
          score2 := score2 + points;
        }
        return true;
      }
      return false;
    }

    /** The body of the search loop for one popped path: its neighbours in order; the
        start point may close the path (`TryClose`); every other neighbour not on the
        path is pushed as a longer path. */
    method Expand(start: Pos, p: int, path: seq<Pos>) returns (closed: bool, kids: seq<seq<Pos>>)
      requires Valid() && IsPlayer(p) && OnBoard(n, path) && path[0] == start
      modifies this`grid, this`score1, this`score2
      ensures Valid()
      ensures closed == Closes(NextOf(old(grid), p), OkOf(old(grid), areas, p), start, path)
      ensures !closed ==> grid == old(grid) && score1 == old(score1) && score2 == old(score2)
                          && kids == Extend(path, Neighbors(old(grid), Last(path), p))
      ensures closed ==> Snap() == AddScore(old(Snap()).(grid := Captured(old(grid), path)), p, CaptureCount(old(grid), path, p))
    {
      hide Neighbors, CaptureCount, Captured, AlreadyCaptured;
      var nbrs := GetNeighbors(path[|path| - 1], p);
      kids := [];
      var j := 0;
      while j < |nbrs|
        invariant 0 <= j <= |nbrs|
        invariant grid == old(grid) && score1 == old(score1) && score2 == old(score2)
        invariant kids == Extend(path, nbrs[..j])
        invariant |path| >= 4 && start in nbrs[..j] ==> AlreadyCaptured(areas, path) || CaptureCount(grid, path, p) == 0
      {
        var nb := nbrs[j];
        TakeOneMore(nbrs, j);
        ExtendStep(path, nbrs, j);
        if |path| >= 4 && nb == start {
          closed := TryClose(path, p);
          if closed {
            return;
          }
        }
        if nb !in path {
          kids := kids + [path + [nb]];
        }
        j := j + 1;
      }
      assert nbrs[..|nbrs|] == nbrs;
      closed := false;
    }

    /** `find_cycle(start, player_id)`: the explicit-stack search. The first fence
        that closes is returned, with its capture and score done; `None` when the
        stack runs empty. */
    method FindCycle(start: Pos, p: int) returns (cycle: Option<seq<Pos>>)
      requires Valid() && InBounds(n, start) && IsPlayer(p)
      modifies this`grid, this`score1, this`score2
      ensures Valid()
      ensures (Snap(), cycle) == FindCycleStep(old(Snap()), start, p)
    {
      hide Visit, FindCycleSpec, FindCycleStep, Captured, CaptureCount, Neighbors, Extend, AlreadyCaptured, Closes, OkOf, Steps;
      ghost var next := NextOf(grid, p);
      ghost var ok := OkOf(grid, areas, p);
      SearchFromStart(grid, areas, start, p);
      FindCycleStepCases(Snap(), start, p);
      var stack: seq<seq<Pos>> := [[start]];
      while stack != []
        invariant grid == old(grid) && score1 == old(score1) && score2 == old(score2)
        invariant forall k :: k in stack ==> OnBoard(n, k) && k[0] == start
        invariant SearchStack(n, next, ok, start, stack) == FindCycleSpec(grid, areas, start, p)
        decreases Weight(n, stack)
      {
        var path := stack[|stack| - 1];
        var closed, kids := Expand(start, p, path);
        if closed {
          SearchCloses(n, next, ok, start, stack);
          return Some(path);
        }
        SearchStep(n, next, ok, start, stack);
        PopPushDecreases(n, stack[..|stack| - 1], path, next(Last(path)));
        stack := stack[..|stack| - 1] + kids;
      }
      return None;
    }

    /** A search for `p` from `start` whose fence, if any, joins `captured_areas`. */
    method SearchAndRecordAt(start: Pos, p: int)
      requires Valid() && InBounds(n, start) && IsPlayer(p)
      modifies this`grid, this`score1, this`score2, this`areas
      ensures Valid()
      ensures Snap() == SearchAndRecord(old(Snap()), start, p)
    {
      hide FindCycleSpec;
      var cycle := FindCycle(start, p);
      if cycle.Some? {
        areas := areas + [Area(cycle.value, p)];
      }
    }

    /** The body of the sweep at offset (dr, dc): a search from a live enemy dot. */
    method SweepAt(center: Pos, e: int, dr: int, dc: int)
      requires Valid() && IsPlayer(e)
      modifies this`grid, this`score1, this`score2, this`areas
      ensures Valid()
      ensures Snap() == AroundAt(old(Snap()), center, e, dr, dc)
    {
      hide FindCycleStep;
      var nr, nc := center.r + dr, center.c + dc;
      if 0 <= nr < n && 0 <= nc < n && grid[nr][nc].owner == e && !grid[nr][nc].captured {
        AroundAtLive(Snap(), center, e, dr, dc);
        SearchAndRecordAt(Pos(nr, nc), e);
      } else {
        AroundAtDead(Snap(), center, e, dr, dc);
      }
    }

    /** `check_for_cycles_around(r, c)`: a search for the owner of the dot at (r, c)
        from that dot, then a search for the enemy from every live enemy dot of the
        3-by-3 block around it; each fence found is recorded. */
    method CheckForCyclesAround(q: Pos)
      requires Valid() && InBounds(n, q) && IsPlayer(grid[q.r][q.c].owner)
      modifies this`grid, this`score1, this`score2, this`areas
      ensures Valid()
      ensures Snap() == CheckAround(old(Snap()), q)
    {
      hide FindCycleStep;
      var owner := grid[q.r][q.c].owner;
      SearchAndRecordAt(q, owner);
      var e := 3 - owner;
      var dr := -1;
      while dr < 2
        invariant -1 <= dr <= 2
        invariant Valid()
        invariant AroundFrom(Snap(), q, e, dr, -1) == CheckAround(old(Snap()), q)
      {
        var dc := -1;
        while dc < 2
          invariant -1 <= dc <= 2
          invariant Valid()
          invariant AroundFrom(Snap(), q, e, dr, dc) == CheckAround(old(Snap()), q)
        {
          AroundFromStep(Snap(), q, e, dr, dc);
          SweepAt(q, e, dr, dc);
          dc := dc + 1;
        }
        AroundFromRow(Snap(), q, e, dr);
        dr := dr + 1;
      }
    }

    /** `check_full()`. */
    method CheckFull() returns (full: bool)
      requires Valid()
      ensures full == IsFull(grid)
    {
      var r := 0;
      while r < n
        invariant 0 <= r <= n
        invariant forall i, j :: 0 <= i < r && 0 <= j < n ==> grid[i][j].owner != Nobody || grid[i][j].captured
      {
        var c := 0;
        while c < n
          invariant 0 <= c <= n
          invariant forall i, j :: 0 <= i < n && 0 <= j < n && Before(i, j, r, c) ==> grid[i][j].owner != Nobody || grid[i][j].captured
        {
          if grid[r][c].owner == 0 && !grid[r][c].captured {
            return false;
          }
          c := c + 1;
        }
        r := r + 1;
      }
      return true;
    }

    /** `make_move(row, col)`: on a point that is neither owned nor captured, put the
        dot of the player to move, remember it, run the fence sweep, then end the
        game on a full board or pass the turn. Any other point changes nothing. */
    method MakeMove(q: Pos) returns (moved: bool)
      requires Valid() && InBounds(n, q)
      modifies this`grid, this`score1, this`score2, this`areas, this`turn, this`gameOver, this`lastMove
      ensures Valid()
      ensures moved == Legal(old(grid), q)
      ensures !moved ==> Snap() == old(Snap()) && turn == old(turn) && gameOver == old(gameOver) && lastMove == old(lastMove)
      ensures moved ==> Snap() == Play(old(Snap()), q, old(turn)) && lastMove == Some(q)
      ensures moved && IsFull(grid) ==> gameOver && turn == old(turn)
      ensures moved && !IsFull(grid) ==> gameOver == old(gameOver) && turn == Opponent(old(turn))
      ensures Inv(old(Snap())) ==> Inv(Snap())
    {
      hide FindCycleStep, CheckAround, Inv, IsFull;
      if grid[q.r][q.c].owner == 0 && !grid[q.r][q.c].captured {
        ghost var s0 := Snap();
        grid := grid[q.r := grid[q.r][q.c := grid[q.r][q.c].(owner := turn)]];
        assert Snap() == Place(s0, q, turn);
        lastMove := Some(q);
        CheckForCyclesAround(q);
        if Inv(s0) {
          PlayInv(s0, q, turn);
        }
        var full := CheckFull();
        if full {
          gameOver := true;
        } else {
          turn := 3 - turn;
        }
        return true;
      }
      return false;
    }

    /** `snapshot()`: the board, both scores and the fences, by value. */
    method Snapshot() returns (s: State)
      ensures s == Snap()
    {
      s := State(grid, score1, score2, areas);
    }

    /** `restore(snap)`: the board, both scores and the fences put back. */
    method Restore(s: State)
      requires IsSquare(s.grid) && |s.grid| == n
      modifies this`grid, this`score1, this`score2, this`areas
      ensures Snap() == s
    {
      grid := s.grid;
      score1 := s.score1;
      score2 := s.score2;
      areas := s.areas;
    }
  }
}
