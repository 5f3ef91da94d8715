/**
 * Deadlock detection of backend/app/main.py: the static dead squares of a
 * grid (`_compute_static_dead_squares`) and the two deadlock tests of
 * `check_deadlocks`.  Both tests are proved sound: a box they flag can never
 * again stand on a goal, whatever the player does.
 */
module Deadlocks {
  import opened Wrappers
  import opened Walks
  import opened Rules

  predicate IsGoalChar(c: char) {
    c == '.' || c == '*' || c == '+'
  }

  /** A cell of the grid whose character marks a goal (`.`, `*` or `+`). */
  predicate IsGoalCell(grid: seq<string>, p: Pos) {
    InGrid(grid, p) && IsGoalChar(grid[p.y][p.x])
  }

  /** A box at `p` can be pushed along `d`: neither its cell nor the cell behind it, where the player stands, is a wall. */
  predicate PushableFrom(grid: seq<string>, p: Pos, d: Dir) {
    !IsWall(grid, p) && !IsWall(grid, Back(p, d))
  }

  /** Pushing a lone box from `p` along `ds`, every push possible, brings it onto a goal cell. */
  ghost predicate PushesToGoal(grid: seq<string>, p: Pos, ds: seq<Dir>)
    decreases |ds|
  {
    if ds == [] then IsGoalCell(grid, p)
    else PushableFrom(grid, p, ds[0]) && PushesToGoal(grid, Step(p, ds[0]), ds[1..])
  }

  /** A lone box at `p` can still be pushed onto some goal. */
  ghost predicate Safe(grid: seq<string>, p: Pos) {
    exists ds :: PushesToGoal(grid, p, ds)
  }

  /** A floor cell, not a goal, from which no sequence of pushes brings a lone box onto a goal. */
  ghost predicate DeadSquare(grid: seq<string>, p: Pos) {
    !IsWall(grid, p) && !IsGoalCell(grid, p) && !Safe(grid, p)
  }

  lemma GoalIsSafe(grid: seq<string>, p: Pos)
    requires IsGoalCell(grid, p)
    ensures Safe(grid, p)
  {
    assert PushesToGoal(grid, p, []);
  }

  /** One reverse push: a box that can be pushed onto a safe cell stands on a safe cell. */
  lemma SafeBack(grid: seq<string>, c: Pos, d: Dir)
    requires Safe(grid, c) && PushableFrom(grid, Back(c, d), d)
    ensures Safe(grid, Back(c, d))
  {
    var ds :| PushesToGoal(grid, c, ds);
    assert Step(Back(c, d), d) == c;
    assert ([d] + ds)[1..] == ds;
    assert PushesToGoal(grid, Back(c, d), [d] + ds);
  }

  /** Goal cells in, and closed under reverse pushes. */
  ghost predicate ReverseClosed(grid: seq<string>, safe: set<Pos>) {
    && (forall p :: IsGoalCell(grid, p) ==> p in safe)
    && (forall c, d :: c in safe && PushableFrom(grid, Back(c, d), d) ==> Back(c, d) in safe)
  }

  lemma {:induction false} PushesToGoalInClosed(grid: seq<string>, safe: set<Pos>, p: Pos, ds: seq<Dir>)
    requires ReverseClosed(grid, safe) && PushesToGoal(grid, p, ds)
    ensures p in safe
    decreases |ds|
  {
    if ds != [] {
      PushesToGoalInClosed(grid, safe, Step(p, ds[0]), ds[1..]);
      assert Back(Step(p, ds[0]), ds[0]) == p;
    }
  }

  /** The goal cells of the grid, row-major, as the first loops of `_compute_static_dead_squares` collect them. */
  method CollectGoals(grid: seq<string>) returns (goals: seq<Pos>)
    ensures forall p :: p in goals <==> IsGoalCell(grid, p)
  {
    goals := [];
    var y := 0;
    while y < |grid|
      invariant 0 <= y <= |grid|
      invariant forall p :: p in goals <==> IsGoalCell(grid, p) && p.y < y
    {
      var x := 0;
      while x < |grid[y]|
        invariant 0 <= x <= |grid[y]|
        invariant forall p :: p in goals <==> IsGoalCell(grid, p) && (p.y < y || (p.y == y && p.x < x))
      {
        if IsGoalChar(grid[y][x]) {
          goals := goals + [Pos(x, y)];
        }
        x := x + 1;
      }
      y := y + 1;
    }
  }

  /** Every cell of `safe` is a safe floor cell, and every queued cell is in `safe`. */
  ghost predicate SafeSoFar(grid: seq<string>, safe: set<Pos>, q: seq<Pos>) {
    && (forall p :: p in safe ==> Safe(grid, p) && !IsWall(grid, p))
    && (forall k :: k in q ==> k in safe)
  }

  /** The reverse-push queue is complete up to the cells still queued. */
  ghost predicate ReverseFrontier(grid: seq<string>, safe: set<Pos>, q: seq<Pos>) {
    forall c, d :: c in safe && PushableFrom(grid, Back(c, d), d) && Back(c, d) !in safe ==> c in q
  }

  /** The same, in the middle of expanding `cur`: its directions from index `i` on are still to be tried. */
  ghost predicate PartialReverseFrontier(grid: seq<string>, safe: set<Pos>, q: seq<Pos>, cur: Pos, i: nat) {
    forall c, d :: c in safe && PushableFrom(grid, Back(c, d), d) && Back(c, d) !in safe ==>
      c in q || (c == cur && DirIndex(d) >= i)
  }

  /** One round of the reverse-push search: the cells from which a box could be pushed onto `cur`. */
  method ExpandReverse(grid: seq<string>, cur: Pos, safe0: set<Pos>, q0: seq<Pos>) returns (safe: set<Pos>, q: seq<Pos>)
    requires cur in safe0 && SafeSoFar(grid, safe0, q0)
    requires PartialReverseFrontier(grid, safe0, q0, cur, 0)
    ensures safe0 <= safe && SafeSoFar(grid, safe, q) && ReverseFrontier(grid, safe, q)
    ensures safe == safe0 ==> q == q0
  {
    safe, q := safe0, q0;
    var i := 0;
    while i < |Dirs|
      invariant 0 <= i <= |Dirs|
      invariant safe0 <= safe && cur in safe && SafeSoFar(grid, safe, q)
      invariant safe == safe0 ==> q == q0
      invariant PartialReverseFrontier(grid, safe, q, cur, i)
    {
      var d := Dirs[i];
      var p := Back(cur, d);
      if p !in safe && !IsWall(grid, p) && !IsWall(grid, Back(p, d)) {
        SafeBack(grid, cur, d);
        safe := safe + {p};
        q := q + [p];
      }
      i := i + 1;
    }
  }

  /** The reverse-push search from the goal cells: exactly the safe cells. */
  method SafeSquares(grid: seq<string>) returns (safe: set<Pos>)
    ensures forall p :: p in safe <==> Safe(grid, p) && !IsWall(grid, p)
  {
    var goals := CollectGoals(grid);
    safe := set g | g in goals;
    var q := goals;
    forall g | g in safe
      ensures Safe(grid, g)
    {
      GoalIsSafe(grid, g);
    }
    ghost var universe := Free(grid, {});
    while q != []
      invariant SafeSoFar(grid, safe, q) && safe <= universe
      invariant forall p :: IsGoalCell(grid, p) ==> p in safe
      invariant ReverseFrontier(grid, safe, q)
      decreases |universe - safe|, |q|
    {
      var cur := q[0];
      q := q[1..];
      ghost var safe0 := safe;
      safe, q := ExpandReverse(grid, cur, safe, q);
      if safe != safe0 {
        GrowthShrinksRemainder(universe, safe0, safe);
      }
    }
    assert ReverseClosed(grid, safe);
    forall p | Safe(grid, p)
      ensures p in safe
    {
      var ds :| PushesToGoal(grid, p, ds);
      PushesToGoalInClosed(grid, safe, p, ds);
    }
  }

  /** `_compute_static_dead_squares`: the floor cells that are neither goals nor safe. */
  method ComputeStaticDeadSquares(grid: seq<string>) returns (dead: set<Pos>)
    ensures forall p :: p in dead <==> DeadSquare(grid, p)
  {
    var safe := SafeSquares(grid);
    dead := {};
    var y := 0;
    while y < |grid|
      invariant 0 <= y <= |grid|
      invariant forall p :: p in dead <==> DeadSquare(grid, p) && p.y < y
    {
      var x := 0;
      while x < |grid[y]|
        invariant 0 <= x <= |grid[y]|
        invariant forall p :: p in dead <==> DeadSquare(grid, p) && (p.y < y || (p.y == y && p.x < x))
      {
        if !IsWall(grid, Pos(x, y)) && !IsGoalChar(grid[y][x]) && Pos(x, y) !in safe {
          dead := dead + {Pos(x, y)};
        }
        x := x + 1;
      }
      y := y + 1;
    }
  }

  /** Walls above or below, and walls left or right: the corner test. */
  predicate CornerBlocked(grid: seq<string>, b: Pos) {
    (IsWall(grid, Step(b, Up)) || IsWall(grid, Step(b, Down))) &&
    (IsWall(grid, Step(b, Left)) || IsWall(grid, Step(b, Right)))
  }

  /** The box at `b` is not on a goal of the request and is cornered or on a dead square. */
  ghost predicate Doomed(s: GameState, b: Pos) {
    b !in BoxSet(s.goals) && (CornerBlocked(s.grid, b) || DeadSquare(s.grid, b))
  }

  /** `check_deadlocks`: true exactly when some box is doomed. */
  method CheckDeadlocks(s: GameState) returns (r: bool)
    ensures r <==> exists i :: 0 <= i < |s.boxes| && Doomed(s, s.boxes[i])
  {
    var goals := BoxSet(s.goals);
    var i := 0;
    while i < |s.boxes|
      invariant 0 <= i <= |s.boxes|
      invariant forall j :: 0 <= j < i ==> !(s.boxes[j] !in goals && CornerBlocked(s.grid, s.boxes[j]))
    {
      var b := s.boxes[i];
      if b !in goals && CornerBlocked(s.grid, b) {
        return true;
      }
      i := i + 1;
    }
    var dead := ComputeStaticDeadSquares(s.grid);
    i := 0;
    while i < |s.boxes|
      invariant 0 <= i <= |s.boxes|
      invariant forall j :: 0 <= j < i ==> !Doomed(s, s.boxes[j])
    {
      var b := s.boxes[i];
      if b !in goals && b in dead {
        return true;
      }
      i := i + 1;
    }
    return false;
  }

  // ---------------------------------------------------------------------------
  // Soundness: a flagged box stays flagged.

  /** Pushing a box off a dead square lands it on a dead square. */
  lemma DeadSquareStaysDead(grid: seq<string>, p: Pos, d: Dir)
    requires DeadSquare(grid, p) && PushableFrom(grid, p, d) && !IsWall(grid, Step(p, d))
    ensures DeadSquare(grid, Step(p, d))
  {
    var n := Step(p, d);
    assert Back(n, d) == p;
    if IsGoalCell(grid, n) {
      GoalIsSafe(grid, n);
    }
    if Safe(grid, n) {
      SafeBack(grid, n, d);
      assert false;
    }
  }

  /** After a run of legal moves the player is still off the walls. */
  lemma {:induction false} ReplayPlayerOffWalls(grid: seq<string>, st: State, ds: seq<Dir>)
    requires !IsWall(grid, st.player) && Replay(grid, st, ds).Some?
    ensures !IsWall(grid, Replay(grid, st, ds).value.state.player)
    decreases |ds|
  {
    if ds != [] {
      var init := ds[..|ds| - 1];
      ReplayPlayerOffWalls(grid, st, init);
      TryMoveInvariants(grid, Replay(grid, st, init).value.state, ds[|ds| - 1]);
    }
  }

  /** A cornered box never moves: any push would need the cells on both sides of it free. */
  lemma {:induction false} CorneredBoxStays(grid: seq<string>, st: State, ds: seq<Dir>, b: Pos)
    requires !IsWall(grid, st.player) && b in st.boxes && CornerBlocked(grid, b)
    requires Replay(grid, st, ds).Some?
    ensures b in Replay(grid, st, ds).value.state.boxes
    decreases |ds|
  {
    if ds != [] {
      var init, d := ds[..|ds| - 1], ds[|ds| - 1];
      CorneredBoxStays(grid, st, init, b);
      var mid := Replay(grid, st, init).value.state;
      ReplayPlayerOffWalls(grid, st, init);
      if Step(mid.player, d) == b {
        assert false;
      }
    }
  }

  /** A box on a dead square keeps some box on a dead square, whatever the player does. */
  lemma {:induction false} DeadBoxStays(grid: seq<string>, st: State, ds: seq<Dir>, b: Pos)
    requires !IsWall(grid, st.player) && b in st.boxes && DeadSquare(grid, b)
    requires Replay(grid, st, ds).Some?
    ensures exists b' :: b' in Replay(grid, st, ds).value.state.boxes && DeadSquare(grid, b')
    decreases |ds|
  {
    if ds == [] {
      assert b in Replay(grid, st, ds).value.state.boxes;
    } else {
      var init, d := ds[..|ds| - 1], ds[|ds| - 1];
      DeadBoxStays(grid, st, init, b);
      var mid := Replay(grid, st, init).value.state;
      var b0 :| b0 in mid.boxes && DeadSquare(grid, b0);
      ReplayPlayerOffWalls(grid, st, init);
      var next := Replay(grid, st, ds).value.state;
      if Step(mid.player, d) == b0 {
        assert Back(b0, d) == mid.player;
        DeadSquareStaysDead(grid, b0, d);
        assert Step(b0, d) in next.boxes;
      } else {
        assert b0 in next.boxes;
      }
    }
  }

  /**
   * What `check_deadlocks` promises: when it reports a deadlock for a request
   * whose goals are goal cells of its grid and whose player stands off the
   * walls, no run of legal moves ever reaches a solved board.
   */
  lemma DeadlockIsPermanent(s: GameState, ds: seq<Dir>)
    requires exists i :: 0 <= i < |s.boxes| && Doomed(s, s.boxes[i])
    requires !IsWall(s.grid, s.player) && forall g :: g in s.goals ==> IsGoalCell(s.grid, g)
    requires Replay(s.grid, Start(s), ds).Some?
    ensures !Solved(Replay(s.grid, Start(s), ds).value.state.boxes, BoxSet(s.goals))
  {
    var i :| 0 <= i < |s.boxes| && Doomed(s, s.boxes[i]);
    var b := s.boxes[i];
    var final := Replay(s.grid, Start(s), ds).value.state;
    if CornerBlocked(s.grid, b) {
      CorneredBoxStays(s.grid, Start(s), ds, b);
      assert b in final.boxes && b !in BoxSet(s.goals);
    } else {
      DeadBoxStays(s.grid, Start(s), ds, b);
      var b' :| b' in final.boxes && DeadSquare(s.grid, b');
      assert b' !in BoxSet(s.goals);
    }
  }
}
