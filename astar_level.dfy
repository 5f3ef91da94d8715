/**
 * The level model of backend/astar_level36.py: `parse_level`, where the
 * padding beyond a short row is wall, the player's reachable flood fill, the
 * canonical player of a push-search state, push successors, the solved test
 * and the text rendering.
 */
module AstarLevel {
  import opened Wrappers
  import opened Walks
  import opened Rules

  /** `ParsedLevel`: the padded rectangle, its walls, goals, and the start. */
  datatype Level = Level(width: int, height: int, walls: set<Pos>, goals: set<Pos>, startPlayer: Pos, startBoxes: set<Pos>)

  predicate InRect(level: Level, p: Pos) {
    0 <= p.x < level.width && 0 <= p.y < level.height
  }

  // ---------------------------------------------------------------------------
  // parse_level

  /** `max(len(r) for r in lines)`, defined for a non-empty list only, as `max` is. */
  function MaxWidth(lines: seq<string>): (w: nat)
    requires |lines| > 0
    ensures forall i :: 0 <= i < |lines| ==> |lines[i]| <= w
    ensures exists i :: 0 <= i < |lines| && |lines[i]| == w
    decreases |lines|
  {
    if |lines| == 1 then |lines[0]|
    else
      var rest := MaxWidth(lines[1..]);
      assert forall i :: 1 <= i < |lines| ==> lines[i] == lines[1..][i - 1];
      if |lines[0]| >= rest then |lines[0]| else rest
  }

  /** What `parse_level` records about a cell. */
  datatype Mark = WallMark | GoalMark | BoxMark | PlayerMark

  /**
   * Cell `p` of the `width`-wide rectangle carries mark `m`: past the end of
   * its row it is a wall; otherwise `#` is a wall, `.`/`*`/`+` a goal,
   * `$`/`*` a box and `@`/`+` the player.  Any other character marks nothing.
   */
  predicate HasMark(lines: seq<string>, width: int, p: Pos, m: Mark) {
    && 0 <= p.y < |lines| && 0 <= p.x < width
    && match m
       case WallMark => p.x >= |lines[p.y]| || lines[p.y][p.x] == '#'
       case GoalMark => p.x < |lines[p.y]| && lines[p.y][p.x] in {'.', '*', '+'}
       case BoxMark => p.x < |lines[p.y]| && lines[p.y][p.x] in {'$', '*'}
       case PlayerMark => p.x < |lines[p.y]| && lines[p.y][p.x] in {'@', '+'}
  }

  /** `p` comes before `(x, y)` in row-major order, the order the parser visits cells. */
  predicate Before(p: Pos, x: int, y: int) {
    p.y < y || (p.y == y && p.x < x)
  }

  /** The cells marked `m` that come before `(x, y)`. */
  function MarkedBefore(lines: seq<string>, width: int, m: Mark, x: int, y: int): (s: set<Pos>)
    ensures forall p {:trigger p in s} :: p in s <==> HasMark(lines, width, p, m) && Before(p, x, y)
  {
    set py, px | 0 <= py < |lines| && 0 <= px < width && HasMark(lines, width, Pos(px, py), m) && Before(Pos(px, py), x, y)
      :: Pos(px, py)
  }

  /** Passing cell `(x, y)` adds it to the marked cells exactly when it carries the mark. */
  lemma MarkedStep(lines: seq<string>, width: int, m: Mark, x: int, y: int)
    ensures MarkedBefore(lines, width, m, x + 1, y) ==
      MarkedBefore(lines, width, m, x, y) + if HasMark(lines, width, Pos(x, y), m) then {Pos(x, y)} else {}
  {
  }

  /** The end of row `y` is the start of row `y + 1`. */
  lemma MarkedRowEnd(lines: seq<string>, width: int, m: Mark, y: int)
    ensures MarkedBefore(lines, width, m, width, y) == MarkedBefore(lines, width, m, 0, y + 1)
  {
  }

  /** `player` is the last player cell before `(x, y)` (a later `@` or `+` overwrites an earlier one), or `None` when there is none. */
  ghost predicate LastPlayerBefore(lines: seq<string>, width: int, player: Option<Pos>, x: int, y: int) {
    match player
    case None => forall p :: HasMark(lines, width, p, PlayerMark) ==> !Before(p, x, y)
    case Some(pl) =>
      && HasMark(lines, width, pl, PlayerMark) && Before(pl, x, y)
      && forall p :: HasMark(lines, width, p, PlayerMark) && Before(p, x, y) ==> p == pl || Before(p, pl.x, pl.y)
  }

  /** The marks of the whole level. */
  function Marked(lines: seq<string>, width: int, m: Mark): set<Pos> {
    MarkedBefore(lines, width, m, 0, |lines|)
  }

  /** `level` is what `parse_level` returns for `lines`. */
  ghost predicate IsParseOf(lines: seq<string>, level: Level) {
    && |lines| > 0
    && level.width == MaxWidth(lines) && level.height == |lines|
    && level.walls == Marked(lines, level.width, WallMark)
    && level.goals == Marked(lines, level.width, GoalMark)
    && level.startBoxes == Marked(lines, level.width, BoxMark)
    && LastPlayerBefore(lines, level.width, Some(level.startPlayer), 0, |lines|)
    && |level.startBoxes| == |level.goals|
  }

  /** One cell of `parse_level`: `(x, y)` recorded in the set its character calls for. */
  method ScanCell(lines: seq<string>, width: nat, x: nat, y: nat,
                  walls0: set<Pos>, goals0: set<Pos>, boxes0: set<Pos>, player0: Option<Pos>)
    returns (walls: set<Pos>, goals: set<Pos>, boxes: set<Pos>, player: Option<Pos>)
    requires y < |lines| && x < width
    requires walls0 == MarkedBefore(lines, width, WallMark, x, y)
    requires goals0 == MarkedBefore(lines, width, GoalMark, x, y)
    requires boxes0 == MarkedBefore(lines, width, BoxMark, x, y)
    requires LastPlayerBefore(lines, width, player0, x, y)
    ensures walls == MarkedBefore(lines, width, WallMark, x + 1, y)
    ensures goals == MarkedBefore(lines, width, GoalMark, x + 1, y)
    ensures boxes == MarkedBefore(lines, width, BoxMark, x + 1, y)
    ensures LastPlayerBefore(lines, width, player, x + 1, y)
  {
    walls, goals, boxes, player := walls0, goals0, boxes0, player0;
    var row := lines[y];
    var p := Pos(x, y);
    MarkedStep(lines, width, WallMark, x, y);
    MarkedStep(lines, width, GoalMark, x, y);
    MarkedStep(lines, width, BoxMark, x, y);
    if x >= |row| {
      walls := walls + {p};
    } else {
      var c := row[x];
      if c == '#' {
        walls := walls + {p};
      } else if c == '.' {
        goals := goals + {p};
      } else if c == '$' {
        boxes := boxes + {p};
      } else if c == '@' {
        player := Some(p);
      } else if c == '*' {
        boxes := boxes + {p};
        goals := goals + {p};
      } else if c == '+' {
        player := Some(p);
        goals := goals + {p};
      }
    }
  }

  /** The inner loop of `parse_level`: the cells of row `y`, added to the sets of the earlier rows. */
  method ScanRow(lines: seq<string>, width: nat, y: nat,
                 walls0: set<Pos>, goals0: set<Pos>, boxes0: set<Pos>, player0: Option<Pos>)
    returns (walls: set<Pos>, goals: set<Pos>, boxes: set<Pos>, player: Option<Pos>)
    requires y < |lines|
    requires walls0 == MarkedBefore(lines, width, WallMark, 0, y)
    requires goals0 == MarkedBefore(lines, width, GoalMark, 0, y)
    requires boxes0 == MarkedBefore(lines, width, BoxMark, 0, y)
    requires LastPlayerBefore(lines, width, player0, 0, y)
    ensures walls == MarkedBefore(lines, width, WallMark, 0, y + 1)
    ensures goals == MarkedBefore(lines, width, GoalMark, 0, y + 1)
    ensures boxes == MarkedBefore(lines, width, BoxMark, 0, y + 1)
    ensures LastPlayerBefore(lines, width, player, 0, y + 1)
  {
    walls, goals, boxes, player := walls0, goals0, boxes0, player0;
    var x := 0;
    while x < width
      invariant 0 <= x <= width
      invariant walls == MarkedBefore(lines, width, WallMark, x, y)
      invariant goals == MarkedBefore(lines, width, GoalMark, x, y)
      invariant boxes == MarkedBefore(lines, width, BoxMark, x, y)
      invariant LastPlayerBefore(lines, width, player, x, y)
    {
      walls, goals, boxes, player := ScanCell(lines, width, x, y, walls, goals, boxes, player);
      x := x + 1;
    }
    MarkedRowEnd(lines, width, WallMark, y);
    MarkedRowEnd(lines, width, GoalMark, y);
    MarkedRowEnd(lines, width, BoxMark, y);
  }

  /**
   * `parse_level`: an error for an empty list (`max` of nothing), for a level
   * without a player, and for a level whose box and goal counts differ;
   * otherwise the level read cell by cell.
   */
  method ParseLevel(lines: seq<string>) returns (r: Result<Level>)
    ensures r.Ok? ==> IsParseOf(lines, r.value)
    ensures r.Err? <==>
      || |lines| == 0
      || (forall p :: !HasMark(lines, MaxWidth(lines), p, PlayerMark))
      || |Marked(lines, MaxWidth(lines), BoxMark)| != |Marked(lines, MaxWidth(lines), GoalMark)|
  {
    if |lines| == 0 {
      return Err("max() arg is an empty sequence");
    }
    var height := |lines|;
    var width := MaxWidth(lines);
    var walls: set<Pos> := {};
    var goals: set<Pos> := {};
    var boxes: set<Pos> := {};
    var player: Option<Pos> := None;
    var y := 0;
    while y < height
      invariant 0 <= y <= height
      invariant walls == MarkedBefore(lines, width, WallMark, 0, y)
      invariant goals == MarkedBefore(lines, width, GoalMark, 0, y)
      invariant boxes == MarkedBefore(lines, width, BoxMark, 0, y)
      invariant LastPlayerBefore(lines, width, player, 0, y)
    {
      walls, goals, boxes, player := ScanRow(lines, width, y, walls, goals, boxes, player);
      y := y + 1;
    }
    PlayerFound(lines, width, player);
    assert walls == Marked(lines, width, WallMark) && goals == Marked(lines, width, GoalMark);
    assert boxes == Marked(lines, width, BoxMark);
    if player.None? {
      return Err("No player '@' found in level.");
    }
    if |boxes| != |goals| {
      return Err("Expected same number of boxes and goals");
    }
    return Ok(Level(width, height, walls, goals, player.value, boxes));
  }

  /** A parsed level treats every cell past the end of a short row as wall. */
  lemma ParsedPaddingIsWall(lines: seq<string>, level: Level)
    requires IsParseOf(lines, level)
    ensures forall p: Pos :: 0 <= p.y < |lines| && |lines[p.y]| <= p.x < level.width ==> p in level.walls
  {
    forall p: Pos | 0 <= p.y < |lines| && |lines[p.y]| <= p.x < level.width
      ensures p in level.walls
    {
      assert HasMark(lines, level.width, p, WallMark);
    }
  }

  /** In a parsed level a `*` is a box standing on a goal and a `+` is a goal. */
  lemma ParsedStarAndPlus(lines: seq<string>, level: Level)
    requires IsParseOf(lines, level)
    ensures forall p: Pos :: InRect(level, p) && p.x < |lines[p.y]| && lines[p.y][p.x] == '*' ==> p in level.startBoxes && p in level.goals
    ensures forall p: Pos :: InRect(level, p) && p.x < |lines[p.y]| && lines[p.y][p.x] == '+' ==> p in level.goals
  {
    forall p: Pos | InRect(level, p) && p.x < |lines[p.y]| && lines[p.y][p.x] == '*'
      ensures p in level.startBoxes && p in level.goals
    {
      assert HasMark(lines, level.width, p, BoxMark) && HasMark(lines, level.width, p, GoalMark);
    }
    forall p: Pos | InRect(level, p) && p.x < |lines[p.y]| && lines[p.y][p.x] == '+'
      ensures p in level.goals
    {
      assert HasMark(lines, level.width, p, GoalMark);
    }
  }

  /** In a parsed level the player stands inside the rectangle on no wall, and every recorded cell is inside the rectangle. */
  lemma ParsedPlayerOffWalls(lines: seq<string>, level: Level)
    requires IsParseOf(lines, level)
    ensures InRect(level, level.startPlayer) && level.startPlayer !in level.walls
    ensures forall p :: p in level.walls + level.goals + level.startBoxes ==> InRect(level, p)
  {
    assert !HasMark(lines, level.width, level.startPlayer, WallMark);
  }

  /** After the last row, the player search has found a player exactly when the level has one. */
  lemma PlayerFound(lines: seq<string>, width: int, player: Option<Pos>)
    requires LastPlayerBefore(lines, width, player, 0, |lines|)
    ensures player.None? <==> forall p :: !HasMark(lines, width, p, PlayerMark)
  {
  }

  // ---------------------------------------------------------------------------
  // Distances and the flood fill

  function Abs(a: int): nat {
    if a < 0 then -a else a
  }

  /** `manhattan`: zero exactly on the same cell, symmetric, and one push changes it by at most one. */
  function Manhattan(a: Pos, b: Pos): (r: nat)
    ensures r == 0 <==> a == b
  {
    Abs(a.x - b.x) + Abs(a.y - b.y)
  }

  lemma ManhattanFacts(a: Pos, b: Pos, c: Pos, d: Dir)
    ensures Manhattan(a, b) == Manhattan(b, a)
    ensures Manhattan(a, c) <= Manhattan(a, b) + Manhattan(b, c)
    ensures Manhattan(Step(a, d), b) + 1 >= Manhattan(a, b)
  {
  }

  /** The cells the player may walk through: inside the rectangle, not a wall, no box. */
  function LevelFree(level: Level, boxes: set<Pos>): (free: set<Pos>)
    ensures forall p {:trigger p in free} :: p in free <==> InRect(level, p) && p !in level.walls && p !in boxes
  {
    set y, x | 0 <= y < level.height && 0 <= x < level.width && Pos(x, y) !in level.walls && Pos(x, y) !in boxes :: Pos(x, y)
  }

  /** Every step out of a seen cell into a free unseen cell leaves from a queued cell. */
  ghost predicate SeenFrontier(free: set<Pos>, seen: set<Pos>, q: seq<Pos>) {
    forall k, d :: k in seen && Step(k, d) in free && Step(k, d) !in seen ==> k in q
  }

  /** `SeenFrontier` while `cur` is expanded, its directions from index `i` on still to come. */
  ghost predicate PartialSeenFrontier(free: set<Pos>, seen: set<Pos>, q: seq<Pos>, cur: Pos, i: nat) {
    forall k, d :: k in seen && Step(k, d) in free && Step(k, d) !in seen ==> k in q || (k == cur && DirIndex(d) >= i)
  }

  /** One round of `flood_reachable`: the in-bounds, unseen, unblocked neighbours of `cur`, in `DIRS` order. */
  method FloodNeighbours(level: Level, boxes: set<Pos>, ghost player: Pos, cur: Pos, seen0: set<Pos>, q0: seq<Pos>)
    returns (seen: set<Pos>, q: seq<Pos>)
    requires cur in seen0 && seen0 <= LevelFree(level, boxes) + {player}
    requires forall k :: k in seen0 ==> Reachable(LevelFree(level, boxes), player, k)
    requires forall k :: k in q0 ==> k in seen0
    requires PartialSeenFrontier(LevelFree(level, boxes), seen0, q0, cur, 0)
    ensures seen0 <= seen <= LevelFree(level, boxes) + {player}
    ensures seen == seen0 ==> q == q0
    ensures forall k :: k in seen ==> Reachable(LevelFree(level, boxes), player, k)
    ensures forall k :: k in q ==> k in seen
    ensures SeenFrontier(LevelFree(level, boxes), seen, q)
  {
    ghost var free := LevelFree(level, boxes);
    seen, q := seen0, q0;
    var i := 0;
    while i < |Dirs|
      invariant 0 <= i <= |Dirs|
      invariant seen0 <= seen <= free + {player}
      invariant seen == seen0 ==> q == q0
      invariant forall k :: k in seen ==> Reachable(free, player, k)
      invariant forall k :: k in q ==> k in seen
      invariant PartialSeenFrontier(free, seen, q, cur, i)
    {
      var d := Dirs[i];
      var n := Step(cur, d);
      if 0 <= n.x < level.width && 0 <= n.y < level.height && n !in seen && n !in level.walls && n !in boxes {
        ReachableStep(free, player, cur, d);
        seen := seen + {n};
        q := q + [n];
      }
      i := i + 1;
    }
  }

  /**
   * `flood_reachable`: the cells the player reaches by walking inside the
   * rectangle around walls and boxes, the start included.
   */
  method FloodReachable(level: Level, player: Pos, boxes: set<Pos>) returns (seen: set<Pos>)
    ensures forall p :: p in seen <==> Reachable(LevelFree(level, boxes), player, p)
  {
    ghost var free := LevelFree(level, boxes);
    ghost var universe := free + {player};
    ReachableSelf(free, player);
    var q := [player];
    seen := {player};
    while q != []
      invariant seen <= universe
      invariant player in seen
      invariant forall k :: k in seen ==> Reachable(free, player, k)
      invariant forall k :: k in q ==> k in seen
      invariant SeenFrontier(free, seen, q)
      decreases |universe - seen|, |q|
    {
      var cur := q[0];
      q := q[1..];
      ghost var seen0 := seen;
      seen, q := FloodNeighbours(level, boxes, player, cur, seen, q);
      if seen != seen0 {
        GrowthShrinksRemainder(universe, seen0, seen);
      }
    }
    assert Closed(free, seen);
    forall p | Reachable(free, player, p)
      ensures p in seen
    {
      ClosedContainsReachable(free, seen, player, p);
    }
  }

  /** The flood fill always holds the start; every other cell it holds is in the rectangle, no wall and no box. */
  lemma FloodMembers(level: Level, player: Pos, boxes: set<Pos>, p: Pos)
    requires Reachable(LevelFree(level, boxes), player, p) && p != player
    ensures InRect(level, p) && p !in level.walls && p !in boxes
  {
    var ds :| ValidWalk(LevelFree(level, boxes), player, ds) && End(player, ds) == p;
    LastStepFree(LevelFree(level, boxes), player, ds);
  }

  /** A walk that goes somewhere ends on a cell of `free`. */
  lemma {:induction false} LastStepFree(free: set<Pos>, p: Pos, ds: seq<Dir>)
    requires ValidWalk(free, p, ds) && End(p, ds) != p
    ensures End(p, ds) in free
    decreases |ds|
  {
    var q := Step(p, ds[0]);
    if End(q, ds[1..]) != q {
      LastStepFree(free, q, ds[1..]);
    }
  }

  // ---------------------------------------------------------------------------
  // Push-search states

  /** `is_solved`: the box set is the goal set. */
  predicate IsSolved(level: Level, boxes: set<Pos>) {
    boxes == level.goals
  }

  /** With as many boxes as goals, which parsing and pushing keep, solved means every box is on a goal. */
  lemma SolvedIffAllOnGoals(level: Level, boxes: set<Pos>)
    requires |boxes| == |level.goals|
    ensures IsSolved(level, boxes) <==> boxes <= level.goals
  {
    if boxes <= level.goals {
      assert level.goals == boxes + (level.goals - boxes);
      assert |level.goals - boxes| == 0;
    }
  }

  /** `rep` stands for the player at `player`: reachable from there and the lexicographically smallest such cell. */
  ghost predicate IsCanonical(level: Level, player: Pos, boxes: set<Pos>, rep: Pos) {
    && Reachable(LevelFree(level, boxes), player, rep)
    && forall q :: Reachable(LevelFree(level, boxes), player, q) ==> LexLe(rep, q)
  }

  /** `canonical_state`: the boxes untouched, the player moved to the smallest cell it can walk to. */
  method CanonicalState(level: Level, player: Pos, boxes: set<Pos>) returns (st: State)
    ensures st.boxes == boxes && IsCanonical(level, player, boxes, st.player)
  {
    var reachable := FloodReachable(level, player, boxes);
    ReachableSelf(LevelFree(level, boxes), player);
    var rep := MinCell(reachable);
    return State(rep, boxes);
  }

  /** Two players on free cells of the same component get the same canonical cell. */
  lemma CanonicalAgrees(level: Level, boxes: set<Pos>, p1: Pos, p2: Pos, c1: Pos, c2: Pos)
    requires p1 in LevelFree(level, boxes) && Reachable(LevelFree(level, boxes), p1, p2)
    requires IsCanonical(level, p1, boxes, c1) && IsCanonical(level, p2, boxes, c2)
    ensures c1 == c2
  {
    var free := LevelFree(level, boxes);
    SameComponent(free, p1, p2, c1);
    SameComponent(free, p1, p2, c2);
  }

  /** `Move`: a box pushed from `boxFrom` to `boxTo` in direction `dir`. */
  datatype Move = Move(boxFrom: Pos, boxTo: Pos, dir: Dir)

  /**
   * Pushing box `b` in direction `d` is allowed: the cell behind the box and
   * the cell ahead are inside the rectangle, the player can walk behind the
   * box, and the cell ahead is neither wall nor box.
   */
  ghost predicate LegalPush(level: Level, st: State, b: Pos, d: Dir) {
    && b in st.boxes
    && InRect(level, Back(b, d)) && InRect(level, Step(b, d))
    && Reachable(LevelFree(level, st.boxes), st.player, Back(b, d))
    && Step(b, d) !in level.walls && Step(b, d) !in st.boxes
  }

  /** `next` is the state after push `mv`: the box moved, the player canonical from the box's old cell. */
  ghost predicate IsSuccessor(level: Level, st: State, next: State, mv: Move) {
    && LegalPush(level, st, mv.boxFrom, mv.dir)
    && mv.boxTo == Step(mv.boxFrom, mv.dir)
    && next.boxes == st.boxes - {mv.boxFrom} + {mv.boxTo}
    && IsCanonical(level, mv.boxFrom, next.boxes, next.player)
  }

  /** Some entry of `succ` pushes box `b` in direction `d`. */
  ghost predicate Offers(succ: seq<(State, Move)>, b: Pos, d: Dir) {
    exists i :: 0 <= i < |succ| && succ[i].1.boxFrom == b && succ[i].1.dir == d
  }

  lemma OffersGrow(succ: seq<(State, Move)>, more: seq<(State, Move)>)
    ensures forall b, d :: Offers(succ, b, d) ==> Offers(succ + more, b, d)
  {
    forall b, d | Offers(succ, b, d)
      ensures Offers(succ + more, b, d)
    {
      var i :| 0 <= i < |succ| && succ[i].1.boxFrom == b && succ[i].1.dir == d;
      assert (succ + more)[i] == succ[i];
    }
  }

  /** The inner loop of `successors`: the pushes of box `b`, in `DIRS` order. */
  method PushesOf(level: Level, st: State, reachable: set<Pos>, b: Pos, succ0: seq<(State, Move)>)
    returns (succ: seq<(State, Move)>)
    requires b in st.boxes
    requires forall p :: p in reachable <==> Reachable(LevelFree(level, st.boxes), st.player, p)
    requires forall i :: 0 <= i < |succ0| ==> IsSuccessor(level, st, succ0[i].0, succ0[i].1)
    ensures forall i :: 0 <= i < |succ| ==> IsSuccessor(level, st, succ[i].0, succ[i].1)
    ensures forall b', d :: Offers(succ0, b', d) ==> Offers(succ, b', d)
    ensures forall d :: LegalPush(level, st, b, d) ==> Offers(succ, b, d)
  {
    succ := succ0;
    var i := 0;
    while i < |Dirs|
      invariant 0 <= i <= |Dirs|
      invariant forall j :: 0 <= j < |succ| ==> IsSuccessor(level, st, succ[j].0, succ[j].1)
      invariant forall b', d :: Offers(succ0, b', d) ==> Offers(succ, b', d)
      invariant forall j :: 0 <= j < i && LegalPush(level, st, b, Dirs[j]) ==> Offers(succ, b, Dirs[j])
    {
      var d := Dirs[i];
      var need := Back(b, d);
      var dest := Step(b, d);
      if InRect(level, need) && InRect(level, dest) && need in reachable && dest !in level.walls && dest !in st.boxes {
        var next := CanonicalState(level, b, st.boxes - {b} + {dest});
        OffersGrow(succ, [(next, Move(b, dest, d))]);
        succ := succ + [(next, Move(b, dest, d))];
        assert succ[|succ| - 1].1.boxFrom == b && succ[|succ| - 1].1.dir == d;
      }
      i := i + 1;
    }
    forall d | LegalPush(level, st, b, d)
      ensures Offers(succ, b, d)
    {
      assert Dirs[DirIndex(d)] == d;
    }
  }

  /**
   * `successors`: one entry per legal push of one box by one cell, each with
   * the canonical state it leads to, and every legal push offered.  The order
   * of the boxes is the set's iteration order, which is left open here.
   */
  method Successors(level: Level, st: State) returns (succ: seq<(State, Move)>)
    ensures forall i :: 0 <= i < |succ| ==> IsSuccessor(level, st, succ[i].0, succ[i].1)
    ensures forall b, d :: LegalPush(level, st, b, d) ==> Offers(succ, b, d)
  {
    var reachable := FloodReachable(level, st.player, st.boxes);
    succ := [];
    var todo := st.boxes;
    while todo != {}
      invariant todo <= st.boxes
      invariant forall i :: 0 <= i < |succ| ==> IsSuccessor(level, st, succ[i].0, succ[i].1)
      invariant forall b, d :: b in st.boxes && b !in todo && LegalPush(level, st, b, d) ==> Offers(succ, b, d)
      decreases |todo|
    {
      var b :| b in todo;
      succ := PushesOf(level, st, reachable, b, succ);
      todo := todo - {b};
    }
  }

  /** A push moves exactly one box by one step and keeps the number of boxes. */
  lemma SuccessorMovesOneBox(level: Level, st: State, next: State, mv: Move)
    requires IsSuccessor(level, st, next, mv)
    ensures |next.boxes| == |st.boxes|
    ensures st.boxes - next.boxes == {mv.boxFrom} && next.boxes - st.boxes == {mv.boxTo}
    ensures Manhattan(mv.boxFrom, mv.boxTo) == 1
    ensures InRect(level, mv.boxTo) && mv.boxTo !in level.walls
  {
    assert mv.boxFrom != mv.boxTo;
    assert |st.boxes - {mv.boxFrom}| == |st.boxes| - 1;
  }

  // ---------------------------------------------------------------------------
  // render

  /** The character drawn for a cell: walls first, then the player, then boxes, then goals. */
  function CellChar(level: Level, player: Pos, boxes: set<Pos>, p: Pos): char {
    if p in level.walls then '#'
    else if p == player then (if p in level.goals then '+' else '@')
    else if p in boxes then (if p in level.goals then '*' else '$')
    else if p in level.goals then '.'
    else ' '
  }

  /** What a drawn character says about its cell. */
  lemma CellCharDecodes(level: Level, player: Pos, boxes: set<Pos>, p: Pos)
    ensures CellChar(level, player, boxes, p) == '#' <==> p in level.walls
    ensures CellChar(level, player, boxes, p) in {'@', '+'} <==> p == player && p !in level.walls
    ensures CellChar(level, player, boxes, p) in {'$', '*'} <==> p in boxes && p != player && p !in level.walls
    ensures CellChar(level, player, boxes, p) in {'+', '*', '.'} <==> p in level.goals && p !in level.walls
    ensures CellChar(level, player, boxes, p) == ' ' <==> p !in level.walls && p != player && p !in boxes && p !in level.goals
  {
  }

  /** Python's `str.isspace` on one character: the Unicode whitespace characters. */
  predicate IsSpace(c: char) {
    || ('\t' <= c <= '\r') || ('\U{1C}' <= c <= ' ') || c == '\U{85}' || c == '\U{A0}' || c == '\U{1680}'
    || ('\U{2000}' <= c <= '\U{200A}') || c == '\U{2028}' || c == '\U{2029}' || c == '\U{202F}' || c == '\U{205F}'
    || c == '\U{3000}'
  }

  /** `str.rstrip()`: the longest prefix that does not end in whitespace. */
  function RStrip(s: string): (r: string)
    ensures |r| <= |s| && r == s[..|r|]
    ensures r == [] || !IsSpace(r[|r| - 1])
    ensures forall i :: |r| <= i < |s| ==> IsSpace(s[i])
    decreases |s|
  {
    if s == [] || !IsSpace(s[|s| - 1]) then s else RStrip(s[..|s| - 1])
  }

  /** `"\n".join(rows)`. */
  function JoinLines(rows: seq<string>): string
    decreases |rows|
  {
    if rows == [] then "" else if |rows| == 1 then rows[0] else rows[0] + "\n" + JoinLines(rows[1..])
  }

  /** `str.split("\n")`: never empty; a text without newline is one line. */
  function SplitLines(s: string): (r: seq<string>)
    ensures |r| >= 1
    decreases |s|
  {
    if s == [] then [""]
    else if s[0] == '\n' then [""] + SplitLines(s[1..])
    else
      var rest := SplitLines(s[1..]);
      [[s[0]] + rest[0]] + rest[1..]
  }

  lemma {:induction false} SplitLinesPrefix(a: string, b: string)
    requires '\n' !in a
    ensures SplitLines(a + "\n" + b) == [a] + SplitLines(b)
    ensures SplitLines(a) == [a]
    decreases |a|
  {
    if a == [] {
      assert a + "\n" + b == "\n" + b;
      assert ("\n" + b)[1..] == b;
    } else {
      assert (a + "\n" + b)[0] == a[0] && (a + "\n" + b)[1..] == a[1..] + "\n" + b;
      SplitLinesPrefix(a[1..], b);
      assert [a[0]] + a[1..] == a;
    }
  }

  /** The rendered rows can be read back from the text: splitting at newlines undoes the join. */
  lemma {:induction false} SplitJoin(rows: seq<string>)
    requires |rows| >= 1
    requires forall i :: 0 <= i < |rows| ==> '\n' !in rows[i]
    ensures SplitLines(JoinLines(rows)) == rows
    decreases |rows|
  {
    if |rows| == 1 {
      SplitLinesPrefix(rows[0], "");
    } else {
      SplitJoin(rows[1..]);
      SplitLinesPrefix(rows[0], JoinLines(rows[1..]));
      assert [rows[0]] + rows[1..] == rows;
    }
  }

  /** The drawn characters of row `y`, before trailing blanks are stripped. */
  function RowChars(level: Level, player: Pos, boxes: set<Pos>, y: int): (r: string)
    requires level.width >= 0
  {
    seq(level.width, x requires 0 <= x < level.width => CellChar(level, player, boxes, Pos(x, y)))
  }

  /** The rendered rows: every drawn row with its trailing blanks stripped. */
  function RenderRows(level: Level, player: Pos, boxes: set<Pos>): seq<string>
    requires level.width >= 0 && level.height >= 0
  {
    seq(level.height, y requires 0 <= y < level.height => RStrip(RowChars(level, player, boxes, y)))
  }

  /** The rendered text splits back into exactly the rendered rows. */
  lemma RenderedLines(level: Level, player: Pos, boxes: set<Pos>)
    requires level.width >= 0 && level.height >= 1
    ensures SplitLines(JoinLines(RenderRows(level, player, boxes))) == RenderRows(level, player, boxes)
  {
    var rows := RenderRows(level, player, boxes);
    forall i | 0 <= i < |rows|
      ensures '\n' !in rows[i]
    {
      var chars := RowChars(level, player, boxes, i);
      assert rows[i] == chars[..|rows[i]|];
    }
    SplitJoin(rows);
  }

  /**
   * Reading a rendered row: each character is the cell's drawn character,
   * and a row that stops early stops only where blanks were stripped.
   */
  lemma RenderedCells(level: Level, player: Pos, boxes: set<Pos>)
    requires level.width >= 0 && level.height >= 0
    ensures forall y, x :: 0 <= y < level.height && 0 <= x < level.width ==>
      var row := RenderRows(level, player, boxes)[y];
      (x < |row| ==> row[x] == CellChar(level, player, boxes, Pos(x, y))) &&
      (x >= |row| ==> CellChar(level, player, boxes, Pos(x, y)) == ' ')
  {
    var rows := RenderRows(level, player, boxes);
    forall y | 0 <= y < level.height
      ensures forall x :: 0 <= x < level.width ==>
        (x < |rows[y]| ==> rows[y][x] == CellChar(level, player, boxes, Pos(x, y))) &&
        (x >= |rows[y]| ==> CellChar(level, player, boxes, Pos(x, y)) == ' ')
    {
      assert rows[y] == RStrip(RowChars(level, player, boxes, y));
      RenderedRowCells(level, player, boxes, y);
    }
  }

  /** One rendered row: the drawn characters up to where the trailing blanks were stripped. */
  lemma RenderedRowCells(level: Level, player: Pos, boxes: set<Pos>, y: int)
    requires level.width >= 0
    ensures var row := RStrip(RowChars(level, player, boxes, y));
      forall x :: 0 <= x < level.width ==>
        (x < |row| ==> row[x] == CellChar(level, player, boxes, Pos(x, y))) &&
        (x >= |row| ==> CellChar(level, player, boxes, Pos(x, y)) == ' ')
  {
    var chars := RowChars(level, player, boxes, y);
    var row := RStrip(chars);
    forall x | 0 <= x < level.width
      ensures x < |row| ==> row[x] == CellChar(level, player, boxes, Pos(x, y))
      ensures x >= |row| ==> CellChar(level, player, boxes, Pos(x, y)) == ' '
    {
      assert chars[x] == CellChar(level, player, boxes, Pos(x, y));
      if x < |row| {
        assert row[x] == chars[x];
      } else {
        assert IsSpace(chars[x]);
      }
    }
  }

  /** The inner loop of `render`: the drawn characters of row `y`, left to right. */
  method DrawRow(level: Level, player: Pos, boxes: set<Pos>, y: int) returns (row: string)
    requires level.width >= 0
    ensures row == RowChars(level, player, boxes, y)
  {
    row := [];
    var x := 0;
    while x < level.width
      invariant 0 <= x <= level.width
      invariant |row| == x && forall i :: 0 <= i < x ==> row[i] == CellChar(level, player, boxes, Pos(i, y))
    {
      var p := Pos(x, y);
      var c: char;
      if p in level.walls {
        c := '#';
      } else if p == player {
        c := if p in level.goals then '+' else '@';
      } else if p in boxes {
        c := if p in level.goals then '*' else '$';
      } else if p in level.goals {
        c := '.';
      } else {
        c := ' ';
      }
      row := row + [c];
      x := x + 1;
    }
  }

  /** `render`: the rows drawn top to bottom, stripped on the right and joined with newlines. */
  method Render(level: Level, player: Pos, boxes: set<Pos>) returns (text: string)
    requires level.width >= 0 && level.height >= 0
    ensures text == JoinLines(RenderRows(level, player, boxes))
  {
    var outLines: seq<string> := [];
    var y := 0;
    while y < level.height
      invariant 0 <= y <= level.height
      invariant outLines == RenderRows(level, player, boxes)[..y]
    {
      var row := DrawRow(level, player, boxes, y);
      outLines := outLines + [RStrip(row)];
      y := y + 1;
    }
    assert outLines == RenderRows(level, player, boxes);
    text := JoinLines(outLines);
  }
}
