/**
 * The breadth-first walk search of backend/app/main.py.  The same exploration
 * loop appears three times there (the `bfs` helper of both reconstruction
 * functions and the body of `_first_move_towards_push`); `Explore` is that
 * loop, and the two ways the source reads a result out of it are `WalkPath`
 * (the whole path) and `FirstMoveTowardsPush` (only its first step).
 */
module WalkSearch {
  import opened Wrappers
  import opened Walks
  import opened Rules

  /** One entry of the `prev`/`prev_dir` dictionaries, kept as one map: the start maps to `Root`. */
  datatype Link = Root | Link(from: Pos, dir: Dir)

  /**
   * `prev` is a tree of walk steps rooted at `start`: every other visited cell
   * was entered from a visited cell by one step into a free cell, and `depth`
   * (a proof device) strictly grows along the links, so following them back ends at `start`.
   */
  ghost predicate IsSearchTree(free: set<Pos>, start: Pos, prev: map<Pos, Link>, depth: map<Pos, nat>) {
    && start in prev && prev[start] == Root
    && prev.Keys == depth.Keys
    && forall k :: k in prev && k != start ==>
         && prev[k].Link?
         && k in free
         && prev[k].from in prev
         && Step(prev[k].from, prev[k].dir) == k
         && depth[prev[k].from] < depth[k]
  }

  /** Entering a new free cell from a visited one keeps the tree shape. */
  lemma TreeGrows(free: set<Pos>, start: Pos, prev: map<Pos, Link>, depth: map<Pos, nat>, cur: Pos, d: Dir)
    requires IsSearchTree(free, start, prev, depth)
    requires cur in prev && Step(cur, d) in free && Step(cur, d) !in prev
    ensures IsSearchTree(free, start, prev[Step(cur, d) := Link(cur, d)], depth[Step(cur, d) := depth[cur] + 1])
  {
  }

  /** Some step from a visited cell into a free cell leads to an unvisited cell only from a cell still queued. */
  ghost predicate Frontier(free: set<Pos>, prev: map<Pos, Link>, q: seq<Pos>) {
    forall k, d :: k in prev && Step(k, d) in free && Step(k, d) !in prev ==> k in q
  }

  /** `Frontier` in the middle of expanding `cur`: its directions from index `i` on are still to be tried. */
  ghost predicate PartialFrontier(free: set<Pos>, prev: map<Pos, Link>, q: seq<Pos>, cur: Pos, i: nat) {
    forall k, d :: k in prev && Step(k, d) in free && Step(k, d) !in prev ==> k in q || (k == cur && DirIndex(d) >= i)
  }

  lemma SkipNeighbour(free: set<Pos>, prev: map<Pos, Link>, q: seq<Pos>, cur: Pos, i: nat)
    requires i < |Dirs| && PartialFrontier(free, prev, q, cur, i)
    requires Step(cur, Dirs[i]) !in free || Step(cur, Dirs[i]) in prev
    ensures PartialFrontier(free, prev, q, cur, i + 1)
  {
  }

  lemma EnterNeighbour(free: set<Pos>, prev: map<Pos, Link>, q: seq<Pos>, cur: Pos, i: nat, l: Link)
    requires i < |Dirs| && PartialFrontier(free, prev, q, cur, i)
    ensures PartialFrontier(free, prev[Step(cur, Dirs[i]) := l], q + [Step(cur, Dirs[i])], cur, i + 1)
  {
  }

  /**
   * One round of the exploration loop: the neighbours of `cur` in `Dirs` order,
   * each entered when it is no wall, no box and not yet visited; entering
   * `goal` empties the queue and stops the round.
   */
  method VisitNeighbours(grid: seq<string>, boxes: set<Pos>, start: Pos, goal: Pos, cur: Pos,
                         prev0: map<Pos, Link>, ghost depth0: map<Pos, nat>, q0: seq<Pos>)
    returns (prev: map<Pos, Link>, ghost depth: map<Pos, nat>, q: seq<Pos>, found: bool)
    requires IsSearchTree(Free(grid, boxes), start, prev0, depth0)
    requires prev0.Keys <= Free(grid, boxes) + {start} && cur in prev0
    requires forall k :: k in q0 ==> k in prev0
    requires forall k, d :: k in prev0 && Step(k, d) in Free(grid, boxes) && Step(k, d) !in prev0 ==> k in q0 || k == cur
    ensures IsSearchTree(Free(grid, boxes), start, prev, depth)
    ensures prev0.Keys <= prev.Keys <= Free(grid, boxes) + {start}
    ensures prev.Keys == prev0.Keys ==> q == q0
    ensures forall k :: k in q ==> k in prev
    ensures found ==> goal in prev && q == []
    ensures !found ==> Frontier(Free(grid, boxes), prev, q)
  {
    ghost var free := Free(grid, boxes);
    prev, depth, q, found := prev0, depth0, q0, false;
    var i := 0;
    while i < |Dirs| && !found
      invariant 0 <= i <= |Dirs|
      invariant IsSearchTree(free, start, prev, depth)
      invariant prev0.Keys <= prev.Keys <= free + {start}
      invariant prev.Keys == prev0.Keys ==> q == q0
      invariant forall k :: k in q ==> k in prev
      invariant found ==> goal in prev && q == []
      invariant !found ==> PartialFrontier(free, prev, q, cur, i)
    {
      var d := Dirs[i];
      var n := Step(cur, d);
      if !IsWall(grid, n) && n !in boxes && n !in prev {
        TreeGrows(free, start, prev, depth, cur, d);
        EnterNeighbour(free, prev, q, cur, i, Link(cur, d));
        prev := prev[n := Link(cur, d)];
        depth := depth[n := depth[cur] + 1];
        if n == goal {
          q := [];
          found := true;
        } else {
          q := q + [n];
        }
      } else {
        SkipNeighbour(free, prev, q, cur, i);
      }
      i := i + 1;
    }
  }

  /**
   * The exploration loop: a FIFO queue, directions tried in `Dirs` order,
   * walls and boxes skipped, and the search stopped as soon as `goal` is entered.
   * When it ends without entering `goal`, the visited set is closed, so `goal` is unreachable.
   */
  method Explore(grid: seq<string>, boxes: set<Pos>, start: Pos, goal: Pos)
    returns (prev: map<Pos, Link>, ghost depth: map<Pos, nat>)
    ensures IsSearchTree(Free(grid, boxes), start, prev, depth)
    ensures goal !in prev ==> !Reachable(Free(grid, boxes), start, goal)
  {
    ghost var free := Free(grid, boxes);
    ghost var universe := free + {start};
    var q := [start];
    prev := map[start := Root];
    depth := map[start := 0];
    var found := false;
    while q != []
      invariant IsSearchTree(free, start, prev, depth)
      invariant prev.Keys <= universe
      invariant forall k :: k in q ==> k in prev
      invariant found ==> goal in prev && q == []
      invariant !found ==> Frontier(free, prev, q)
      decreases |universe - prev.Keys|, |q|
    {
      var cur := q[0];
      q := q[1..];
      ghost var keys0, q0 := prev.Keys, q;
      prev, depth, q, found := VisitNeighbours(grid, boxes, start, goal, cur, prev, depth, q);
      if prev.Keys != keys0 {
        GrowthShrinksRemainder(universe, keys0, prev.Keys);
      }
    }
    if goal !in prev {
      assert Closed(free, prev.Keys);
      if Reachable(free, start, goal) {
        ClosedContainsReachable(free, prev.Keys, start, goal);
      }
    }
  }

  /**
   * The `bfs` helper of the reconstruction functions: a walk from `start` to
   * `goal` that never enters a wall or a box, `[]` when they coincide, and
   * `None` exactly when no such walk exists.  (The source appends the steps
   * while following `prev` back and then reverses the list; here each step is
   * put in front, which gives the same list.)
   */
  method WalkPath(grid: seq<string>, start: Pos, goal: Pos, boxes: set<Pos>) returns (path: Option<seq<Dir>>)
    ensures path.Some? ==> ValidWalk(Free(grid, boxes), start, path.value) && End(start, path.value) == goal
    ensures path.None? <==> !Reachable(Free(grid, boxes), start, goal)
    ensures start == goal ==> path == Some([])
  {
    ghost var free := Free(grid, boxes);
    if start == goal {
      ReachableSelf(free, start);
      return Some([]);
    }
    var prev, depth := Explore(grid, boxes, start, goal);
    if goal !in prev {
      return None;
    }
    var steps: seq<Dir> := [];
    var cur := goal;
    while prev[cur].Link?
      invariant cur in prev
      invariant ValidWalk(free, cur, steps) && End(cur, steps) == goal
      decreases depth[cur]
    {
      steps := [prev[cur].dir] + steps;
      cur := prev[cur].from;
    }
    return Some(steps);
  }

  /**
   * `_first_move_towards_push`: standing on the push position, the push
   * direction itself (or `None` for a delta that is not a unit step); otherwise
   * the first step of a walk that avoids walls and boxes and ends on the push
   * position, and `None` exactly when the push position cannot be reached.
   * That the breadth-first order makes this walk a shortest one is not stated.
   */
  method FirstMoveTowardsPush(s: GameState, pushPos: Pos, dx: int, dy: int) returns (r: Option<Dir>)
    ensures s.player == pushPos ==> r == DirFromDelta(dx, dy)
    ensures s.player != pushPos ==>
      (r.None? <==> !Reachable(Free(s.grid, BoxSet(s.boxes)), s.player, pushPos))
    ensures s.player != pushPos && r.Some? ==>
      && Step(s.player, r.value) in Free(s.grid, BoxSet(s.boxes))
      && Reachable(Free(s.grid, BoxSet(s.boxes)), Step(s.player, r.value), pushPos)
  {
    var player := s.player;
    var boxes := BoxSet(s.boxes);
    ghost var free := Free(s.grid, boxes);
    if player == pushPos {
      return DirFromDelta(dx, dy);
    }
    var prev, depth := Explore(s.grid, boxes, player, pushPos);
    if pushPos !in prev {
      return None;
    }
    var cur := pushPos;
    var first: Option<Dir> := None;
    ghost var steps: seq<Dir> := [];
    while prev[cur].Link?
      invariant cur in prev
      invariant ValidWalk(free, cur, steps) && End(cur, steps) == pushPos
      invariant steps != [] ==> first == Some(steps[0])
      decreases depth[cur]
    {
      first := Some(prev[cur].dir);
      steps := [prev[cur].dir] + steps;
      cur := prev[cur].from;
    }
    assert steps != [];
    assert ValidWalk(free, Step(player, steps[0]), steps[1..]);
    assert End(Step(player, steps[0]), steps[1..]) == pushPos;
    return first;
  }
}
