/**
 * The board as backend/app/main.py sees it: a list of rows of characters that
 * may be ragged, where `#` and `x` (void) are walls and everything outside a
 * row counts as wall.  The one-move rule here is the one
 * `_trim_solution_to_first_finish` simulates; reconstructed plans are proved
 * legal under it.
 */
module Rules {
  import opened Wrappers
  import opened Walks

  /** The request body: grid rows, player, the box list and the goal list. */
  datatype GameState = GameState(grid: seq<string>, player: Pos, boxes: seq<Pos>, goals: seq<Pos>)

  /** Player position and the set of box cells, as the simulations keep them. */
  datatype State = State(player: Pos, boxes: set<Pos>)

  predicate InGrid(grid: seq<string>, p: Pos) {
    0 <= p.y < |grid| && 0 <= p.x < |grid[p.y]|
  }

  /** The ragged-grid-safe `is_wall`: off the grid, off the end of a row, `#` or `x`. */
  predicate IsWall(grid: seq<string>, p: Pos) {
    !InGrid(grid, p) || grid[p.y][p.x] == '#' || grid[p.y][p.x] == 'x'
  }

  /** The cells a walk may enter: on the grid, not a wall, no box. */
  function Free(grid: seq<string>, boxes: set<Pos>): (free: set<Pos>)
    ensures forall p {:trigger p in free} :: p in free <==> !IsWall(grid, p) && p !in boxes
  {
    set y, x | 0 <= y < |grid| && 0 <= x < |grid[y]| && !IsWall(grid, Pos(x, y)) && Pos(x, y) !in boxes :: Pos(x, y)
  }

  function BoxSet(boxes: seq<Pos>): set<Pos> {
    set b | b in boxes
  }

  function Start(s: GameState): State {
    State(s.player, BoxSet(s.boxes))
  }

  predicate BoxesOffWalls(grid: seq<string>, boxes: set<Pos>) {
    forall b :: b in boxes ==> !IsWall(grid, b)
  }

  /**
   * One move: step into a free cell, or push the box ahead one cell further
   * when that cell is neither wall nor box.  `None` is an illegal move.
   */
  function TryMove(grid: seq<string>, st: State, d: Dir): Option<State> {
    var n := Step(st.player, d);
    if IsWall(grid, n) then None
    else if n in st.boxes then
      var dest := Step(n, d);
      if IsWall(grid, dest) || dest in st.boxes then None
      else Some(State(n, st.boxes - {n} + {dest}))
    else Some(State(n, st.boxes))
  }

  /**
   * A legal move puts the player one step further on a non-wall cell that
   * holds no box, keeps the number of boxes, and never puts a box on a wall.
   */
  lemma TryMoveInvariants(grid: seq<string>, st: State, d: Dir)
    requires TryMove(grid, st, d).Some?
    ensures TryMove(grid, st, d).value.player == Step(st.player, d) && !IsWall(grid, Step(st.player, d))
    ensures |TryMove(grid, st, d).value.boxes| == |st.boxes| && Step(st.player, d) !in TryMove(grid, st, d).value.boxes
    ensures BoxesOffWalls(grid, st.boxes) ==> BoxesOffWalls(grid, TryMove(grid, st, d).value.boxes)
  {
    var n := Step(st.player, d);
    if n in st.boxes {
      assert |st.boxes - {n}| == |st.boxes| - 1;
    }
  }

  /** The `solved()` test of the move simulation: at least one box, and every box on a goal. */
  predicate Solved(boxes: set<Pos>, goals: set<Pos>) {
    |boxes| > 0 && boxes <= goals
  }

  /** The state after a run of moves and how many of them pushed a box. */
  datatype Played = Played(state: State, pushes: nat)

  /** One more move after `pl`, counting it when it pushes a box. */
  function Advance(grid: seq<string>, pl: Played, d: Dir): Option<Played> {
    match TryMove(grid, pl.state, d)
    case None => None
    case Some(next) =>
      Some(Played(next, pl.pushes + if Step(pl.state.player, d) in pl.state.boxes then 1 else 0))
  }

  /** Plays `ds` one move after another from `pl`; `None` as soon as one move is illegal. */
  function ReplayFrom(grid: seq<string>, pl: Played, ds: seq<Dir>): Option<Played>
    decreases |ds|
  {
    if ds == [] then Some(pl)
    else
      match ReplayFrom(grid, pl, ds[..|ds| - 1])
      case None => None
      case Some(m) => Advance(grid, m, ds[|ds| - 1])
  }

  /** Plays `ds` from `st`, counting pushes from zero. */
  function Replay(grid: seq<string>, st: State, ds: seq<Dir>): Option<Played> {
    ReplayFrom(grid, Played(st, 0), ds)
  }

  lemma ReplaySnoc(grid: seq<string>, st: State, ds: seq<Dir>, d: Dir)
    ensures Replay(grid, st, ds + [d]) ==
      match Replay(grid, st, ds)
      case None => None
      case Some(pl) => Advance(grid, pl, d)
  {
    assert (ds + [d])[..|ds + [d]| - 1] == ds;
  }

  /** Playing `a + b` is playing `a` and then `b` from where `a` left off. */
  lemma {:induction false} ReplayFromAppend(grid: seq<string>, pl: Played, a: seq<Dir>, b: seq<Dir>)
    ensures ReplayFrom(grid, pl, a + b) ==
      match ReplayFrom(grid, pl, a)
      case None => None
      case Some(m) => ReplayFrom(grid, m, b)
    decreases |b|
  {
    if b == [] {
      assert a + b == a;
    } else {
      var init := b[..|b| - 1];
      ReplayFromAppend(grid, pl, a, init);
      assert (a + b)[..|a + b| - 1] == a + init;
      assert (a + b)[|a + b| - 1] == b[|b| - 1];
    }
  }

  /** A walk through free cells replays as plain moves: nobody is pushed. */
  lemma {:induction false} WalkReplaysFrom(grid: seq<string>, st: State, k: nat, ds: seq<Dir>)
    requires ValidWalk(Free(grid, st.boxes), st.player, ds)
    ensures ReplayFrom(grid, Played(st, k), ds) == Some(Played(State(End(st.player, ds), st.boxes), k))
    decreases |ds|
  {
    if ds != [] {
      var init := ds[..|ds| - 1];
      var d := ds[|ds| - 1];
      assert ds == init + [d];
      WalkConcat(Free(grid, st.boxes), st.player, init, [d]);
      WalkReplaysFrom(grid, st, k, init);
    }
  }

  /** The state a run of moves reaches, when every move was legal. */
  function StateAfter(grid: seq<string>, st: State, ds: seq<Dir>): Option<State> {
    match Replay(grid, st, ds)
    case None => None
    case Some(pl) => Some(pl.state)
  }

  // ---------------------------------------------------------------------------
  // Direction names as the API spells them.

  function DirName(d: Dir): string {
    match d
    case Up => "up"
    case Down => "down"
    case Left => "left"
    case Right => "right"
  }

  /** The `delta` lookup of the move simulation: an unknown name is `None`. */
  function ParseDir(name: string): (r: Option<Dir>)
    ensures r.Some? ==> DirName(r.value) == name
  {
    if name == "up" then Some(Up)
    else if name == "down" then Some(Down)
    else if name == "left" then Some(Left)
    else if name == "right" then Some(Right)
    else None
  }

  lemma ParseDirName(d: Dir)
    ensures ParseDir(DirName(d)) == Some(d)
  {
  }

  function DirNames(ds: seq<Dir>): (r: seq<string>)
    ensures |r| == |ds| && forall i :: 0 <= i < |ds| ==> r[i] == DirName(ds[i])
  {
    seq(|ds|, i requires 0 <= i < |ds| => DirName(ds[i]))
  }
}
