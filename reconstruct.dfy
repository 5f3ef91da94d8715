/**
 * Turning solver output back into a move list (backend/app/main.py): push
 * actions and slide macro-actions become walks plus unit pushes, and a padded
 * move list is cut at the first move that leaves every box on a goal.
 *
 * Each reconstruction is specified by a declarative outcome function (which
 * push sequences can be carried out, and where they leave the board) and is
 * proved to produce a move list that replays legally under the one-move rule
 * `Rules.TryMove`, ending in that outcome with one push per unit push.
 */
module Reconstruct {
  import opened Wrappers
  import opened Walks
  import opened Rules
  import opened WalkSearch

  /** A `push` action: the player at `(x, y)` pushes the box at `(x + dx, y + dy)` one cell. */
  datatype PushAction = PushAction(x: int, y: int, dx: int, dy: int)

  /** A `slide` action: the box at `(x, y)` is pushed along `(dx, dy)` until it stands at `(nx, ny)`. */
  datatype SlideAction = SlideAction(x: int, y: int, dx: int, dy: int, nx: int, ny: int)

  /** The player's cell after walking `ds` from `p`, step by step as the source updates it. */
  method WalkEnd(p: Pos, ds: seq<Dir>) returns (q: Pos)
    ensures q == End(p, ds)
  {
    q := p;
    var i := 0;
    while i < |ds|
      invariant 0 <= i <= |ds|
      invariant End(p, ds) == End(q, ds[i..])
    {
      assert ds[i..][1..] == ds[i + 1..];
      q := Step(q, ds[i]);
      i := i + 1;
    }
  }

  // ---------------------------------------------------------------------------
  // Pushes

  /**
   * One push action, or `None` when it cannot be carried out: its delta is no
   * unit step, its push position cannot be reached, there is no box in front
   * of it, or the cell beyond is a wall or a box.
   */
  ghost function PushOnce(grid: seq<string>, st: State, p: PushAction): Option<State> {
    var box := Pos(p.x + p.dx, p.y + p.dy);
    var dest := Pos(p.x + 2 * p.dx, p.y + 2 * p.dy);
    if !IsUnitDelta(p.dx, p.dy) then None
    else if !Reachable(Free(grid, st.boxes), st.player, Pos(p.x, p.y)) then None
    else if box !in st.boxes || IsWall(grid, dest) || dest in st.boxes then None
    else Some(State(box, st.boxes - {box} + {dest}))
  }

  /** Where a list of push actions leaves the board, or `None` when one of them cannot be carried out. */
  ghost function PushesOutcome(grid: seq<string>, st: State, ps: seq<PushAction>): Option<State>
    decreases |ps|
  {
    if ps == [] then Some(st)
    else
      match PushOnce(grid, st, ps[0])
      case None => None
      case Some(next) => PushesOutcome(grid, next, ps[1..])
  }

  /** A push keeps the number of boxes: the outcome has as many boxes as the start. */
  lemma {:induction false} PushesKeepBoxCount(grid: seq<string>, st: State, ps: seq<PushAction>)
    requires PushesOutcome(grid, st, ps).Some?
    ensures |PushesOutcome(grid, st, ps).value.boxes| == |st.boxes|
    decreases |ps|
  {
    if ps != [] {
      var p := ps[0];
      var box := Pos(p.x + p.dx, p.y + p.dy);
      assert |st.boxes - {box}| == |st.boxes| - 1;
      PushesKeepBoxCount(grid, PushOnce(grid, st, p).value, ps[1..]);
    }
  }

  /** A reached push position with a movable box in front: the push action succeeds. */
  lemma PushOnceSucceeds(grid: seq<string>, st: State, p: PushAction, d: Dir)
    requires DirFromDelta(p.dx, p.dy) == Some(d)
    requires Reachable(Free(grid, st.boxes), st.player, Pos(p.x, p.y))
    requires Step(Pos(p.x, p.y), d) in st.boxes
    requires !IsWall(grid, Step(Step(Pos(p.x, p.y), d), d)) && Step(Step(Pos(p.x, p.y), d), d) !in st.boxes
    ensures PushOnce(grid, st, p) == Some(PushResult(st.boxes, Pos(p.x, p.y), d))
  {
  }

  /** The board after the player at `at` pushes the box ahead of it along `d`. */
  function PushResult(boxes: set<Pos>, at: Pos, d: Dir): State {
    var box := Step(at, d);
    State(box, boxes - {box} + {Step(box, d)})
  }

  /** Appending a walk through free cells moves the player and pushes nothing. */
  lemma WalkAppendReplays(grid: seq<string>, st0: State, full: seq<Dir>, st: State, pushes: nat, walk: seq<Dir>)
    requires Replay(grid, st0, full) == Some(Played(st, pushes))
    requires ValidWalk(Free(grid, st.boxes), st.player, walk)
    ensures Replay(grid, st0, full + walk) == Some(Played(State(End(st.player, walk), st.boxes), pushes))
  {
    ReplayFromAppend(grid, Played(st0, 0), full, walk);
    WalkReplaysFrom(grid, st, pushes, walk);
  }

  /** Appending a push of a box that can move counts one more push. */
  lemma PushAppendReplays(grid: seq<string>, st0: State, full: seq<Dir>, st: State, pushes: nat, d: Dir)
    requires Replay(grid, st0, full) == Some(Played(st, pushes)) && BoxesOffWalls(grid, st.boxes)
    requires Step(st.player, d) in st.boxes
    requires !IsWall(grid, Step(Step(st.player, d), d)) && Step(Step(st.player, d), d) !in st.boxes
    ensures Replay(grid, st0, full + [d]) == Some(Played(PushResult(st.boxes, st.player, d), pushes + 1))
    ensures BoxesOffWalls(grid, PushResult(st.boxes, st.player, d).boxes)
  {
    ReplaySnoc(grid, st0, full, d);
    TryMoveInvariants(grid, st, d);
  }

  /** `full`, played from `st0`, reaches `st` with `pushes` pushes, whenever no box starts on a wall. */
  ghost predicate ReplaysTo(grid: seq<string>, st0: State, full: seq<Dir>, st: State, pushes: nat) {
    BoxesOffWalls(grid, st0.boxes) ==> Replay(grid, st0, full) == Some(Played(st, pushes)) && BoxesOffWalls(grid, st.boxes)
  }

  /**
   * The walk step both reconstructions share: search a walk to `target`,
   * append it to the move list and follow it; `None` exactly when `target`
   * cannot be reached.
   */
  method WalkTo(grid: seq<string>, ghost st0: State, full0: seq<Dir>, ghost pushed: nat,
                player0: Pos, boxes: set<Pos>, target: Pos)
    returns (r: Option<seq<Dir>>, player: Pos, walk: seq<Dir>)
    requires ReplaysTo(grid, st0, full0, State(player0, boxes), pushed)
    ensures r.None? <==> !Reachable(Free(grid, boxes), player0, target)
    ensures r.Some? ==> player == target && ReplaysTo(grid, st0, r.value, State(target, boxes), pushed)
    ensures r.Some? ==> r.value == full0 + walk && ValidWalk(Free(grid, boxes), player0, walk) && End(player0, walk) == target
  {
    var found := WalkPath(grid, player0, target, boxes);
    if found.None? {
      return None, player0, [];
    }
    walk := found.value;
    if BoxesOffWalls(grid, st0.boxes) {
      WalkAppendReplays(grid, st0, full0, State(player0, boxes), pushed, walk);
    }
    player := WalkEnd(player0, walk);
    return Some(full0 + walk), player, walk;
  }

  /** `n` copies of `d`: the unit pushes of a slide of length `n`. */
  function Repeat(d: Dir, n: nat): (r: seq<Dir>)
    ensures |r| == n && forall k :: 0 <= k < n ==> r[k] == d
  {
    if n == 0 then [] else Repeat(d, n - 1) + [d]
  }

  /**
   * `seg` is a walk from the player of `st` to `target` through cells free of
   * walls and boxes, followed by exactly `n` moves along `d`.
   */
  ghost predicate WalkThenPushes(grid: seq<string>, st: State, target: Pos, seg: seq<Dir>, d: Dir, n: nat) {
    exists walk :: WalkThenPushesBy(grid, st, target, walk, seg, d, n)
  }

  ghost predicate WalkThenPushesBy(grid: seq<string>, st: State, target: Pos, walk: seq<Dir>, seg: seq<Dir>, d: Dir, n: nat) {
    && ValidWalk(Free(grid, st.boxes), st.player, walk)
    && End(st.player, walk) == target
    && seg == walk + Repeat(d, n)
  }

  lemma WalkThenPushesOf(grid: seq<string>, st: State, target: Pos, walk: seq<Dir>, d: Dir, n: nat)
    requires ValidWalk(Free(grid, st.boxes), st.player, walk) && End(st.player, walk) == target
    ensures WalkThenPushes(grid, st, target, walk + Repeat(d, n), d, n)
  {
    assert WalkThenPushesBy(grid, st, target, walk, walk + Repeat(d, n), d, n);
  }

  /** The moves of one push action: a walk to the push position, then the push. */
  ghost predicate PushShape(grid: seq<string>, st: State, next: State, p: PushAction, seg: seq<Dir>) {
    && PushOnce(grid, st, p) == Some(next)
    && DirFromDelta(p.dx, p.dy).Some?
    && WalkThenPushes(grid, st, Pos(p.x, p.y), seg, DirFromDelta(p.dx, p.dy).value, 1)
  }

  /**
   * The body of the loop of `_reconstruct_moves_from_pushes`, one push action:
   * walk to the push position, then push.  `None` exactly when `PushOnce` fails.
   */
  method ApplyPush(grid: seq<string>, ghost st0: State, full0: seq<Dir>, ghost pushed: nat,
                   player0: Pos, boxes0: set<Pos>, p: PushAction)
    returns (r: Option<(seq<Dir>, State)>, ghost seg: seq<Dir>)
    requires ReplaysTo(grid, st0, full0, State(player0, boxes0), pushed)
    ensures r.None? <==> PushOnce(grid, State(player0, boxes0), p).None?
    ensures r.Some? ==>
      && r.value.0 == full0 + seg
      && PushShape(grid, State(player0, boxes0), r.value.1, p, seg)
      && ReplaysTo(grid, st0, r.value.0, r.value.1, pushed + 1)
  {
    ghost var st := State(player0, boxes0);
    seg := [];
    var pushDir := DirFromDelta(p.dx, p.dy);
    if pushDir.None? {
      return None, seg;
    }
    var d := pushDir.value;
    var walked, player, walk := WalkTo(grid, st0, full0, pushed, player0, boxes0, Pos(p.x, p.y));
    if walked.None? {
      return None, seg;
    }
    var full := walked.value;
    var boxPos := Pos(p.x + p.dx, p.y + p.dy);
    var dest := Pos(p.x + 2 * p.dx, p.y + 2 * p.dy);
    if boxPos !in boxes0 {
      return None, seg;
    }
    if IsWall(grid, dest) || dest in boxes0 {
      return None, seg;
    }
    assert Step(player, d) == boxPos && Step(boxPos, d) == dest;
    PushApplied(grid, st0, full0, pushed, st, p, d, walk);
    seg := walk + [d];
    return Some((full + [d], PushResult(boxes0, player, d))), seg;
  }

  /** A walk to the push position followed by the push: the push action's shape, replaying one push further. */
  lemma PushApplied(grid: seq<string>, st0: State, full0: seq<Dir>, pushed: nat, st: State, p: PushAction, d: Dir, walk: seq<Dir>)
    requires DirFromDelta(p.dx, p.dy) == Some(d)
    requires ValidWalk(Free(grid, st.boxes), st.player, walk) && End(st.player, walk) == Pos(p.x, p.y)
    requires ReplaysTo(grid, st0, full0 + walk, State(Pos(p.x, p.y), st.boxes), pushed)
    requires Step(Pos(p.x, p.y), d) in st.boxes
    requires !IsWall(grid, Step(Step(Pos(p.x, p.y), d), d)) && Step(Step(Pos(p.x, p.y), d), d) !in st.boxes
    ensures (full0 + walk) + [d] == full0 + (walk + [d])
    ensures PushShape(grid, st, PushResult(st.boxes, Pos(p.x, p.y), d), p, walk + [d])
    ensures ReplaysTo(grid, st0, (full0 + walk) + [d], PushResult(st.boxes, Pos(p.x, p.y), d), pushed + 1)
  {
    assert Reachable(Free(grid, st.boxes), st.player, Pos(p.x, p.y));
    PushOnceSucceeds(grid, st, p, d);
    if BoxesOffWalls(grid, st0.boxes) {
      PushAppendReplays(grid, st0, full0 + walk, State(Pos(p.x, p.y), st.boxes), pushed, d);
    }
    assert Repeat(d, 1) == [d];
    AppendAssoc(full0, walk, [d]);
    WalkThenPushesOf(grid, st, Pos(p.x, p.y), walk, d, 1);
  }

  lemma AppendAssoc(a: seq<Dir>, b: seq<Dir>, c: seq<Dir>)
    ensures (a + b) + c == a + (b + c)
  {
  }

  /** The segments one after another. */
  function Concat(segs: seq<seq<Dir>>): seq<Dir> {
    if segs == [] then [] else Concat(segs[..|segs| - 1]) + segs[|segs| - 1]
  }

  lemma ConcatSnoc(segs: seq<seq<Dir>>, seg: seq<Dir>)
    ensures Concat(segs + [seg]) == Concat(segs) + seg
  {
    assert (segs + [seg])[..|segs|] == segs;
  }

  /**
   * After `i` push actions: `states` are the boards between them, starting
   * from `st`, and `full` is their move segments one after another.
   */
  ghost predicate PushesShape(grid: seq<string>, st: State, ps: seq<PushAction>, i: nat,
                              states: seq<State>, segs: seq<seq<Dir>>, full: seq<Dir>) {
    && i <= |ps| && |states| == i + 1 && |segs| == i
    && states[0] == st && full == Concat(segs)
    && forall j :: 0 <= j < i ==> PushShape(grid, states[j], states[j + 1], ps[j], segs[j])
  }

  lemma PushesShapeStep(grid: seq<string>, st: State, ps: seq<PushAction>, i: nat,
                        states: seq<State>, segs: seq<seq<Dir>>, full: seq<Dir>, next: State, seg: seq<Dir>)
    requires PushesShape(grid, st, ps, i, states, segs, full) && i < |ps|
    requires PushShape(grid, states[i], next, ps[i], seg)
    ensures PushesShape(grid, st, ps, i + 1, states + [next], segs + [seg], full + seg)
  {
    ConcatSnoc(segs, seg);
    var states', segs' := states + [next], segs + [seg];
    forall j | 0 <= j < i + 1
      ensures PushShape(grid, states'[j], states'[j + 1], ps[j], segs'[j])
    {
      if j < i {
        assert states'[j] == states[j] && states'[j + 1] == states[j + 1] && segs'[j] == segs[j];
      }
    }
  }

  /**
   * `_reconstruct_moves_from_pushes`: `None` exactly when the push list cannot
   * be carried out; otherwise the move list is, for each push action in turn,
   * a walk to its push position followed by the push itself, and it replays
   * legally (given no box starts on a wall) to the outcome with one push per action.
   */
  method ReconstructMovesFromPushes(s: GameState, pushes: seq<PushAction>)
    returns (r: Option<seq<Dir>>, ghost states: seq<State>, ghost segs: seq<seq<Dir>>)
    ensures r.None? <==> PushesOutcome(s.grid, Start(s), pushes).None?
    ensures r.Some? ==> PushesShape(s.grid, Start(s), pushes, |pushes|, states, segs, r.value)
    ensures r.Some? && BoxesOffWalls(s.grid, BoxSet(s.boxes)) ==>
      Replay(s.grid, Start(s), r.value) == Some(Played(PushesOutcome(s.grid, Start(s), pushes).value, |pushes|))
  {
    var boxes := BoxSet(s.boxes);
    var player := s.player;
    var full: seq<Dir> := [];
    states, segs := [Start(s)], [];
    PushesSoFarInit(s, pushes);
    var i := 0;
    while i < |pushes|
      invariant PushesSoFar(s, pushes, i, full, State(player, boxes), states, segs)
    {
      var next, seg := ApplyPush(s.grid, Start(s), full, i, player, boxes, pushes[i]);
      if next.None? {
        PushesStuck(s, pushes, i, full, State(player, boxes), states, segs);
        return None, states, segs;
      }
      PushesSoFarStep(s, pushes, i, full, State(player, boxes), states, segs, next.value.0, next.value.1, seg);
      states, segs := states + [next.value.1], segs + [seg];
      full, player, boxes := next.value.0, next.value.1.player, next.value.1.boxes;
      i := i + 1;
    }
    PushesSoFarDone(s, pushes, full, State(player, boxes), states, segs);
    return Some(full), states, segs;
  }

  /**
   * After the first `i` push actions: the rest lead to the same outcome as
   * all of them from the start, `full` replays to the board `st` reached with
   * one push per action, and it is made of one walk-then-push segment per action.
   */
  ghost predicate PushesSoFar(s: GameState, ps: seq<PushAction>, i: nat, full: seq<Dir>, st: State,
                              states: seq<State>, segs: seq<seq<Dir>>) {
    && i <= |ps|
    && PushesOutcome(s.grid, Start(s), ps) == PushesOutcome(s.grid, st, ps[i..])
    && ReplaysTo(s.grid, Start(s), full, st, i)
    && PushesShape(s.grid, Start(s), ps, i, states, segs, full) && states[i] == st
  }

  /** The outcome of the push actions from position `i` on is that of action `i` followed by the rest. */
  lemma PushesStep(grid: seq<string>, st: State, ps: seq<PushAction>, i: nat)
    requires i < |ps|
    ensures PushesOutcome(grid, st, ps[i..]) ==
      match PushOnce(grid, st, ps[i])
      case None => None
      case Some(next) => PushesOutcome(grid, next, ps[i + 1..])
  {
    assert ps[i..][0] == ps[i] && ps[i..][1..] == ps[i + 1..];
  }

  lemma PushesSoFarInit(s: GameState, ps: seq<PushAction>)
    ensures PushesSoFar(s, ps, 0, [], Start(s), [Start(s)], [])
  {
    assert ps[0..] == ps;
  }

  lemma PushesSoFarStep(s: GameState, ps: seq<PushAction>, i: nat, full: seq<Dir>, st: State,
                        states: seq<State>, segs: seq<seq<Dir>>, full': seq<Dir>, next: State, seg: seq<Dir>)
    requires PushesSoFar(s, ps, i, full, st, states, segs) && i < |ps|
    requires full' == full + seg && PushShape(s.grid, st, next, ps[i], seg)
    requires ReplaysTo(s.grid, Start(s), full', next, i + 1)
    ensures PushesSoFar(s, ps, i + 1, full', next, states + [next], segs + [seg])
  {
    PushesStep(s.grid, st, ps, i);
    PushesShapeStep(s.grid, Start(s), ps, i, states, segs, full, next, seg);
  }

  lemma PushesStuck(s: GameState, ps: seq<PushAction>, i: nat, full: seq<Dir>, st: State,
                    states: seq<State>, segs: seq<seq<Dir>>)
    requires PushesSoFar(s, ps, i, full, st, states, segs) && i < |ps|
    requires PushOnce(s.grid, st, ps[i]).None?
    ensures PushesOutcome(s.grid, Start(s), ps).None?
  {
    PushesStep(s.grid, st, ps, i);
  }

  lemma PushesSoFarDone(s: GameState, ps: seq<PushAction>, full: seq<Dir>, st: State,
                        states: seq<State>, segs: seq<seq<Dir>>)
    requires PushesSoFar(s, ps, |ps|, full, st, states, segs)
    ensures PushesOutcome(s.grid, Start(s), ps) == Some(st)
    ensures PushesShape(s.grid, Start(s), ps, |ps|, states, segs, full)
    ensures BoxesOffWalls(s.grid, BoxSet(s.boxes)) ==> Replay(s.grid, Start(s), full) == Some(Played(st, |ps|))
  {
    assert ps[|ps|..] == [];
  }

  // ---------------------------------------------------------------------------
  // Slides

  /** The number of unit pushes in a slide, measured along its direction as the source does. */
  function SlideLength(a: SlideAction): int {
    if a.dx != 0 then (if a.dx > 0 then a.nx - a.x else a.x - a.nx)
    else (if a.dy > 0 then a.ny - a.y else a.y - a.ny)
  }

  /**
   * `n` unit pushes of the box at `cur` along `d`, the player following it;
   * `None` when the box is missing or its next cell is a wall or a box.
   */
  function UnitPushes(grid: seq<string>, st: State, cur: Pos, d: Dir, n: nat): Option<State>
    decreases n
  {
    if n == 0 then Some(st)
    else if cur !in st.boxes then None
    else
      var dest := Step(cur, d);
      if IsWall(grid, dest) || dest in st.boxes then None
      else UnitPushes(grid, State(cur, st.boxes - {cur} + {dest}), dest, d, n - 1)
  }

  lemma UnitPushesStep(grid: seq<string>, st: State, cur: Pos, d: Dir, n: nat)
    requires n > 0 && cur in st.boxes && !IsWall(grid, Step(cur, d)) && Step(cur, d) !in st.boxes
    ensures UnitPushes(grid, st, cur, d, n) ==
      UnitPushes(grid, State(cur, st.boxes - {cur} + {Step(cur, d)}), Step(cur, d), d, n - 1)
  {
  }

  /**
   * One slide, or `None` when it cannot be carried out: no unit delta, a
   * length that is not positive, the cell behind the box out of reach, or one
   * of its unit pushes blocked.
   */
  ghost function SlideOnce(grid: seq<string>, st: State, a: SlideAction): Option<State> {
    match DirFromDelta(a.dx, a.dy)
    case None => None
    case Some(d) =>
      if SlideLength(a) <= 0 then None
      else if !Reachable(Free(grid, st.boxes), st.player, Pos(a.x - a.dx, a.y - a.dy)) then None
      else UnitPushes(grid, State(Pos(a.x - a.dx, a.y - a.dy), st.boxes), Pos(a.x, a.y), d, SlideLength(a))
  }

  /** Where a list of slides leaves the board, or `None` when one of them cannot be carried out. */
  ghost function SlidesOutcome(grid: seq<string>, st: State, ss: seq<SlideAction>): Option<State>
    decreases |ss|
  {
    if ss == [] then Some(st)
    else
      match SlideOnce(grid, st, ss[0])
      case None => None
      case Some(next) => SlidesOutcome(grid, next, ss[1..])
  }

  /** The total number of unit pushes of a list of slides. */
  function SlidePushCount(ss: seq<SlideAction>): int
    decreases |ss|
  {
    if ss == [] then 0 else SlidePushCount(ss[..|ss| - 1]) + SlideLength(ss[|ss| - 1])
  }

  /**
   * The unit pushes of one slide, as the inner loop of
   * `_reconstruct_moves_from_slides` performs them: `None` exactly when
   * `UnitPushes` fails, otherwise the extended move list and the new board.
   */
  method PushAlong(grid: seq<string>, ghost st0: State, full0: seq<Dir>, ghost pushed: nat,
                   player0: Pos, boxes0: set<Pos>, box: Pos, d: Dir, length: nat)
    returns (r: Option<(seq<Dir>, State)>)
    requires player0 == Back(box, d)
    requires ReplaysTo(grid, st0, full0, State(player0, boxes0), pushed)
    ensures r.None? <==> UnitPushes(grid, State(player0, boxes0), box, d, length).None?
    ensures r.Some? ==>
      && UnitPushes(grid, State(player0, boxes0), box, d, length) == Some(r.value.1)
      && r.value.0 == full0 + Repeat(d, length)
      && ReplaysTo(grid, st0, r.value.0, r.value.1, pushed + length)
  {
    ghost var start := State(player0, boxes0);
    var player, boxes, full, curBox := player0, boxes0, full0, box;
    var k := 0;
    while k < length
      invariant AlongSoFar(grid, st0, full0, pushed, start, box, d, length, k, State(player, boxes), curBox, full)
    {
      var dest := Step(curBox, d);
      if curBox !in boxes || IsWall(grid, dest) || dest in boxes {
        AlongStuck(grid, st0, full0, pushed, start, box, d, length, k, State(player, boxes), curBox, full);
        return None;
      }
      AlongStep(grid, st0, full0, pushed, start, box, d, length, k, State(player, boxes), curBox, full);
      boxes := boxes - {curBox} + {dest};
      player := curBox;
      curBox := dest;
      full := full + [d];
      k := k + 1;
    }
    AlongDone(grid, st0, full0, pushed, start, box, d, length, k, State(player, boxes), curBox, full);
    return Some((full, State(player, boxes)));
  }

  /**
   * After `k` of the `length` unit pushes of the box that started at `box`:
   * the player stands behind the box now at `cur`, the remaining pushes lead
   * where all of them do from `start`, and `full` is `full0` plus `k` pushes
   * and replays to `st`.
   */
  ghost predicate AlongSoFar(grid: seq<string>, st0: State, full0: seq<Dir>, pushed: nat, start: State,
                             box: Pos, d: Dir, length: nat, k: nat, st: State, cur: Pos, full: seq<Dir>) {
    && k <= length
    && st.player == Back(cur, d)
    && UnitPushes(grid, start, box, d, length) == UnitPushes(grid, st, cur, d, length - k)
    && ReplaysTo(grid, st0, full, st, pushed + k)
    && full == full0 + Repeat(d, k)
  }

  lemma AlongStep(grid: seq<string>, st0: State, full0: seq<Dir>, pushed: nat, start: State,
                  box: Pos, d: Dir, length: nat, k: nat, st: State, cur: Pos, full: seq<Dir>)
    requires AlongSoFar(grid, st0, full0, pushed, start, box, d, length, k, st, cur, full) && k < length
    requires cur in st.boxes && !IsWall(grid, Step(cur, d)) && Step(cur, d) !in st.boxes
    ensures AlongSoFar(grid, st0, full0, pushed, start, box, d, length, k + 1,
                       State(cur, st.boxes - {cur} + {Step(cur, d)}), Step(cur, d), full + [d])
  {
    assert Step(st.player, d) == cur;
    UnitPushesStep(grid, st, cur, d, length - k);
    if BoxesOffWalls(grid, st0.boxes) {
      PushAppendReplays(grid, st0, full, st, pushed + k, d);
    }
    assert full + [d] == full0 + Repeat(d, k + 1);
  }

  lemma AlongDone(grid: seq<string>, st0: State, full0: seq<Dir>, pushed: nat, start: State,
                  box: Pos, d: Dir, length: nat, k: nat, st: State, cur: Pos, full: seq<Dir>)
    requires AlongSoFar(grid, st0, full0, pushed, start, box, d, length, k, st, cur, full) && k >= length
    ensures UnitPushes(grid, start, box, d, length) == Some(st)
    ensures full == full0 + Repeat(d, length) && ReplaysTo(grid, st0, full, st, pushed + length)
  {
  }

  lemma AlongStuck(grid: seq<string>, st0: State, full0: seq<Dir>, pushed: nat, start: State,
                   box: Pos, d: Dir, length: nat, k: nat, st: State, cur: Pos, full: seq<Dir>)
    requires AlongSoFar(grid, st0, full0, pushed, start, box, d, length, k, st, cur, full) && k < length
    requires cur !in st.boxes || IsWall(grid, Step(cur, d)) || Step(cur, d) in st.boxes
    ensures UnitPushes(grid, start, box, d, length).None?
  {
  }

  /** The moves of one slide: a walk behind the box, then `SlideLength` pushes. */
  ghost predicate SlideShape(grid: seq<string>, st: State, next: State, a: SlideAction, seg: seq<Dir>) {
    && SlideOnce(grid, st, a) == Some(next)
    && SlideLength(a) > 0
    && DirFromDelta(a.dx, a.dy).Some?
    && WalkThenPushes(grid, st, Pos(a.x - a.dx, a.y - a.dy), seg, DirFromDelta(a.dx, a.dy).value, SlideLength(a))
  }

  /**
   * `full'` is `full0` followed by the moves `seg` of slide `a` from `st`,
   * and it replays to `next` with the slide's pushes added.
   */
  ghost predicate SlideApplied(grid: seq<string>, st0: State, full0: seq<Dir>, pushed: nat, st: State, a: SlideAction,
                               full': seq<Dir>, next: State, seg: seq<Dir>) {
    && full' == full0 + seg
    && SlideShape(grid, st, next, a, seg)
    && ReplaysTo(grid, st0, full', next, pushed + SlideLength(a))
  }

  /**
   * The body of the loop of `_reconstruct_moves_from_slides`, one slide: walk
   * behind the box, then push it `SlideLength` times.  `None` exactly when
   * `SlideOnce` fails.
   */
  method ApplySlide(grid: seq<string>, ghost st0: State, full0: seq<Dir>, ghost pushed: nat,
                    player0: Pos, boxes0: set<Pos>, a: SlideAction)
    returns (r: Option<(seq<Dir>, State)>, ghost seg: seq<Dir>)
    requires ReplaysTo(grid, st0, full0, State(player0, boxes0), pushed)
    ensures r.None? <==> SlideOnce(grid, State(player0, boxes0), a).None?
    ensures r.Some? ==> SlideApplied(grid, st0, full0, pushed, State(player0, boxes0), a, r.value.0, r.value.1, seg)
  {
    seg := [];
    var pushDir := DirFromDelta(a.dx, a.dy);
    if pushDir.None? {
      return None, seg;
    }
    var d := pushDir.value;
    var length := SlideLength(a);
    if length <= 0 {
      return None, seg;
    }
    var firstPushPos := Pos(a.x - a.dx, a.y - a.dy);
    var walked, player, walk := WalkTo(grid, st0, full0, pushed, player0, boxes0, firstPushPos);
    if walked.None? {
      return None, seg;
    }
    SlideOnceFrom(grid, State(player0, boxes0), a, d);
    r := PushAlong(grid, st0, walked.value, pushed, player, boxes0, Pos(a.x, a.y), d, length);
    seg := walk + Repeat(d, length);
    if r.Some? {
      AppendAssoc(full0, walk, Repeat(d, length));
      SlideShapeOf(grid, State(player0, boxes0), r.value.1, a, walk, d);
    }
  }

  /** A slide with a unit delta and a positive length is its unit pushes from behind the box, once that cell is reached. */
  lemma SlideOnceFrom(grid: seq<string>, st: State, a: SlideAction, d: Dir)
    requires DirFromDelta(a.dx, a.dy) == Some(d) && SlideLength(a) > 0
    ensures Pos(a.x - a.dx, a.y - a.dy) == Back(Pos(a.x, a.y), d)
    ensures Reachable(Free(grid, st.boxes), st.player, Pos(a.x - a.dx, a.y - a.dy)) ==>
      SlideOnce(grid, st, a) == UnitPushes(grid, State(Pos(a.x - a.dx, a.y - a.dy), st.boxes), Pos(a.x, a.y), d, SlideLength(a))
    ensures !Reachable(Free(grid, st.boxes), st.player, Pos(a.x - a.dx, a.y - a.dy)) ==> SlideOnce(grid, st, a).None?
  {
  }

  lemma SlideShapeOf(grid: seq<string>, st: State, next: State, a: SlideAction, walk: seq<Dir>, d: Dir)
    requires DirFromDelta(a.dx, a.dy) == Some(d) && SlideLength(a) > 0 && SlideOnce(grid, st, a) == Some(next)
    requires ValidWalk(Free(grid, st.boxes), st.player, walk) && End(st.player, walk) == Pos(a.x - a.dx, a.y - a.dy)
    ensures SlideShape(grid, st, next, a, walk + Repeat(d, SlideLength(a)))
  {
    WalkThenPushesOf(grid, st, Pos(a.x - a.dx, a.y - a.dy), walk, d, SlideLength(a));
  }

  /**
   * After `i` slides: `states` are the boards between them, starting from
   * `st`, and `full` is their move segments one after another.
   */
  ghost predicate SlidesShape(grid: seq<string>, st: State, ss: seq<SlideAction>, i: nat,
                              states: seq<State>, segs: seq<seq<Dir>>, full: seq<Dir>) {
    && i <= |ss| && |states| == i + 1 && |segs| == i
    && states[0] == st && full == Concat(segs)
    && forall j :: 0 <= j < i ==> SlideShape(grid, states[j], states[j + 1], ss[j], segs[j])
  }

  lemma SlidesShapeStep(grid: seq<string>, st: State, ss: seq<SlideAction>, i: nat,
                        states: seq<State>, segs: seq<seq<Dir>>, full: seq<Dir>, next: State, seg: seq<Dir>)
    requires SlidesShape(grid, st, ss, i, states, segs, full) && i < |ss|
    requires SlideShape(grid, states[i], next, ss[i], seg)
    ensures SlidesShape(grid, st, ss, i + 1, states + [next], segs + [seg], full + seg)
  {
    ConcatSnoc(segs, seg);
    var states', segs' := states + [next], segs + [seg];
    forall j | 0 <= j < i + 1
      ensures SlideShape(grid, states'[j], states'[j + 1], ss[j], segs'[j])
    {
      if j < i {
        assert states'[j] == states[j] && states'[j + 1] == states[j + 1] && segs'[j] == segs[j];
      }
    }
  }

  /** The outcome of the slides from position `i` on is that of slide `i` followed by the rest. */
  lemma SlidesStep(grid: seq<string>, st: State, ss: seq<SlideAction>, i: nat)
    requires i < |ss|
    ensures SlidesOutcome(grid, st, ss[i..]) ==
      match SlideOnce(grid, st, ss[i])
      case None => None
      case Some(next) => SlidesOutcome(grid, next, ss[i + 1..])
  {
    assert ss[i..][0] == ss[i] && ss[i..][1..] == ss[i + 1..];
  }

  lemma SlidePushCountStep(ss: seq<SlideAction>, i: nat)
    requires i < |ss|
    ensures SlidePushCount(ss[..i + 1]) == SlidePushCount(ss[..i]) + SlideLength(ss[i])
  {
    assert ss[..i + 1][..i] == ss[..i];
  }

  /**
   * `_reconstruct_moves_from_slides`: `None` exactly when the slides cannot be
   * carried out; otherwise a move list that replays legally (given no box
   * starts on a wall), reaches the outcome, and pushes once per unit of slide length.
   */
  method ReconstructMovesFromSlides(s: GameState, slides: seq<SlideAction>)
    returns (r: Option<seq<Dir>>, ghost states: seq<State>, ghost segs: seq<seq<Dir>>)
    ensures r.None? <==> SlidesOutcome(s.grid, Start(s), slides).None?
    ensures r.Some? ==> SlidesShape(s.grid, Start(s), slides, |slides|, states, segs, r.value)
    ensures r.Some? && BoxesOffWalls(s.grid, BoxSet(s.boxes)) ==>
      && Replay(s.grid, Start(s), r.value).Some?
      && Replay(s.grid, Start(s), r.value).value.state == SlidesOutcome(s.grid, Start(s), slides).value
      && Replay(s.grid, Start(s), r.value).value.pushes == SlidePushCount(slides)
  {
    var boxes := BoxSet(s.boxes);
    var player := s.player;
    var full: seq<Dir> := [];
    ghost var pushed: nat := 0;
    states, segs := [Start(s)], [];
    SlidesSoFarInit(s, slides);
    var i := 0;
    while i < |slides|
      invariant SlidesSoFar(s, slides, i, full, State(player, boxes), pushed, states, segs)
    {
      var next;
      next, states, segs, pushed := NextSlide(s, slides, i, full, player, boxes, pushed, states, segs);
      if next.None? {
        return None, states, segs;
      }
      full, player, boxes := next.value.0, next.value.1.player, next.value.1.boxes;
      i := i + 1;
    }
    SlidesSoFarDone(s, slides, full, State(player, boxes), pushed, states, segs);
    return Some(full), states, segs;
  }

  /** One turn of the loop of `_reconstruct_moves_from_slides`: carry out slide `i`. */
  method NextSlide(s: GameState, slides: seq<SlideAction>, i: nat, full: seq<Dir>, player: Pos, boxes: set<Pos>,
                   ghost pushed: nat, ghost states: seq<State>, ghost segs: seq<seq<Dir>>)
    returns (next: Option<(seq<Dir>, State)>, ghost states': seq<State>, ghost segs': seq<seq<Dir>>, ghost pushed': nat)
    requires SlidesSoFar(s, slides, i, full, State(player, boxes), pushed, states, segs) && i < |slides|
    ensures next.None? ==> SlidesOutcome(s.grid, Start(s), slides).None?
    ensures next.Some? ==> SlidesSoFar(s, slides, i + 1, next.value.0, next.value.1, pushed', states', segs')
  {
    ghost var seg: seq<Dir>;
    next, seg := ApplySlide(s.grid, Start(s), full, pushed, player, boxes, slides[i]);
    states', segs', pushed' := states, segs, pushed;
    if next.None? {
      SlidesStuck(s, slides, i, full, State(player, boxes), pushed, states, segs);
      return;
    }
    SlidesSoFarStep(s, slides, i, full, State(player, boxes), pushed, states, segs, next.value.0, next.value.1, seg);
    states', segs', pushed' := states + [next.value.1], segs + [seg], pushed + SlideLength(slides[i]);
  }

  /**
   * After the first `i` slides: the rest lead to the same outcome as all of
   * them from the start, `full` replays to the board `st` reached with one
   * push per unit of slide length so far, and it is made of one
   * walk-then-pushes segment per slide.
   */
  ghost predicate SlidesSoFar(s: GameState, slides: seq<SlideAction>, i: nat, full: seq<Dir>, st: State, pushed: nat,
                              states: seq<State>, segs: seq<seq<Dir>>) {
    && i <= |slides|
    && SlidesOutcome(s.grid, Start(s), slides) == SlidesOutcome(s.grid, st, slides[i..])
    && pushed == SlidePushCount(slides[..i])
    && ReplaysTo(s.grid, Start(s), full, st, pushed)
    && SlidesShape(s.grid, Start(s), slides, i, states, segs, full) && states[i] == st
  }

  lemma SlidesSoFarInit(s: GameState, slides: seq<SlideAction>)
    ensures SlidesSoFar(s, slides, 0, [], Start(s), 0, [Start(s)], [])
  {
    assert slides[0..] == slides && slides[..0] == [];
  }

  lemma SlidesSoFarStep(s: GameState, slides: seq<SlideAction>, i: nat, full: seq<Dir>, st: State, pushed: nat,
                        states: seq<State>, segs: seq<seq<Dir>>, full': seq<Dir>, next: State, seg: seq<Dir>)
    requires SlidesSoFar(s, slides, i, full, st, pushed, states, segs) && i < |slides|
    requires SlideApplied(s.grid, Start(s), full, pushed, st, slides[i], full', next, seg)
    ensures SlideLength(slides[i]) > 0
    ensures SlidesSoFar(s, slides, i + 1, full', next, pushed + SlideLength(slides[i]), states + [next], segs + [seg])
  {
    SlidesStep(s.grid, st, slides, i);
    SlidePushCountStep(slides, i);
    SlidesShapeStep(s.grid, Start(s), slides, i, states, segs, full, next, seg);
  }

  lemma SlidesStuck(s: GameState, slides: seq<SlideAction>, i: nat, full: seq<Dir>, st: State, pushed: nat,
                    states: seq<State>, segs: seq<seq<Dir>>)
    requires SlidesSoFar(s, slides, i, full, st, pushed, states, segs) && i < |slides|
    requires SlideOnce(s.grid, st, slides[i]).None?
    ensures SlidesOutcome(s.grid, Start(s), slides).None?
  {
    SlidesStep(s.grid, st, slides, i);
  }

  lemma SlidesSoFarDone(s: GameState, slides: seq<SlideAction>, full: seq<Dir>, st: State, pushed: nat,
                        states: seq<State>, segs: seq<seq<Dir>>)
    requires SlidesSoFar(s, slides, |slides|, full, st, pushed, states, segs)
    ensures SlidesOutcome(s.grid, Start(s), slides) == Some(st)
    ensures pushed == SlidePushCount(slides)
    ensures SlidesShape(s.grid, Start(s), slides, |slides|, states, segs, full)
    ensures BoxesOffWalls(s.grid, BoxSet(s.boxes)) ==> Replay(s.grid, Start(s), full) == Some(Played(st, pushed))
  {
    assert slides[..|slides|] == slides;
  }

  // ---------------------------------------------------------------------------
  // Trimming a padded solution

  /** The move a direction name stands for; `None` for an unknown name or an illegal move. */
  function MoveNamed(grid: seq<string>, st: State, name: string): Option<State> {
    match ParseDir(name)
    case None => None
    case Some(d) => TryMove(grid, st, d)
  }

  /** Plays a list of direction names; `None` at the first unknown name or illegal move. */
  function ReplayNames(grid: seq<string>, st: State, names: seq<string>): Option<State>
    decreases |names|
  {
    if names == [] then Some(st)
    else
      match ReplayNames(grid, st, names[..|names| - 1])
      case None => None
      case Some(cur) => MoveNamed(grid, cur, names[|names| - 1])
  }

  /** The move list `names`, played from the request's start, ends with every box on a goal. */
  predicate SolvedAfter(s: GameState, names: seq<string>) {
    match ReplayNames(s.grid, Start(s), names)
    case None => false
    case Some(st) => Solved(st.boxes, BoxSet(s.goals))
  }

  /** The first `j` moves of `moves`, played from the start, end solved. */
  predicate FinishesAt(s: GameState, moves: seq<string>, j: nat)
    requires j <= |moves|
  {
    SolvedAfter(s, moves[..j])
  }

  /** Names of directions replay exactly as the directions do. */
  lemma {:induction false} ReplayNamesOfDirs(grid: seq<string>, st: State, ds: seq<Dir>)
    ensures ReplayNames(grid, st, DirNames(ds)) == StateAfter(grid, st, ds)
    decreases |ds|
  {
    if ds != [] {
      var init := ds[..|ds| - 1];
      assert DirNames(ds)[..|ds| - 1] == DirNames(init);
      ReplayNamesOfDirs(grid, st, init);
      ParseDirName(ds[|ds| - 1]);
    }
  }

  lemma ReplayNamesStep(grid: seq<string>, st: State, names: seq<string>, i: nat)
    requires i < |names|
    ensures ReplayNames(grid, st, names[..i + 1]) ==
      match ReplayNames(grid, st, names[..i])
      case None => None
      case Some(cur) => MoveNamed(grid, cur, names[i])
  {
    assert names[..i + 1][..i] == names[..i];
  }

  /** Once a prefix fails to replay, every longer prefix fails too. */
  lemma {:induction false} FailureIsFinal(grid: seq<string>, st: State, names: seq<string>, k: nat, j: nat)
    requires k <= j <= |names| && ReplayNames(grid, st, names[..k]).None?
    ensures ReplayNames(grid, st, names[..j]).None?
    decreases j - k
  {
    if k < j {
      assert names[..k + 1][..k] == names[..k];
      FailureIsFinal(grid, st, names, k + 1, j);
    }
  }

  /** One iteration of the trimming loop: the named move, or `None` for an unknown name or an illegal move. */
  method SimulateMove(grid: seq<string>, player: Pos, boxes: set<Pos>, name: string) returns (r: Option<State>)
    ensures r == MoveNamed(grid, State(player, boxes), name)
  {
    var d := ParseDir(name);
    if d.None? {
      return None;
    }
    var dx, dy := Dx(d.value), Dy(d.value);
    var n := Pos(player.x + dx, player.y + dy);
    if IsWall(grid, n) {
      return None;
    }
    if n in boxes {
      var b2 := Pos(n.x + dx, n.y + dy);
      if IsWall(grid, b2) || b2 in boxes {
        return None;
      }
      return Some(State(n, boxes - {n} + {b2}));
    }
    return Some(State(n, boxes));
  }

  /**
   * `r` is what trimming must return when the start is not solved: the
   * shortest prefix of `moves` that ends solved, or `moves` itself when no
   * prefix does.
   */
  ghost predicate FirstFinish(s: GameState, moves: seq<string>, r: seq<string>) {
    && |r| <= |moves| && r == moves[..|r|]
    && (forall j :: 0 < j < |r| ==> !FinishesAt(s, moves, j))
    && (SolvedAfter(s, r) || (r == moves && forall j :: 0 < j <= |moves| ==> !FinishesAt(s, moves, j)))
  }

  /** No prefix of `moves` of length 1 to `k` ends solved. */
  ghost predicate Unfinished(s: GameState, moves: seq<string>, k: nat) {
    k <= |moves| && forall j :: 0 < j <= k ==> !FinishesAt(s, moves, j)
  }

  lemma UnfinishedStep(s: GameState, moves: seq<string>, i: nat)
    requires i < |moves| && Unfinished(s, moves, i) && !FinishesAt(s, moves, i + 1)
    ensures Unfinished(s, moves, i + 1)
  {
  }

  lemma FinishesHere(s: GameState, moves: seq<string>, i: nat)
    requires i < |moves| && FinishesAt(s, moves, i + 1) && Unfinished(s, moves, i)
    ensures FirstFinish(s, moves, moves[..i + 1])
  {
  }

  lemma NeverFinishes(s: GameState, moves: seq<string>)
    requires Unfinished(s, moves, |moves|)
    ensures FirstFinish(s, moves, moves)
  {
    assert moves[..|moves|] == moves;
  }

  /** When the first `i` moves have not finished and the first `i + 1` fail to replay, none ever finishes. */
  lemma StuckUnfinished(s: GameState, moves: seq<string>, i: nat)
    requires i < |moves| && Unfinished(s, moves, i) && ReplayNames(s.grid, Start(s), moves[..i + 1]).None?
    ensures FirstFinish(s, moves, moves)
  {
    NoLaterFinish(s, moves, i + 1);
    NeverFinishes(s, moves);
  }

  /**
   * `_trim_solution_to_first_finish`: `[]` when the start is already solved;
   * otherwise the shortest prefix of `moves` after which every box is on a
   * goal, or `moves` unchanged when no prefix gets there (an unknown name or
   * an illegal move ends the simulation).
   */
  method TrimSolutionToFirstFinish(s: GameState, moves: seq<string>) returns (r: seq<string>)
    ensures Solved(BoxSet(s.boxes), BoxSet(s.goals)) ==> r == []
    ensures !Solved(BoxSet(s.boxes), BoxSet(s.goals)) ==> FirstFinish(s, moves, r)
  {
    var goals := BoxSet(s.goals);
    var boxes := BoxSet(s.boxes);
    var player := s.player;
    if Solved(boxes, goals) {
      return [];
    }
    var i := 0;
    while i < |moves|
      invariant 0 <= i <= |moves|
      invariant ReplayNames(s.grid, Start(s), moves[..i]) == Some(State(player, boxes))
      invariant Unfinished(s, moves, i)
    {
      var next := SimulateMove(s.grid, player, boxes, moves[i]);
      TrimStep(s, moves, i, State(player, boxes), next);
      if next.None? {
        StuckUnfinished(s, moves, i);
        return moves;
      }
      player, boxes := next.value.player, next.value.boxes;
      if Solved(boxes, goals) {
        FinishesHere(s, moves, i);
        return moves[..i + 1];
      }
      UnfinishedStep(s, moves, i);
      i := i + 1;
    }
    NeverFinishes(s, moves);
    return moves;
  }

  /** Playing move `i` after the first `i` replays the first `i + 1`, which end solved exactly when it lands solved. */
  lemma TrimStep(s: GameState, moves: seq<string>, i: nat, st: State, next: Option<State>)
    requires i < |moves| && ReplayNames(s.grid, Start(s), moves[..i]) == Some(st)
    requires next == MoveNamed(s.grid, st, moves[i])
    ensures ReplayNames(s.grid, Start(s), moves[..i + 1]) == next
    ensures FinishesAt(s, moves, i + 1) <==> next.Some? && Solved(next.value.boxes, BoxSet(s.goals))
  {
    ReplayNamesStep(s.grid, Start(s), moves, i);
  }

  /** When the prefix of length `k` fails to replay, no prefix from `k` on ends solved. */
  lemma NoLaterFinish(s: GameState, moves: seq<string>, k: nat)
    requires k <= |moves| && ReplayNames(s.grid, Start(s), moves[..k]).None?
    ensures forall j :: k <= j <= |moves| ==> !FinishesAt(s, moves, j)
  {
    forall j | k <= j <= |moves|
      ensures !FinishesAt(s, moves, j)
    {
      FailureIsFinal(s.grid, Start(s), moves, k, j);
    }
  }
}
