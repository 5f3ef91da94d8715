/**
 * `astar_solve`: A* over canonical push states.  The open list is a binary
 * heap of `(f, h, tie, state)` entries, `g` holds the best push count found
 * for each state and `came_from` the push that reached it.  The wall clock
 * is replaced by a bound on the number of expansions.  What is proved is
 * soundness: a returned plan is a chain of legal pushes from the canonical
 * start to a solved state.
 */
module AstarSearch {
  import opened Wrappers
  import opened Walks
  import opened Rules
  import opened AstarLevel
  import opened Assignment

  /** A heap item `(f, h, tie, state)`. */
  datatype Entry = Entry(f: nat, h: nat, tie: nat, st: State)

  /** Python's tuple order on the first three fields; the tie counter makes them distinct. */
  predicate EntryLe(a: Entry, b: Entry) {
    a.f < b.f || (a.f == b.f && (a.h < b.h || (a.h == b.h && a.tie <= b.tie)))
  }

  /** `heapq.heappop`: remove and return a least entry. */
  method PopMin(heap: seq<Entry>) returns (e: Entry, rest: seq<Entry>)
    requires heap != []
    ensures e in heap && multiset(rest) + multiset{e} == multiset(heap) && |rest| == |heap| - 1
    ensures forall x :: x in heap ==> EntryLe(e, x)
  {
    var m := 0;
    var i := 1;
    while i < |heap|
      invariant 0 <= m < i <= |heap|
      invariant forall j :: 0 <= j < i ==> EntryLe(heap[m], heap[j])
    {
      if !EntryLe(heap[m], heap[i]) {
        m := i;
      }
      i := i + 1;
    }
    e := heap[m];
    rest := heap[..m] + heap[m + 1..];
    assert heap == heap[..m] + [e] + heap[m + 1..];
  }

  /** The outcome of the search; `NotFound` and `OutOfFuel` are both `None` in the source. */
  datatype Outcome =
    | Found(moves: seq<Move>, expanded: nat, generated: nat)
    | NotFound(expanded: nat, generated: nat)
    | OutOfFuel(expanded: nat, generated: nat)
    | Failed(msg: string)

  /** `states[i + 1]` follows from `states[i]` by the push `moves[i]`. */
  ghost predicate IsPlan(level: Level, states: seq<State>, moves: seq<Move>) {
    && |states| == |moves| + 1
    && forall i :: 0 <= i < |moves| ==> IsSuccessor(level, states[i], states[i + 1], moves[i])
  }

  /** The canonical start state of the level. */
  ghost predicate IsStart(level: Level, st: State) {
    st.boxes == level.startBoxes && IsCanonical(level, level.startPlayer, level.startBoxes, st.player)
  }

  /** A plan from the canonical start to a solved state. */
  ghost predicate IsSolution(level: Level, states: seq<State>, moves: seq<Move>) {
    IsPlan(level, states, moves) && IsStart(level, states[0]) && IsSolved(level, states[|states| - 1].boxes)
  }

  /**
   * The search bookkeeping: the start has `g == 0` and no parent; every other
   * state with a `g` has a parent, reached by a legal push, with a smaller `g`.
   */
  ghost predicate Linked(level: Level, start: State, g: map<State, nat>, cameFrom: map<State, (State, Move)>) {
    && start in g && g[start] == 0
    && (forall s :: s in g ==> s == start || s in cameFrom)
    && forall s :: s in cameFrom ==>
      && s in g && cameFrom[s].0 in g && g[cameFrom[s].0] < g[s]
      && IsSuccessor(level, cameFrom[s].0, s, cameFrom[s].1)
  }

  /** Recording a strictly better route to `nxt` through `cur` keeps the links, and `cur`'s own `g`. */
  lemma LinkedUpdate(level: Level, start: State, g: map<State, nat>, cameFrom: map<State, (State, Move)>,
                     cur: State, nxt: State, mv: Move, t: nat)
    requires Linked(level, start, g, cameFrom) && cur in g && t == g[cur] + 1
    requires IsSuccessor(level, cur, nxt, mv) && (nxt in g ==> t < g[nxt])
    ensures Linked(level, start, g[nxt := t], cameFrom[nxt := (cur, mv)])
    ensures nxt != cur && nxt != start
  {
    var g', cf' := g[nxt := t], cameFrom[nxt := (cur, mv)];
    forall s | s in cf'
      ensures s in g' && cf'[s].0 in g' && g'[cf'[s].0] < g'[s]
    {
      if s != nxt {
        assert cf'[s] == cameFrom[s];
      }
    }
  }

  /** Following `came_from` back from `cur` to the start, the pushes in order. */
  method Reconstruct(ghost level: Level, ghost start: State, g: map<State, nat>, cameFrom: map<State, (State, Move)>, cur: State)
    returns (path: seq<Move>)
    requires Linked(level, start, g, cameFrom) && cur in g
    ensures exists states :: IsPlan(level, states, path) && states[0] == start && states[|states| - 1] == cur
  {
    // Built back to front, which is `path.append` followed by `path.reverse()`.
    path := [];
    var s := cur;
    ghost var states := [cur];
    while s in cameFrom
      invariant s in g && IsPlan(level, states, path) && states[0] == s && states[|states| - 1] == cur
      decreases g[s]
    {
      var (prev, mv) := cameFrom[s];
      PlanCons(level, prev, mv, states, path);
      path := [mv] + path;
      states := [prev] + states;
      s := prev;
    }
    assert s == start;
    assert IsPlan(level, states, path) && states[0] == start && states[|states| - 1] == cur;
  }

  /** A push into the first state of a plan extends the plan at the front. */
  lemma PlanCons(level: Level, prev: State, mv: Move, states: seq<State>, moves: seq<Move>)
    requires IsPlan(level, states, moves) && IsSuccessor(level, prev, states[0], mv)
    ensures IsPlan(level, [prev] + states, [mv] + moves)
  {
    var states', moves' := [prev] + states, [mv] + moves;
    forall i | 0 <= i < |moves'|
      ensures IsSuccessor(level, states'[i], states'[i + 1], moves'[i])
    {
      if i > 0 {
        assert states'[i] == states[i - 1] && states'[i + 1] == states[i] && moves'[i] == moves[i - 1];
      }
    }
  }

  /** `h_for_boxes`: the optimal assignment cost of the sorted boxes to the sorted goals. */
  method BoxHeuristic(boxes: set<Pos>, goals: seq<Pos>) returns (sorted: seq<Pos>, r: Result<nat>)
    ensures StrictlySorted(sorted) && BoxSet(sorted) == boxes
    ensures r.Err? <==> |boxes| != |goals|
    ensures r.Ok? ==> IsMinCost(ManhattanMatrix(sorted, goals), |goals|, |sorted|, r.value)
  {
    sorted := SortCells(boxes);
    r := MinAssignmentCost(sorted, goals);
  }

  /** The state the inner loop of one expansion threads through. */
  datatype Frontier = Frontier(
    g: map<State, nat>, cameFrom: map<State, (State, Move)>,
    heap: seq<Entry>, openSet: set<State>, tie: nat, generated: nat)

  ghost predicate FrontierOk(level: Level, start: State, fr: Frontier) {
    Linked(level, start, fr.g, fr.cameFrom) && fr.openSet <= fr.g.Keys
  }

  /** `s` keeps the `g` and the `came_from` entry it had before the expansion. */
  ghost predicate Kept(fr0: Frontier, fr: Frontier, s: State) {
    && s in fr0.g && s in fr.g && fr.g[s] == fr0.g[s]
    && (s in fr.cameFrom <==> s in fr0.cameFrom)
    && (s in fr0.cameFrom ==> fr.cameFrom[s] == fr0.cameFrom[s])
  }

  /**
   * The expansion of `cur` recorded `s`: a successor of `cur` whose `g` is
   * now `t` (strictly better than any earlier one), reached from `cur`, and open.
   */
  ghost predicate Recorded(level: Level, cur: State, t: nat, fr0: Frontier, fr: Frontier, s: State) {
    && s in fr.g && fr.g[s] == t && (s in fr0.g ==> t < fr0.g[s])
    && s in fr.cameFrom && fr.cameFrom[s].0 == cur && IsSuccessor(level, cur, s, fr.cameFrom[s].1)
    && s in fr.openSet
  }

  /** Pushing box `b` in direction `d` from `cur` leads to a state whose `g` is at most `t`. */
  ghost predicate PushRecorded(level: Level, cur: State, t: nat, fr: Frontier, b: Pos, d: Dir) {
    exists s: State, mv: Move :: mv.boxFrom == b && mv.dir == d && IsSuccessor(level, cur, s, mv) && s in fr.g && fr.g[s] <= t
  }

  /** The frontier only grows: no `g` entry or open state is dropped, and the heap is only appended to. */
  ghost predicate Grows(fr0: Frontier, fr: Frontier) {
    && fr0.g.Keys <= fr.g.Keys && fr0.openSet <= fr.openSet
    && |fr0.heap| <= |fr.heap| && fr.heap[..|fr0.heap|] == fr0.heap
  }

  /** Every state with a `g` either kept its entry or was recorded by the expansion. */
  ghost predicate OnlyRecorded(level: Level, cur: State, t: nat, fr0: Frontier, fr: Frontier) {
    forall s :: s in fr.g ==> Kept(fr0, fr, s) || Recorded(level, cur, t, fr0, fr, s)
  }

  /** Every heap entry pushed by the expansion is a recorded state with `f = g + h`. */
  ghost predicate HeapRecorded(level: Level, cur: State, t: nat, fr0: Frontier, fr: Frontier) {
    forall k :: |fr0.heap| <= k < |fr.heap| ==>
      Recorded(level, cur, t, fr0, fr, fr.heap[k].st) && fr.heap[k].f == t + fr.heap[k].h
  }

  /** What one expansion of `cur` has done so far, relative to the frontier `fr0` it started from. */
  ghost predicate ExpandedSoFar(level: Level, start: State, cur: State, t: nat, fr0: Frontier, fr: Frontier) {
    && FrontierOk(level, start, fr)
    && Grows(fr0, fr)
    && OnlyRecorded(level, cur, t, fr0, fr)
    && HeapRecorded(level, cur, t, fr0, fr)
  }

  /**
   * The successor loop of one expansion of `cur`.  Every successor whose
   * tentative `g[cur] + 1` beats its recorded `g` gets that `g`, `cur` as its
   * predecessor, an open-set entry and a heap entry with `f = g + h`; every
   * other state keeps its `g` and its predecessor.  Unless the heuristic
   * fails, every legal push from `cur` ends up with a `g` of at most
   * `g[cur] + 1`.
   */
  method Expand(level: Level, ghost start: State, goals: seq<Pos>, cur: State, fr0: Frontier)
    returns (fr: Frontier, err: Option<string>)
    requires FrontierOk(level, start, fr0) && cur in fr0.g
    ensures ExpandedSoFar(level, start, cur, fr0.g[cur] + 1, fr0, fr)
    ensures err.None? ==> forall b, d :: LegalPush(level, cur, b, d) ==> PushRecorded(level, cur, fr0.g[cur] + 1, fr, b, d)
    ensures fr.generated >= fr0.generated
  {
    fr := fr0;
    err := None;
    var curG := fr.g[cur];
    var generated := fr0.generated;
    var succ := Successors(level, cur);
    var i := 0;
    while i < |succ|
      invariant i <= |succ|
      invariant ExpandedSoFar(level, start, cur, curG + 1, fr0, fr) && cur in fr.g && fr.g[cur] == curG
      invariant SeenBy(succ, i, fr.g, curG + 1)
      invariant generated >= fr0.generated
    {
      generated := generated + 1;
      fr, err := Relax(level, start, goals, cur, curG, fr0, fr, succ, i);
      if err.Some? {
        WithGenerated(level, start, cur, curG + 1, fr0, fr, generated);
        return fr.(generated := generated), err;
      }
      i := i + 1;
    }
    AllPushesRecorded(level, cur, succ, curG + 1, fr);
    WithGenerated(level, start, cur, curG + 1, fr0, fr, generated);
    fr := fr.(generated := generated);
  }

  /**
   * One turn of the successor loop: successor `i` of `cur` is recorded when
   * its tentative `g` beats the one it has; `err` is set when its heuristic fails.
   */
  method Relax(level: Level, ghost start: State, goals: seq<Pos>, cur: State, curG: nat, ghost fr0: Frontier,
               fr1: Frontier, succ: seq<(State, Move)>, i: nat)
    returns (fr: Frontier, err: Option<string>)
    requires ExpandedSoFar(level, start, cur, curG + 1, fr0, fr1) && cur in fr1.g && fr1.g[cur] == curG
    requires SeenBy(succ, i, fr1.g, curG + 1) && i < |succ| && IsSuccessor(level, cur, succ[i].0, succ[i].1)
    ensures ExpandedSoFar(level, start, cur, curG + 1, fr0, fr) && cur in fr.g && fr.g[cur] == curG
    ensures err.None? ==> SeenBy(succ, i + 1, fr.g, curG + 1)
  {
    fr, err := fr1, None;
    var (nxt, mv) := succ[i];
    var tentative := curG + 1;
    if nxt in fr1.g && tentative >= fr1.g[nxt] {
      SeenKept(succ, i, fr1.g, tentative);
      return;
    }
    var _, hr := BoxHeuristic(nxt.boxes, goals);
    if hr.Err? {
      return fr1, Some(hr.msg);
    }
    fr := RecordSuccessor(level, start, cur, curG + 1, fr0, fr1, nxt, mv, hr.value);
    SeenUpdated(succ, i, fr1.g, tentative);
  }

  /** Records `nxt` with `g == t`, predecessor `cur`, and a heap entry with `f == t + h`. */
  method RecordSuccessor(level: Level, ghost start: State, cur: State, t: nat, ghost fr0: Frontier,
                         fr1: Frontier, nxt: State, mv: Move, h: nat)
    returns (fr: Frontier)
    requires ExpandedSoFar(level, start, cur, t, fr0, fr1) && cur in fr1.g && t == fr1.g[cur] + 1
    requires IsSuccessor(level, cur, nxt, mv) && (nxt in fr1.g ==> t < fr1.g[nxt])
    ensures ExpandedSoFar(level, start, cur, t, fr0, fr) && cur in fr.g && fr.g[cur] == fr1.g[cur]
    ensures fr.g == fr1.g[nxt := t]
  {
    var tie := fr1.tie + 1;
    fr := Frontier(fr1.g[nxt := t], fr1.cameFrom[nxt := (cur, mv)],
                   fr1.heap + [Entry(t + h, h, tie, nxt)], fr1.openSet + {nxt}, tie, fr1.generated);
    assert fr.heap[..|fr1.heap|] == fr1.heap;
    RecordNextKeeps(level, start, cur, t, fr0, fr1, fr, nxt, mv);
  }

  /** Recording a strictly better successor `nxt` of `cur` keeps the expansion's bookkeeping. */
  lemma RecordNextKeeps(level: Level, start: State, cur: State, t: nat, fr0: Frontier, fr1: Frontier, fr: Frontier,
                        nxt: State, mv: Move)
    requires ExpandedSoFar(level, start, cur, t, fr0, fr1) && cur in fr1.g && t == fr1.g[cur] + 1
    requires IsSuccessor(level, cur, nxt, mv) && RecordedNext(cur, t, fr1, fr, nxt, mv)
    ensures ExpandedSoFar(level, start, cur, t, fr0, fr) && cur in fr.g && fr.g[cur] == fr1.g[cur]
  {
    LinkedUpdate(level, start, fr1.g, fr1.cameFrom, cur, nxt, mv, t);
    GrowsStep(cur, t, fr0, fr1, fr, nxt, mv);
    OnlyRecordedStep(level, cur, t, fr0, fr1, fr, nxt, mv);
    HeapRecordedStep(level, cur, t, fr0, fr1, fr, nxt, mv);
  }

  /** The expansion's bookkeeping does not depend on the `generated` counter. */
  lemma WithGenerated(level: Level, start: State, cur: State, t: nat, fr0: Frontier, fr: Frontier, n: nat)
    requires ExpandedSoFar(level, start, cur, t, fr0, fr)
    ensures ExpandedSoFar(level, start, cur, t, fr0, fr.(generated := n))
    ensures forall b, d :: PushRecorded(level, cur, t, fr, b, d) ==> PushRecorded(level, cur, t, fr.(generated := n), b, d)
  {
    var fr' := fr.(generated := n);
    assert fr'.g == fr.g && fr'.cameFrom == fr.cameFrom && fr'.heap == fr.heap && fr'.openSet == fr.openSet;
    forall s | s in fr'.g
      ensures Kept(fr0, fr', s) || Recorded(level, cur, t, fr0, fr', s)
    {
      assert Kept(fr0, fr, s) || Recorded(level, cur, t, fr0, fr, s);
    }
    forall k | |fr0.heap| <= k < |fr'.heap|
      ensures Recorded(level, cur, t, fr0, fr', fr'.heap[k].st) && fr'.heap[k].f == t + fr'.heap[k].h
    {
      assert Recorded(level, cur, t, fr0, fr, fr.heap[k].st);
    }
  }

  /** Once every offered successor has a `g` of at most `t`, so does every legal push from `cur`. */
  lemma AllPushesRecorded(level: Level, cur: State, succ: seq<(State, Move)>, t: nat, fr: Frontier)
    requires forall i :: 0 <= i < |succ| ==> IsSuccessor(level, cur, succ[i].0, succ[i].1)
    requires forall b, d :: LegalPush(level, cur, b, d) ==> Offers(succ, b, d)
    requires SeenBy(succ, |succ|, fr.g, t)
    ensures forall b, d :: LegalPush(level, cur, b, d) ==> PushRecorded(level, cur, t, fr, b, d)
  {
    forall b, d | LegalPush(level, cur, b, d)
      ensures PushRecorded(level, cur, t, fr, b, d)
    {
      var j :| 0 <= j < |succ| && succ[j].1.boxFrom == b && succ[j].1.dir == d;
      assert IsSuccessor(level, cur, succ[j].0, succ[j].1);
      assert succ[j].0 in fr.g && fr.g[succ[j].0] <= t;
    }
  }

  /** The first `i` successors have a `g` of at most `bound`. */
  ghost predicate SeenBy(succ: seq<(State, Move)>, i: nat, g: map<State, nat>, bound: nat) {
    i <= |succ| && forall j :: 0 <= j < i ==> succ[j].0 in g && g[succ[j].0] <= bound
  }

  /** A successor whose `g` is already no worse than `bound` is settled as it is. */
  lemma SeenKept(succ: seq<(State, Move)>, i: nat, g: map<State, nat>, bound: nat)
    requires SeenBy(succ, i, g, bound) && i < |succ|
    requires succ[i].0 in g && g[succ[i].0] <= bound
    ensures SeenBy(succ, i + 1, g, bound)
  {
  }

  /** Lowering the `g` of successor `i` to `bound` settles it and keeps the earlier ones settled. */
  lemma SeenUpdated(succ: seq<(State, Move)>, i: nat, g: map<State, nat>, bound: nat)
    requires SeenBy(succ, i, g, bound) && i < |succ|
    requires succ[i].0 in g ==> bound < g[succ[i].0]
    ensures SeenBy(succ, i + 1, g[succ[i].0 := bound], bound)
  {
  }

  /**
   * The frontier `fr` is `fr1` with the strictly better successor `nxt`
   * recorded: its `g`, its predecessor, its open-set entry and its heap entry.
   */
  ghost predicate RecordedNext(cur: State, t: nat, fr1: Frontier, fr: Frontier, nxt: State, mv: Move) {
    && (nxt in fr1.g ==> t < fr1.g[nxt])
    && fr.g == fr1.g[nxt := t] && fr.cameFrom == fr1.cameFrom[nxt := (cur, mv)]
    && fr.openSet == fr1.openSet + {nxt}
    && |fr.heap| == |fr1.heap| + 1 && fr.heap[..|fr1.heap|] == fr1.heap
    && fr.heap[|fr1.heap|].st == nxt && fr.heap[|fr1.heap|].f == t + fr.heap[|fr1.heap|].h
  }

  lemma GrowsStep(cur: State, t: nat, fr0: Frontier, fr1: Frontier, fr: Frontier, nxt: State, mv: Move)
    requires Grows(fr0, fr1) && RecordedNext(cur, t, fr1, fr, nxt, mv)
    ensures Grows(fr0, fr)
  {
    assert fr.heap[..|fr0.heap|] == fr.heap[..|fr1.heap|][..|fr0.heap|];
  }

  /** A state recorded before `nxt` stays recorded. */
  lemma RecordedStays(level: Level, cur: State, t: nat, fr0: Frontier, fr1: Frontier, fr: Frontier,
                      nxt: State, mv: Move, s: State)
    requires RecordedNext(cur, t, fr1, fr, nxt, mv) && s != nxt
    requires Recorded(level, cur, t, fr0, fr1, s)
    ensures Recorded(level, cur, t, fr0, fr, s)
  {
    assert fr.g[s] == fr1.g[s] && fr.cameFrom[s] == fr1.cameFrom[s];
  }

  lemma OnlyRecordedStep(level: Level, cur: State, t: nat, fr0: Frontier, fr1: Frontier, fr: Frontier,
                         nxt: State, mv: Move)
    requires Grows(fr0, fr1) && OnlyRecorded(level, cur, t, fr0, fr1) && RecordedNext(cur, t, fr1, fr, nxt, mv)
    requires IsSuccessor(level, cur, nxt, mv)
    ensures OnlyRecorded(level, cur, t, fr0, fr)
    ensures Recorded(level, cur, t, fr0, fr, nxt)
  {
    if nxt in fr1.g {
      // A state recorded earlier already has `g == t`, so `nxt` was kept.
      assert Kept(fr0, fr1, nxt) || Recorded(level, cur, t, fr0, fr1, nxt);
    }
    assert Recorded(level, cur, t, fr0, fr, nxt);
    forall s | s in fr.g
      ensures Kept(fr0, fr, s) || Recorded(level, cur, t, fr0, fr, s)
    {
      if s != nxt {
        assert Kept(fr0, fr1, s) || Recorded(level, cur, t, fr0, fr1, s);
        if Recorded(level, cur, t, fr0, fr1, s) {
          RecordedStays(level, cur, t, fr0, fr1, fr, nxt, mv, s);
        } else {
          assert fr.g[s] == fr1.g[s];
        }
      }
    }
  }

  lemma HeapRecordedStep(level: Level, cur: State, t: nat, fr0: Frontier, fr1: Frontier, fr: Frontier,
                         nxt: State, mv: Move)
    requires HeapRecorded(level, cur, t, fr0, fr1) && RecordedNext(cur, t, fr1, fr, nxt, mv)
    requires Recorded(level, cur, t, fr0, fr, nxt) && |fr0.heap| <= |fr1.heap|
    ensures HeapRecorded(level, cur, t, fr0, fr)
  {
    forall k | |fr0.heap| <= k < |fr.heap|
      ensures Recorded(level, cur, t, fr0, fr, fr.heap[k].st) && fr.heap[k].f == t + fr.heap[k].h
    {
      if k < |fr1.heap| {
        assert fr.heap[k] == fr.heap[..|fr1.heap|][k] == fr1.heap[k];
        var s := fr1.heap[k].st;
        assert Recorded(level, cur, t, fr0, fr1, s);
        if s == nxt {
          assert false;
        }
        RecordedStays(level, cur, t, fr0, fr1, fr, nxt, mv, s);
      } else {
        assert fr.heap[k].st == nxt;
      }
    }
  }

  /**
   * `astar_solve` with at most `fuel` expansions.  A solved start gives the
   * empty plan; a returned plan is a chain of legal pushes from the canonical
   * start to a state whose boxes are exactly the goals.
   */
  method AstarSolve(level: Level, fuel: nat) returns (r: Outcome)
    ensures IsSolved(level, level.startBoxes) ==> r == Found([], 0, 0)
    ensures r.Found? ==> exists states :: IsSolution(level, states, r.moves)
  {
    var start := CanonicalState(level, level.startPlayer, level.startBoxes);
    assert IsStart(level, start);
    if IsSolved(level, start.boxes) {
      assert IsSolution(level, [start], []);
      return Found([], 0, 0);
    }
    var goals := SortCells(level.goals);
    var _, h0r := BoxHeuristic(start.boxes, goals);
    if h0r.Err? {
      return Failed(h0r.msg);
    }
    var h0 := h0r.value;
    var fr := Frontier(map[start := 0], map[], [Entry(h0, h0, 0, start)], {start}, 0, 0);
    var expanded := 0;
    while fr.heap != []
      invariant FrontierOk(level, start, fr) && expanded <= fuel
      decreases fuel - expanded, |fr.heap|
    {
      if expanded >= fuel {
        return OutOfFuel(expanded, fr.generated);
      }
      var e, rest := PopMin(fr.heap);
      fr := fr.(heap := rest);
      var cur := e.st;
      if cur !in fr.openSet {
        continue;
      }
      fr := fr.(openSet := fr.openSet - {cur});
      expanded := expanded + 1;
      if IsSolved(level, cur.boxes) {
        var path := Reconstruct(level, start, fr.g, fr.cameFrom, cur);
        ghost var states :| IsPlan(level, states, path) && states[0] == start && states[|states| - 1] == cur;
        assert IsSolution(level, states, path);
        return Found(path, expanded, fr.generated);
      }
      var err;
      fr, err := Expand(level, start, goals, cur, fr);
      if err.Some? {
        return Failed(err.value);
      }
    }
    return NotFound(expanded, fr.generated);
  }

  /** Every push of a plan keeps the number of boxes, so a plan ends with as many boxes as it starts. */
  lemma {:induction false} PlanKeepsBoxCount(level: Level, states: seq<State>, moves: seq<Move>)
    requires IsPlan(level, states, moves)
    ensures |states[|states| - 1].boxes| == |states[0].boxes|
  {
    if moves != [] {
      var k := |moves| - 1;
      PlanKeepsBoxCount(level, states[..k + 1], moves[..k]);
      SuccessorMovesOneBox(level, states[k], states[k + 1], moves[k]);
    }
  }
}
