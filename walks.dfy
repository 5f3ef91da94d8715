/**
 * Grid coordinates, the four directions, and walks of the player through a
 * finite set of free cells.  Every flood fill and breadth-first search of the
 * backend explores such a set; `Reachable` is what they are proved to compute.
 */
module Walks {
  import opened Wrappers

  /** A cell `(x, y)`: `x` grows to the right, `y` grows downwards. */
  datatype Pos = Pos(x: int, y: int)

  datatype Dir = Up | Down | Left | Right

  /** The order of the direction tables: up, down, left, right. */
  const Dirs: seq<Dir> := [Up, Down, Left, Right]

  function Dx(d: Dir): int {
    match d
    case Left => -1
    case Right => 1
    case _ => 0
  }

  function Dy(d: Dir): int {
    match d
    case Up => -1
    case Down => 1
    case _ => 0
  }

  function Step(p: Pos, d: Dir): Pos {
    Pos(p.x + Dx(d), p.y + Dy(d))
  }

  /** The cell behind `p` when facing `d`: where a player stands to push a box at `p` along `d`. */
  function Back(p: Pos, d: Dir): Pos {
    Pos(p.x - Dx(d), p.y - Dy(d))
  }

  function Opposite(d: Dir): (r: Dir)
    ensures Dx(r) == -Dx(d) && Dy(r) == -Dy(d)
  {
    match d
    case Up => Down
    case Down => Up
    case Left => Right
    case Right => Left
  }

  predicate IsUnitDelta(dx: int, dy: int) {
    (dx == 0 && (dy == 1 || dy == -1)) || (dy == 0 && (dx == 1 || dx == -1))
  }

  /** The `dir_from_delta` table: only the four unit deltas name a direction. */
  function DirFromDelta(dx: int, dy: int): (r: Option<Dir>)
    ensures r.Some? <==> IsUnitDelta(dx, dy)
    ensures r.Some? ==> Dx(r.value) == dx && Dy(r.value) == dy
  {
    if dx == 0 && dy == -1 then Some(Up)
    else if dx == 0 && dy == 1 then Some(Down)
    else if dx == -1 && dy == 0 then Some(Left)
    else if dx == 1 && dy == 0 then Some(Right)
    else None
  }

  /** Position in `Dirs`, the order in which searches try the directions. */
  function DirIndex(d: Dir): (i: nat)
    ensures i < |Dirs| && Dirs[i] == d
  {
    match d
    case Up => 0
    case Down => 1
    case Left => 2
    case Right => 3
  }

  // ---------------------------------------------------------------------------
  // Walks

  /** Every step of `ds`, taken from `p`, lands on a cell of `free` (the start itself is not checked). */
  predicate ValidWalk(free: set<Pos>, p: Pos, ds: seq<Dir>)
    decreases |ds|
  {
    ds == [] || (Step(p, ds[0]) in free && ValidWalk(free, Step(p, ds[0]), ds[1..]))
  }

  function End(p: Pos, ds: seq<Dir>): Pos
    decreases |ds|
  {
    if ds == [] then p else End(Step(p, ds[0]), ds[1..])
  }

  ghost predicate Reachable(free: set<Pos>, a: Pos, b: Pos) {
    exists ds :: ValidWalk(free, a, ds) && End(a, ds) == b
  }

  /** No step from a cell of `s` into `free` leaves `s`. */
  ghost predicate Closed(free: set<Pos>, s: set<Pos>) {
    forall q, d :: q in s && Step(q, d) in free ==> Step(q, d) in s
  }

  lemma {:induction false} ClosedContainsWalk(free: set<Pos>, s: set<Pos>, p: Pos, ds: seq<Dir>)
    requires Closed(free, s) && p in s && ValidWalk(free, p, ds)
    ensures End(p, ds) in s
    decreases |ds|
  {
    if ds != [] {
      ClosedContainsWalk(free, s, Step(p, ds[0]), ds[1..]);
    }
  }

  /** A closed set holding `a` holds everything reachable from `a`: how a finished search proves absence. */
  lemma ClosedContainsReachable(free: set<Pos>, s: set<Pos>, a: Pos, b: Pos)
    requires Closed(free, s) && a in s && Reachable(free, a, b)
    ensures b in s
  {
    var ds :| ValidWalk(free, a, ds) && End(a, ds) == b;
    ClosedContainsWalk(free, s, a, ds);
  }

  lemma {:induction false} WalkConcat(free: set<Pos>, p: Pos, a: seq<Dir>, b: seq<Dir>)
    ensures ValidWalk(free, p, a + b) <==> ValidWalk(free, p, a) && ValidWalk(free, End(p, a), b)
    ensures End(p, a + b) == End(End(p, a), b)
    decreases |a|
  {
    if a == [] {
      assert a + b == b;
    } else {
      assert (a + b)[0] == a[0] && (a + b)[1..] == a[1..] + b;
      WalkConcat(free, Step(p, a[0]), a[1..], b);
    }
  }

  lemma WalkSnoc(free: set<Pos>, p: Pos, a: seq<Dir>, d: Dir)
    requires ValidWalk(free, p, a) && Step(End(p, a), d) in free
    ensures ValidWalk(free, p, a + [d]) && End(p, a + [d]) == Step(End(p, a), d)
  {
    WalkConcat(free, p, a, [d]);
    assert ValidWalk(free, Step(End(p, a), d), []);
  }

  lemma ReachableTrans(free: set<Pos>, a: Pos, b: Pos, c: Pos)
    requires Reachable(free, a, b) && Reachable(free, b, c)
    ensures Reachable(free, a, c)
  {
    var ab :| ValidWalk(free, a, ab) && End(a, ab) == b;
    var bc :| ValidWalk(free, b, bc) && End(b, bc) == c;
    WalkConcat(free, a, ab, bc);
  }

  /** One more step into a free cell extends what is reachable. */
  lemma ReachableStep(free: set<Pos>, a: Pos, b: Pos, d: Dir)
    requires Reachable(free, a, b) && Step(b, d) in free
    ensures Reachable(free, a, Step(b, d))
  {
    var ab :| ValidWalk(free, a, ab) && End(a, ab) == b;
    WalkSnoc(free, a, ab, d);
  }

  /** The walk `ds` taken backwards. */
  function Retrace(ds: seq<Dir>): (r: seq<Dir>)
    ensures |r| == |ds|
  {
    if ds == [] then [] else Retrace(ds[1..]) + [Opposite(ds[0])]
  }

  /** A walk that starts on a free cell can be walked back to where it started. */
  lemma {:induction false} RetraceWalk(free: set<Pos>, p: Pos, ds: seq<Dir>)
    requires p in free && ValidWalk(free, p, ds)
    ensures ValidWalk(free, End(p, ds), Retrace(ds)) && End(End(p, ds), Retrace(ds)) == p
    decreases |ds|
  {
    if ds != [] {
      var q := Step(p, ds[0]);
      RetraceWalk(free, q, ds[1..]);
      assert Step(q, Opposite(ds[0])) == p;
      WalkSnoc(free, End(p, ds), Retrace(ds[1..]), Opposite(ds[0]));
    }
  }

  /**
   * Two free cells joined by a walk reach exactly the same cells: the player's
   * reachable component does not depend on where in it the player stands.
   */
  lemma SameComponent(free: set<Pos>, a: Pos, b: Pos, c: Pos)
    requires a in free && Reachable(free, a, b)
    ensures Reachable(free, a, c) <==> Reachable(free, b, c)
  {
    var ab :| ValidWalk(free, a, ab) && End(a, ab) == b;
    RetraceWalk(free, a, ab);
    assert Reachable(free, b, a);
    if Reachable(free, a, c) {
      ReachableTrans(free, b, a, c);
    }
    if Reachable(free, b, c) {
      ReachableTrans(free, a, b, c);
    }
  }

  lemma ReachableSelf(free: set<Pos>, a: Pos)
    ensures Reachable(free, a, a)
  {
    assert ValidWalk(free, a, []) && End(a, []) == a;
  }

  // ---------------------------------------------------------------------------
  // Ordering of cells: Python compares `(x, y)` tuples lexicographically.

  predicate LexLess(a: Pos, b: Pos) {
    a.x < b.x || (a.x == b.x && a.y < b.y)
  }

  predicate LexLe(a: Pos, b: Pos) {
    a == b || LexLess(a, b)
  }

  /** `min(cells)`: the lexicographically smallest cell of a non-empty set. */
  method MinCell(s: set<Pos>) returns (m: Pos)
    requires s != {}
    ensures m in s && forall q :: q in s ==> LexLe(m, q)
  {
    m :| m in s;
    var rest := s - {m};
    while rest != {}
      invariant rest <= s && m in s && m !in rest
      invariant forall q :: q in s && q !in rest ==> LexLe(m, q)
      decreases |rest|
    {
      var q :| q in rest;
      if LexLess(q, m) {
        m := q;
      }
      rest := rest - {q};
    }
  }

  predicate StrictlySorted(r: seq<Pos>) {
    forall i, j :: 0 <= i < j < |r| ==> LexLess(r[i], r[j])
  }

  /** `sorted(cells)` for a set of cells: the cells in increasing order, each once. */
  method SortCells(s: set<Pos>) returns (r: seq<Pos>)
    ensures StrictlySorted(r)
    ensures (set p | p in r) == s && |r| == |s|
  {
    r := [];
    var rest := s;
    while rest != {}
      invariant SortedSoFar(s, r, rest)
      decreases |rest|
    {
      var m := MinCell(rest);
      SortedSoFarStep(s, r, rest, m);
      r := r + [m];
      rest := rest - {m};
    }
  }

  /** `r` lists the cells of `s` not in `rest`, in increasing order, each below every cell of `rest`. */
  ghost predicate SortedSoFar(s: set<Pos>, r: seq<Pos>, rest: set<Pos>) {
    && rest <= s && StrictlySorted(r)
    && (set p | p in r) == s - rest
    && |r| + |rest| == |s|
    && forall i, q :: 0 <= i < |r| && q in rest ==> LexLess(r[i], q)
  }

  /** Moving the least remaining cell to the end of `r` keeps it sorted and complete so far. */
  lemma SortedSoFarStep(s: set<Pos>, r: seq<Pos>, rest: set<Pos>, m: Pos)
    requires SortedSoFar(s, r, rest)
    requires m in rest && forall q :: q in rest ==> LexLe(m, q)
    ensures SortedSoFar(s, r + [m], rest - {m})
  {
    assert (set p | p in r + [m]) == (set p | p in r) + {m};
    assert |rest - {m}| == |rest| - 1;
  }

  // ---------------------------------------------------------------------------
  // Termination helper for searches that grow a visited set inside a finite universe.

  lemma GrowthShrinksRemainder<T>(u: set<T>, a: set<T>, b: set<T>)
    requires a <= b <= u && a != b
    ensures |u - b| < |u - a|
  {
    var x :| x in b && x !in a;
    var small, big := u - b, (u - a) - {x};
    assert small <= big;
    assert big == small + (big - small) && small * (big - small) == {};
    assert |(u - a) - {x}| == |u - a| - 1;
  }
}
