/**
 * Symmetry reduction of the push-space A* solver.  The solver keeps, of the
 * eight dihedral transforms of the board, those that map the wall cells and
 * the goal cells onto themselves, and files every search state under the
 * least of its images ("canonical key").  The transforms kept form a group,
 * so two states related by a kept transform get the same key.
 */
module Symmetry {
  import opened Walks
  import opened Rules

  /** The transforms in the order the solver tries them. */
  datatype Transform = Identity | FlipX | FlipY | Rot180 | Rot90 | Rot270 | Diag | Anti

  /** The four transforms offered only on a square board. */
  predicate IsSquare(t: Transform) {
    t.Rot90? || t.Rot270? || t.Diag? || t.Anti?
  }

  /** The image of cell `p` under `t` on a board `w` cells wide and `h` tall (the square ones use `w`). */
  function Apply(t: Transform, w: int, h: int, p: Pos): Pos {
    match t
    case Identity => p
    case FlipX => Pos(w - 1 - p.x, p.y)
    case FlipY => Pos(p.x, h - 1 - p.y)
    case Rot180 => Pos(w - 1 - p.x, h - 1 - p.y)
    case Rot90 => Pos(w - 1 - p.y, p.x)
    case Rot270 => Pos(p.y, w - 1 - p.x)
    case Diag => Pos(p.y, p.x)
    case Anti => Pos(w - 1 - p.y, w - 1 - p.x)
  }

  const RectTransforms: seq<Transform> := [Identity, FlipX, FlipY, Rot180]
  const SquareTransforms: seq<Transform> := [Rot90, Rot270, Diag, Anti]

  /** The transforms tried: the four of a rectangle, and the other four when the board is square and non-empty. */
  function Candidates(w: int, h: int): (r: seq<Transform>)
    ensures |r| > 0 && r[0] == Identity
    ensures forall t :: t in r <==> !IsSquare(t) || (w == h && w > 0)
  {
    TransformLists();
    if w == h && w > 0 then RectTransforms + SquareTransforms else RectTransforms
  }

  /** The two lists split the eight transforms by `IsSquare`. */
  lemma TransformLists()
    ensures forall t :: t in RectTransforms <==> !IsSquare(t)
    ensures forall t :: t in SquareTransforms <==> IsSquare(t)
  {
    forall t
      ensures t in RectTransforms <==> !IsSquare(t)
      ensures t in SquareTransforms <==> IsSquare(t)
    {
      match t
      case Identity => assert RectTransforms[0] == t;
      case FlipX => assert RectTransforms[1] == t;
      case FlipY => assert RectTransforms[2] == t;
      case Rot180 => assert RectTransforms[3] == t;
      case Rot90 => assert SquareTransforms[0] == t;
      case Rot270 => assert SquareTransforms[1] == t;
      case Diag => assert SquareTransforms[2] == t;
      case Anti => assert SquareTransforms[3] == t;
    }
  }

  function Index(t: Transform): (i: nat)
    ensures i < 8
  {
    match t
    case Identity => 0
    case FlipX => 1
    case FlipY => 2
    case Rot180 => 3
    case Rot90 => 4
    case Rot270 => 5
    case Diag => 6
    case Anti => 7
  }

  /** `Compose(t, s)`: first `s`, then `t`. */
  function Compose(t: Transform, s: Transform): Transform {
    var row := match t
      case Identity => [Identity, FlipX, FlipY, Rot180, Rot90, Rot270, Diag, Anti]
      case FlipX => [FlipX, Identity, Rot180, FlipY, Diag, Anti, Rot90, Rot270]
      case FlipY => [FlipY, Rot180, Identity, FlipX, Anti, Diag, Rot270, Rot90]
      case Rot180 => [Rot180, FlipY, FlipX, Identity, Rot270, Rot90, Anti, Diag]
      case Rot90 => [Rot90, Anti, Diag, Rot270, Rot180, Identity, FlipX, FlipY]
      case Rot270 => [Rot270, Diag, Anti, Rot90, Identity, Rot180, FlipY, FlipX]
      case Diag => [Diag, Rot270, Rot90, Anti, FlipY, FlipX, Identity, Rot180]
      case Anti => [Anti, Rot90, Rot270, Diag, FlipX, FlipY, Rot180, Identity];
    row[Index(s)]
  }

  function Inverse(t: Transform): Transform {
    match t
    case Rot90 => Rot270
    case Rot270 => Rot90
    case _ => t
  }

  /** The composition table agrees with applying one transform after the other. */
  lemma ApplyCompose(t: Transform, s: Transform, w: int, h: int, p: Pos)
    requires (IsSquare(t) || IsSquare(s)) ==> w == h
    ensures Apply(Compose(t, s), w, h, p) == Apply(t, w, h, Apply(s, w, h, p))
    ensures !IsSquare(t) && !IsSquare(s) ==> !IsSquare(Compose(t, s))
  {
  }

  /** `Inverse(t)` undoes `t`. */
  lemma ApplyInverse(t: Transform, w: int, h: int, p: Pos)
    requires IsSquare(t) ==> w == h
    ensures Apply(Inverse(t), w, h, Apply(t, w, h, p)) == p
    ensures Apply(t, w, h, Apply(Inverse(t), w, h, p)) == p
    ensures IsSquare(Inverse(t)) == IsSquare(t)
  {
  }

  /** `{tf(p) for p in cells}` */
  function Image(t: Transform, w: int, h: int, cells: set<Pos>): set<Pos> {
    set p | p in cells :: Apply(t, w, h, p)
  }

  lemma ImageCompose(t: Transform, s: Transform, w: int, h: int, cells: set<Pos>)
    requires (IsSquare(t) || IsSquare(s)) ==> w == h
    ensures Image(Compose(t, s), w, h, cells) == Image(t, w, h, Image(s, w, h, cells))
  {
    forall p | p in cells
      ensures Apply(Compose(t, s), w, h, p) == Apply(t, w, h, Apply(s, w, h, p))
    {
      ApplyCompose(t, s, w, h, p);
    }
  }

  lemma ImageInverse(t: Transform, w: int, h: int, cells: set<Pos>)
    requires IsSquare(t) ==> w == h
    ensures Image(Inverse(t), w, h, Image(t, w, h, cells)) == cells
  {
    forall p | p in cells
      ensures Apply(Inverse(t), w, h, Apply(t, w, h, p)) == p
    {
      ApplyInverse(t, w, h, p);
    }
    var back := Image(Inverse(t), w, h, Image(t, w, h, cells));
    forall q | q in back
      ensures q in cells
    {
      var p :| p in cells && q == Apply(Inverse(t), w, h, Apply(t, w, h, p));
    }
    forall p | p in cells
      ensures p in back
    {
      assert Apply(t, w, h, p) in Image(t, w, h, cells);
    }
  }

  // ---------------------------------------------------------------------------
  // Which transforms are symmetries of the level.

  /** `max(len(r) for r in grid)`, 0 for an empty grid. */
  function Width(grid: seq<string>): (w: nat)
    ensures forall y :: 0 <= y < |grid| ==> |grid[y]| <= w
    ensures grid == [] ==> w == 0
    ensures grid != [] ==> exists y :: 0 <= y < |grid| && |grid[y]| == w
  {
    if grid == [] then 0
    else
      var rest := Width(grid[1..]);
      if |grid[0]| >= rest then |grid[0]| else rest
  }

  /** The wall cells of the `w` by `h` box the symmetries are checked on. */
  function WallCells(grid: seq<string>, w: int, h: int): (walls: set<Pos>)
    ensures forall p {:trigger p in walls} :: p in walls <==> 0 <= p.x < w && 0 <= p.y < h && IsWall(grid, p)
  {
    set y, x | 0 <= y < h && 0 <= x < w && IsWall(grid, Pos(x, y)) :: Pos(x, y)
  }

  /** The nested loop that collects the wall cells row by row. */
  method CollectWalls(grid: seq<string>, w: int, h: int) returns (walls: set<Pos>)
    ensures walls == WallCells(grid, w, h)
  {
    walls := {};
    var y := 0;
    while y < h
      invariant y == 0 || y <= h
      invariant forall p {:trigger p in walls} :: p in walls <==> 0 <= p.x < w && 0 <= p.y < y && IsWall(grid, p)
    {
      var x := 0;
      while x < w
        invariant x == 0 || x <= w
        invariant forall p {:trigger p in walls} :: p in walls <==>
          0 <= p.x < w && 0 <= p.y && IsWall(grid, p) && (p.y < y || (p.y == y && p.x < x))
      {
        if IsWall(grid, Pos(x, y)) {
          walls := walls + {Pos(x, y)};
        }
        x := x + 1;
      }
      y := y + 1;
    }
    assert forall p :: p in walls <==> p in WallCells(grid, w, h);
  }

  predicate Keeps(t: Transform, w: int, h: int, walls: set<Pos>, goals: set<Pos>) {
    Image(t, w, h, walls) == walls && Image(t, w, h, goals) == goals
  }

  /** The transforms of `ts` that keep walls and goals, in their order. */
  function Preserving(ts: seq<Transform>, w: int, h: int, walls: set<Pos>, goals: set<Pos>): seq<Transform> {
    if ts == [] then []
    else
      var t := ts[|ts| - 1];
      Preserving(ts[..|ts| - 1], w, h, walls, goals) + if Keeps(t, w, h, walls, goals) then [t] else []
  }

  /** `sym_fns` */
  function SymmetryFns(w: int, h: int, walls: set<Pos>, goals: set<Pos>): seq<Transform> {
    Preserving(Candidates(w, h), w, h, walls, goals)
  }

  lemma {:induction false} PreservingMembers(ts: seq<Transform>, w: int, h: int, walls: set<Pos>, goals: set<Pos>)
    ensures forall t :: t in Preserving(ts, w, h, walls, goals) <==> t in ts && Keeps(t, w, h, walls, goals)
  {
    if ts != [] {
      PreservingMembers(ts[..|ts| - 1], w, h, walls, goals);
      assert ts == ts[..|ts| - 1] + [ts[|ts| - 1]];
    }
  }

  lemma SymmetryMembers(w: int, h: int, walls: set<Pos>, goals: set<Pos>)
    ensures forall t :: t in SymmetryFns(w, h, walls, goals) <==>
      (!IsSquare(t) || (w == h && w > 0)) && Keeps(t, w, h, walls, goals)
  {
    PreservingMembers(Candidates(w, h), w, h, walls, goals);
  }

  /** The identity is always kept, so `sym_fns` is never empty. */
  lemma IdentityIsSymmetry(w: int, h: int, walls: set<Pos>, goals: set<Pos>)
    ensures Identity in SymmetryFns(w, h, walls, goals)
  {
    SymmetryMembers(w, h, walls, goals);
    assert Image(Identity, w, h, walls) == walls;
    assert Image(Identity, w, h, goals) == goals;
  }

  /** The kept transforms are closed under composition. */
  lemma ComposeIsSymmetry(t: Transform, s: Transform, w: int, h: int, walls: set<Pos>, goals: set<Pos>)
    requires t in SymmetryFns(w, h, walls, goals) && s in SymmetryFns(w, h, walls, goals)
    ensures Compose(t, s) in SymmetryFns(w, h, walls, goals)
  {
    SymmetryMembers(w, h, walls, goals);
    ImageCompose(t, s, w, h, walls);
    ImageCompose(t, s, w, h, goals);
    ApplyCompose(t, s, w, h, Pos(0, 0));
  }

  /** The kept transforms are closed under inverses. */
  lemma InverseIsSymmetry(t: Transform, w: int, h: int, walls: set<Pos>, goals: set<Pos>)
    requires t in SymmetryFns(w, h, walls, goals)
    ensures Inverse(t) in SymmetryFns(w, h, walls, goals)
  {
    SymmetryMembers(w, h, walls, goals);
    ImageInverse(t, w, h, walls);
    ImageInverse(t, w, h, goals);
    ApplyInverse(t, w, h, Pos(0, 0));
  }

  /** The filtering loop over the candidate transforms. */
  method FilterSymmetries(ts: seq<Transform>, w: int, h: int, walls: set<Pos>, goals: set<Pos>) returns (fns: seq<Transform>)
    ensures fns == Preserving(ts, w, h, walls, goals)
  {
    fns := [];
    var i := 0;
    while i < |ts|
      invariant i <= |ts|
      invariant fns == Preserving(ts[..i], w, h, walls, goals)
    {
      var tf := ts[i];
      if Image(tf, w, h, walls) == walls && Image(tf, w, h, goals) == goals {
        fns := fns + [tf];
      }
      assert ts[..i + 1][..i] == ts[..i];
      i := i + 1;
    }
    assert ts[..i] == ts;
  }

  /** Width, wall cells, candidates and filter, as the solver prepares them. */
  method DetectSymmetries(grid: seq<string>, goals: set<Pos>) returns (w: nat, fns: seq<Transform>)
    ensures w == Width(grid)
    ensures fns == SymmetryFns(w, |grid|, WallCells(grid, w, |grid|), goals)
  {
    w := Width(grid);
    var walls := CollectWalls(grid, w, |grid|);
    fns := FilterSymmetries(Candidates(w, |grid|), w, |grid|, walls, goals);
  }

  // ---------------------------------------------------------------------------
  // Canonical keys.

  /** A search state's key: the player cell and the sorted box cells. */
  datatype Key = Key(player: Pos, boxes: seq<Pos>)

  /** Python's order on tuples of cells: the first difference decides, a proper prefix is smaller. */
  predicate SeqLess(a: seq<Pos>, b: seq<Pos>) {
    if a == [] then b != []
    else b != [] && (LexLess(a[0], b[0]) || (a[0] == b[0] && SeqLess(a[1..], b[1..])))
  }

  predicate KeyLess(k: Key, l: Key) {
    LexLess(k.player, l.player) || (k.player == l.player && SeqLess(k.boxes, l.boxes))
  }

  predicate KeyLe(k: Key, l: Key) {
    k == l || KeyLess(k, l)
  }

  lemma {:induction false} SeqLessIrreflexive(a: seq<Pos>)
    ensures !SeqLess(a, a)
  {
    if a != [] {
      SeqLessIrreflexive(a[1..]);
    }
  }

  lemma {:induction false} SeqLessTransitive(a: seq<Pos>, b: seq<Pos>, c: seq<Pos>)
    requires SeqLess(a, b) && SeqLess(b, c)
    ensures SeqLess(a, c)
  {
    if a != [] && a[0] == b[0] && b[0] == c[0] {
      SeqLessTransitive(a[1..], b[1..], c[1..]);
    }
  }

  lemma {:induction false} SeqLessTotal(a: seq<Pos>, b: seq<Pos>)
    ensures a == b || SeqLess(a, b) || SeqLess(b, a)
  {
    if a != [] && b != [] && a[0] == b[0] {
      SeqLessTotal(a[1..], b[1..]);
      assert a == [a[0]] + a[1..] && b == [b[0]] + b[1..];
    }
  }

  lemma KeyLessIrreflexive(k: Key)
    ensures !KeyLess(k, k)
  {
    SeqLessIrreflexive(k.boxes);
  }

  lemma KeyLeTransitive(k: Key, l: Key, m: Key)
    requires KeyLe(k, l) && KeyLe(l, m)
    ensures KeyLe(k, m)
    ensures KeyLess(k, l) ==> KeyLess(k, m)
  {
    if KeyLess(k, l) && KeyLess(l, m) && k.player == l.player && l.player == m.player {
      SeqLessTransitive(k.boxes, l.boxes, m.boxes);
    }
  }

  lemma KeyLeTotal(k: Key, l: Key)
    ensures KeyLe(k, l) || KeyLess(l, k)
  {
    SeqLessTotal(k.boxes, l.boxes);
  }

  lemma KeyLeAntisymmetric(k: Key, l: Key)
    requires KeyLe(k, l) && KeyLe(l, k)
    ensures k == l
  {
    if k != l {
      KeyLeTransitive(k, l, k);
      KeyLessIrreflexive(k);
    }
  }

  /** `k` is `(tf(player), tuple(sorted(tf(b) for b in boxes)))` for `tf == t`. */
  predicate IsKeyOf(k: Key, t: Transform, w: int, h: int, player: Pos, boxes: set<Pos>) {
    k.player == Apply(t, w, h, player) && StrictlySorted(k.boxes) && BoxSet(k.boxes) == Image(t, w, h, boxes)
  }

  /** `k` is the key under one of `fns`, and no key under any of `fns` is smaller. */
  ghost predicate IsLeastKey(k: Key, fns: seq<Transform>, w: int, h: int, player: Pos, boxes: set<Pos>) {
    && (exists t :: t in fns && IsKeyOf(k, t, w, h, player, boxes))
    && forall t, l :: t in fns && IsKeyOf(l, t, w, h, player, boxes) ==> KeyLe(k, l)
  }

  /** A set of cells has one strictly increasing listing. */
  lemma {:induction false} SortedUnique(a: seq<Pos>, b: seq<Pos>)
    requires StrictlySorted(a) && StrictlySorted(b) && BoxSet(a) == BoxSet(b)
    ensures a == b
  {
    if a == [] {
      assert forall k :: 0 <= k < |b| ==> b[k] in BoxSet(b);
    } else {
      assert a[0] in BoxSet(b) && b != [];
      var a0, b0 := a[0], b[0];
      assert b0 in BoxSet(a);
      var i :| 0 <= i < |a| && a[i] == b0;
      var j :| 0 <= j < |b| && b[j] == a0;
      assert i > 0 ==> LexLess(a0, b0);
      assert j > 0 ==> LexLess(b0, a0);
      assert a0 == b0;
      assert BoxSet(a[1..]) == BoxSet(a) - {a[0]} by {
        assert a == [a[0]] + a[1..];
      }
      assert BoxSet(b[1..]) == BoxSet(b) - {b[0]} by {
        assert b == [b[0]] + b[1..];
      }
      SortedUnique(a[1..], b[1..]);
      assert a == [a[0]] + a[1..] && b == [b[0]] + b[1..];
    }
  }

  /** Two states have at most one least key. */
  lemma LeastKeyUnique(k: Key, l: Key, fns: seq<Transform>, w: int, h: int, player: Pos, boxes: set<Pos>)
    requires IsLeastKey(k, fns, w, h, player, boxes) && IsLeastKey(l, fns, w, h, player, boxes)
    ensures k == l
  {
    var t :| t in fns && IsKeyOf(k, t, w, h, player, boxes);
    var s :| s in fns && IsKeyOf(l, s, w, h, player, boxes);
    KeyLeAntisymmetric(k, l);
  }

  /** The key under a single transform is the least among its own keys. */
  lemma LeastKeyFirst(k: Key, t: Transform, w: int, h: int, player: Pos, boxes: set<Pos>)
    requires IsKeyOf(k, t, w, h, player, boxes)
    ensures IsLeastKey(k, [t], w, h, player, boxes)
  {
    forall u, l | u in [t] && IsKeyOf(l, u, w, h, player, boxes)
      ensures KeyLe(k, l)
    {
      SortedUnique(l.boxes, k.boxes);
    }
  }

  /** One more transform: its key replaces the best so far exactly when it is smaller. */
  lemma LeastKeyStep(k: Key, ts: seq<Transform>, t: Transform, key: Key, w: int, h: int, player: Pos, boxes: set<Pos>)
    requires IsLeastKey(k, ts, w, h, player, boxes) && IsKeyOf(key, t, w, h, player, boxes)
    ensures IsLeastKey(if KeyLess(key, k) then key else k, ts + [t], w, h, player, boxes)
  {
    var next := if KeyLess(key, k) then key else k;
    var u0 :| u0 in ts && IsKeyOf(k, u0, w, h, player, boxes);
    assert u0 in ts + [t] && t in ts + [t];
    KeyLeTotal(k, key);
    forall u, l | u in ts + [t] && IsKeyOf(l, u, w, h, player, boxes)
      ensures KeyLe(next, l)
    {
      if u == t {
        SortedUnique(l.boxes, key.boxes);
      } else if KeyLess(key, k) {
        KeyLeTransitive(key, k, l);
      }
    }
  }

  /** `canon_key`: with at most one symmetry the state's own key, otherwise the least of its images. */
  method CanonKey(fns: seq<Transform>, w: int, h: int, player: Pos, boxes: seq<Pos>) returns (k: Key)
    ensures |fns| <= 1 ==> k == Key(player, boxes)
    ensures |fns| > 1 ==> IsLeastKey(k, fns, w, h, player, BoxSet(boxes))
  {
    if |fns| <= 1 {
      return Key(player, boxes);
    }
    var cells := BoxSet(boxes);
    var b0 := SortCells(Image(fns[0], w, h, cells));
    k := Key(Apply(fns[0], w, h, player), b0);
    LeastKeyFirst(k, fns[0], w, h, player, cells);
    assert fns[..1] == [fns[0]];
    var i := 1;
    while i < |fns|
      invariant 1 <= i <= |fns|
      invariant IsLeastKey(k, fns[..i], w, h, player, cells)
    {
      var tf := fns[i];
      var b2 := SortCells(Image(tf, w, h, cells));
      var key := Key(Apply(tf, w, h, player), b2);
      LeastKeyStep(k, fns[..i], tf, key, w, h, player, cells);
      if KeyLess(key, k) {
        k := key;
      }
      assert fns[..i + 1] == fns[..i] + [tf];
      i := i + 1;
    }
    assert fns[..i] == fns;
  }

  /** The images under `t` of a state moved by `s` are its images under `t` after `s`. */
  lemma KeyOfMoved(k: Key, t: Transform, s: Transform, w: int, h: int, player: Pos, boxes: set<Pos>)
    requires (IsSquare(t) || IsSquare(s)) ==> w == h
    ensures IsKeyOf(k, t, w, h, Apply(s, w, h, player), Image(s, w, h, boxes)) <==> IsKeyOf(k, Compose(t, s), w, h, player, boxes)
  {
    ApplyCompose(t, s, w, h, player);
    ImageCompose(t, s, w, h, boxes);
  }

  /**
   * The point of the reduction: a state and its image under any kept
   * symmetry have the same least key, so the search visits only one of them.
   */
  lemma CanonKeyInvariant(k: Key, s: Transform, w: int, h: int, walls: set<Pos>, goals: set<Pos>, player: Pos, boxes: set<Pos>)
    requires s in SymmetryFns(w, h, walls, goals)
    requires IsLeastKey(k, SymmetryFns(w, h, walls, goals), w, h, player, boxes)
    ensures IsLeastKey(k, SymmetryFns(w, h, walls, goals), w, h, Apply(s, w, h, player), Image(s, w, h, boxes))
  {
    var fns := SymmetryFns(w, h, walls, goals);
    var player', boxes' := Apply(s, w, h, player), Image(s, w, h, boxes);
    SymmetryMembers(w, h, walls, goals);
    var t0 :| t0 in fns && IsKeyOf(k, t0, w, h, player, boxes);
    var inv := Inverse(s);
    InverseIsSymmetry(s, w, h, walls, goals);
    var t := Compose(t0, inv);
    ComposeIsSymmetry(t0, inv, w, h, walls, goals);
    ComposeIsSymmetry(t, s, w, h, walls, goals);
    // `t` after `s` acts as `t0`.
    ApplyCompose(t, s, w, h, player);
    ApplyCompose(t0, inv, w, h, Apply(s, w, h, player));
    ApplyInverse(s, w, h, player);
    ImageCompose(t, s, w, h, boxes);
    ImageCompose(t0, inv, w, h, boxes');
    ImageInverse(s, w, h, boxes);
    KeyOfMoved(k, t, s, w, h, player, boxes);
    assert IsKeyOf(k, t, w, h, player', boxes');
    forall u, l | u in fns && IsKeyOf(l, u, w, h, player', boxes')
      ensures KeyLe(k, l)
    {
      KeyOfMoved(l, u, s, w, h, player, boxes);
      ComposeIsSymmetry(u, s, w, h, walls, goals);
    }
  }

  /** With the identity as the only symmetry, the shortcut key of a sorted state is the least key. */
  lemma ShortcutIsLeast(w: int, h: int, walls: set<Pos>, goals: set<Pos>, player: Pos, boxes: seq<Pos>)
    requires |SymmetryFns(w, h, walls, goals)| <= 1 && StrictlySorted(boxes)
    ensures IsLeastKey(Key(player, boxes), SymmetryFns(w, h, walls, goals), w, h, player, BoxSet(boxes))
  {
    var fns := SymmetryFns(w, h, walls, goals);
    IdentityIsSymmetry(w, h, walls, goals);
    assert fns == [Identity];
    var k := Key(player, boxes);
    assert Image(Identity, w, h, BoxSet(boxes)) == BoxSet(boxes);
    assert IsKeyOf(k, Identity, w, h, player, BoxSet(boxes));
    forall t, l | t in fns && IsKeyOf(l, t, w, h, player, BoxSet(boxes))
      ensures KeyLe(k, l)
    {
      SortedUnique(l.boxes, boxes);
    }
  }
}
