/**
 * The grid preparation both level verifiers share
 * (backend/verify_official_levels.py and backend/verify_first30_clingo.py):
 * pad the grid lines to a rectangle with spaces, then mark as void every
 * space connected through spaces to a space on the border of the rectangle.
 * The two scripts differ only in the order their worklist is popped (a queue
 * in one, a stack in the other); `FillVoid` takes that order as a parameter
 * and computes the same void set either way.
 */
module VoidFill {
  import opened Walks

  // ---------------------------------------------------------------------------
  // Padding

  /** `max((len(r) for r in lines), default=0)`. */
  function Width(lines: seq<string>): (w: nat)
    ensures forall y :: 0 <= y < |lines| ==> |lines[y]| <= w
    ensures lines == [] ==> w == 0
    ensures lines != [] ==> exists y :: 0 <= y < |lines| && |lines[y]| == w
  {
    if lines == [] then 0
    else
      var w0 := Width(lines[..|lines| - 1]);
      var last := |lines[|lines| - 1]|;
      assert forall y :: 0 <= y < |lines| - 1 ==> lines[..|lines| - 1][y] == lines[y];
      if last > w0 then last else w0
  }

  /** `[" "] * n`. */
  function Spaces(n: nat): (r: string)
    ensures |r| == n && forall k :: 0 <= k < n ==> r[k] == ' '
  {
    if n == 0 then "" else Spaces(n - 1) + " "
  }

  /** One padded row: `list(line) + [" "] * (width - len(line))`. */
  function Pad(line: string, width: nat): string
    requires |line| <= width
  {
    line + Spaces(width - |line|)
  }

  /** The padded grid: every line padded to the width of the longest. */
  function Padded(lines: seq<string>): (raw: seq<string>)
    ensures IsRect(raw, Width(lines), |lines|)
  {
    seq(|lines|, y requires 0 <= y < |lines| => Pad(lines[y], Width(lines)))
  }

  /** `raw` is a `w` by `h` rectangle of characters. */
  predicate IsRect(raw: seq<string>, w: int, h: int) {
    |raw| == h && forall y :: 0 <= y < h ==> |raw[y]| == w
  }

  /**
   * The padded grid is a rectangle as wide as the longest line, as high as
   * there are lines; each row starts with its line and is filled up with spaces.
   */
  lemma PaddedShape(lines: seq<string>)
    ensures IsRect(Padded(lines), Width(lines), |lines|)
    ensures forall y, x :: 0 <= y < |lines| && 0 <= x < |lines[y]| ==> Padded(lines)[y][x] == lines[y][x]
    ensures forall y, x :: 0 <= y < |lines| && |lines[y]| <= x < Width(lines) ==> Padded(lines)[y][x] == ' '
  {
    var raw, w := Padded(lines), Width(lines);
    forall y, x | 0 <= y < |lines| && |lines[y]| <= x < w
      ensures raw[y][x] == ' '
    {
      assert raw[y] == lines[y] + Spaces(w - |lines[y]|);
      assert raw[y][x] == Spaces(w - |lines[y]|)[x - |lines[y]|];
    }
  }

  /** The padding loop of both scripts. */
  method PadRows(lines: seq<string>) returns (raw: seq<string>)
    ensures raw == Padded(lines)
  {
    var width := 0;
    var i := 0;
    while i < |lines|
      invariant 0 <= i <= |lines|
      invariant width == Width(lines[..i])
    {
      assert lines[..i + 1][..i] == lines[..i];
      if |lines[i]| > width {
        width := |lines[i]|;
      }
      i := i + 1;
    }
    assert lines[..|lines|] == lines;
    raw := [];
    var y := 0;
    while y < |lines|
      invariant 0 <= y <= |lines|
      invariant raw == Padded(lines)[..y]
    {
      raw := raw + [lines[y] + Spaces(width - |lines[y]|)];
      y := y + 1;
    }
  }

  // ---------------------------------------------------------------------------
  // The void set

  predicate InBox(p: Pos, w: int, h: int) {
    0 <= p.x < w && 0 <= p.y < h
  }

  predicate OnBorder(p: Pos, w: int, h: int) {
    p.x == 0 || p.x == w - 1 || p.y == 0 || p.y == h - 1
  }

  /** The spaces of the rectangle. */
  function Blanks(raw: seq<string>, w: nat, h: nat): set<Pos>
    requires IsRect(raw, w, h)
  {
    set x: int, y: int | 0 <= x < w && 0 <= y < h && raw[y][x] == ' ' :: Pos(x, y)
  }

  lemma BlanksMember(raw: seq<string>, w: nat, h: nat, p: Pos)
    requires IsRect(raw, w, h)
    ensures p in Blanks(raw, w, h) <==> InBox(p, w, h) && raw[p.y][p.x] == ' '
  {
    if InBox(p, w, h) && raw[p.y][p.x] == ' ' {
      assert Pos(p.x, p.y) in Blanks(raw, w, h);
    }
  }

  /** A void cell: a space joined through spaces to a space on the border. */
  ghost predicate IsVoid(raw: seq<string>, w: nat, h: nat, p: Pos)
    requires IsRect(raw, w, h)
  {
    exists b :: b in Blanks(raw, w, h) && OnBorder(b, w, h) && Reachable(Blanks(raw, w, h), b, p)
  }

  /** Only spaces are void. */
  lemma VoidIsBlank(raw: seq<string>, w: nat, h: nat, p: Pos)
    requires IsRect(raw, w, h) && IsVoid(raw, w, h, p)
    ensures InBox(p, w, h) && raw[p.y][p.x] == ' '
  {
    var blanks := Blanks(raw, w, h);
    var b :| b in blanks && OnBorder(b, w, h) && Reachable(blanks, b, p);
    var ds :| ValidWalk(blanks, b, ds) && End(b, ds) == p;
    ClosedContainsWalk(blanks, blanks, b, ds);
    BlanksMember(raw, w, h, p);
  }

  lemma VoidStep(raw: seq<string>, w: nat, h: nat, p: Pos, d: Dir)
    requires IsRect(raw, w, h) && IsVoid(raw, w, h, p) && Step(p, d) in Blanks(raw, w, h)
    ensures IsVoid(raw, w, h, Step(p, d))
  {
    var blanks := Blanks(raw, w, h);
    var b :| b in blanks && OnBorder(b, w, h) && Reachable(blanks, b, p);
    ReachableStep(blanks, b, p, d);
  }

  lemma VoidSeed(raw: seq<string>, w: nat, h: nat, b: Pos)
    requires IsRect(raw, w, h) && b in Blanks(raw, w, h) && OnBorder(b, w, h)
    ensures IsVoid(raw, w, h, b)
  {
    ReachableSelf(Blanks(raw, w, h), b);
  }

  /** The void cells, as a set. */
  ghost function Voids(raw: seq<string>, w: nat, h: nat): set<Pos>
    requires IsRect(raw, w, h)
  {
    set p | p in Blanks(raw, w, h) && IsVoid(raw, w, h, p)
  }

  /** A cell is in the void set exactly when it is void. */
  lemma VoidsMember(raw: seq<string>, w: nat, h: nat, p: Pos)
    requires IsRect(raw, w, h)
    ensures p in Voids(raw, w, h) <==> IsVoid(raw, w, h, p)
  {
    if IsVoid(raw, w, h, p) {
      VoidIsBlank(raw, w, h, p);
      BlanksMember(raw, w, h, p);
    }
  }

  /**
   * What the fill relies on about a set of cells: it holds only spaces, it
   * holds every space on the border, and it is closed under steps into spaces.
   */
  ghost predicate Spreads(raw: seq<string>, w: nat, h: nat, voids: set<Pos>)
    requires IsRect(raw, w, h)
  {
    && voids <= Blanks(raw, w, h)
    && (forall b :: b in Blanks(raw, w, h) && OnBorder(b, w, h) ==> b in voids)
    && Closed(Blanks(raw, w, h), voids)
  }

  lemma VoidsSpread(raw: seq<string>, w: nat, h: nat)
    requires IsRect(raw, w, h)
    ensures Spreads(raw, w, h, Voids(raw, w, h))
  {
    var blanks, voids := Blanks(raw, w, h), Voids(raw, w, h);
    forall b | b in blanks && OnBorder(b, w, h)
      ensures b in voids
    {
      VoidSeed(raw, w, h, b);
    }
    forall p, d | p in voids && Step(p, d) in blanks
      ensures Step(p, d) in voids
    {
      VoidStep(raw, w, h, p, d);
    }
  }

  /** The `is_void` matrix holds exactly the cells of `marked`. */
  ghost predicate Mirrors(isVoid: array2<bool>, w: int, h: int, marked: set<Pos>)
    reads isVoid
  {
    && isVoid.Length0 == h && isVoid.Length1 == w
    && (forall y, x :: 0 <= y < h && 0 <= x < w ==> (isVoid[y, x] <==> Pos(x, y) in marked))
  }

  /**
   * The fill so far: every marked cell is in `voids`, every queued cell is
   * marked, and every marked cell that is neither queued nor `pending` has
   * its space neighbours marked.
   */
  ghost predicate FillOk(raw: seq<string>, w: nat, h: nat, voids: set<Pos>, marked: set<Pos>, q: seq<Pos>, pending: set<Pos>) {
    && IsRect(raw, w, h)
    && marked <= voids
    && (forall k :: 0 <= k < |q| ==> q[k] in marked)
    && forall p, d :: p in marked && p !in q && p !in pending && Step(p, d) in Blanks(raw, w, h) ==> Step(p, d) in marked
  }

  /**
   * `enqueue(x, y)`: a space inside the rectangle that is not yet void is
   * marked and queued; anything else is left alone.
   */
  method Enqueue(raw: seq<string>, w: nat, h: nat, isVoid: array2<bool>, q: seq<Pos>, ghost marked: set<Pos>, x: int, y: int)
    returns (q': seq<Pos>, ghost marked': set<Pos>)
    modifies isVoid
    requires IsRect(raw, w, h) && Mirrors(isVoid, w, h, marked)
    ensures Mirrors(isVoid, w, h, marked')
    ensures marked' == if InBox(Pos(x, y), w, h) && raw[y][x] == ' ' then marked + {Pos(x, y)} else marked
    ensures q' == if InBox(Pos(x, y), w, h) && raw[y][x] == ' ' && Pos(x, y) !in marked then q + [Pos(x, y)] else q
  {
    q', marked' := q, marked;
    if x < 0 || x >= w || y < 0 || y >= h {
      return;
    }
    if isVoid[y, x] {
      return;
    }
    if raw[y][x] != ' ' {
      return;
    }
    isVoid[y, x] := true;
    marked' := marked + {Pos(x, y)};
    q' := q + [Pos(x, y)];
  }

  /** Enqueueing a cell keeps the fill sound when the cell, if a space, is in `voids`. */
  lemma EnqueueKeeps(raw: seq<string>, w: nat, h: nat, voids: set<Pos>, marked: set<Pos>, q: seq<Pos>, pending: set<Pos>,
                     marked': set<Pos>, q': seq<Pos>, p: Pos)
    requires FillOk(raw, w, h, voids, marked, q, pending)
    requires p in Blanks(raw, w, h) ==> p in voids
    requires marked' == if InBox(p, w, h) && raw[p.y][p.x] == ' ' then marked + {p} else marked
    requires q' == if InBox(p, w, h) && raw[p.y][p.x] == ' ' && p !in marked then q + [p] else q
    ensures FillOk(raw, w, h, voids, marked', q', pending)
    ensures marked <= marked' && (p in Blanks(raw, w, h) ==> p in marked')
  {
    BlanksMember(raw, w, h, p);
    forall k | 0 <= k < |q'|
      ensures q'[k] in marked'
    {
      if k < |q| {
        assert q'[k] == q[k];
      }
    }
  }

  /** One `enqueue` of the neighbour of `cur` in direction `d`. */
  method EnqueueNeighbour(raw: seq<string>, w: nat, h: nat, isVoid: array2<bool>, q: seq<Pos>, ghost marked: set<Pos>,
                          ghost voids: set<Pos>, ghost pending: set<Pos>, cur: Pos, d: Dir)
    returns (q': seq<Pos>, ghost marked': set<Pos>)
    modifies isVoid
    requires Mirrors(isVoid, w, h, marked) && FillOk(raw, w, h, voids, marked, q, pending)
    requires Step(cur, d) in Blanks(raw, w, h) ==> Step(cur, d) in voids
    ensures Mirrors(isVoid, w, h, marked') && FillOk(raw, w, h, voids, marked', q', pending)
    ensures marked <= marked' && (Step(cur, d) in Blanks(raw, w, h) ==> Step(cur, d) in marked')
    ensures marked' == marked ==> q' == q
  {
    var n := Step(cur, d);
    q', marked' := Enqueue(raw, w, h, isVoid, q, marked, n.x, n.y);
    EnqueueKeeps(raw, w, h, voids, marked, q, pending, marked', q', n);
  }

  /** The four `enqueue` calls for the neighbours of a popped cell. */
  method Neighbours(raw: seq<string>, w: nat, h: nat, isVoid: array2<bool>, q: seq<Pos>, ghost marked: set<Pos>,
                    ghost voids: set<Pos>, cur: Pos)
    returns (q': seq<Pos>, ghost marked': set<Pos>)
    modifies isVoid
    requires Mirrors(isVoid, w, h, marked) && FillOk(raw, w, h, voids, marked, q, {cur})
    requires forall d :: Step(cur, d) in Blanks(raw, w, h) ==> Step(cur, d) in voids
    ensures Mirrors(isVoid, w, h, marked') && FillOk(raw, w, h, voids, marked', q', {})
    ensures marked <= marked' && (marked' == marked ==> q' == q)
  {
    q', marked' := EnqueueNeighbour(raw, w, h, isVoid, q, marked, voids, {cur}, cur, Left);
    q', marked' := EnqueueNeighbour(raw, w, h, isVoid, q', marked', voids, {cur}, cur, Right);
    q', marked' := EnqueueNeighbour(raw, w, h, isVoid, q', marked', voids, {cur}, cur, Up);
    q', marked' := EnqueueNeighbour(raw, w, h, isVoid, q', marked', voids, {cur}, cur, Down);
    NeighboursClose(raw, w, h, voids, marked', q', cur);
  }

  /** Once the four neighbours of `cur` are marked, `cur` no longer needs to be pending. */
  lemma NeighboursClose(raw: seq<string>, w: nat, h: nat, voids: set<Pos>, marked: set<Pos>, q: seq<Pos>, cur: Pos)
    requires FillOk(raw, w, h, voids, marked, q, {cur})
    requires forall d :: d in Dirs && Step(cur, d) in Blanks(raw, w, h) ==> Step(cur, d) in marked
    ensures FillOk(raw, w, h, voids, marked, q, {})
  {
    forall p, d | p in marked && p !in q && Step(p, d) in Blanks(raw, w, h)
      ensures Step(p, d) in marked
    {
      if p == cur {
        assert d in Dirs;
      }
    }
  }

  /**
   * The fill: seed with the spaces of the top and bottom rows and of the left
   * and right columns, then pop cells (`lifo` chooses `q.pop()` over
   * `q.pop(0)`) and enqueue their neighbours until the worklist is empty.
   * Either way, the matrix ends up holding exactly the void cells.
   */
  method FillVoid(raw: seq<string>, w: nat, h: nat, lifo: bool) returns (isVoid: array2<bool>)
    requires IsRect(raw, w, h)
    ensures fresh(isVoid) && isVoid.Length0 == h && isVoid.Length1 == w
    ensures forall y, x :: 0 <= y < h && 0 <= x < w ==> (isVoid[y, x] <==> IsVoid(raw, w, h, Pos(x, y)))
    ensures forall y, x :: 0 <= y < h && 0 <= x < w ==> (isVoid[y, x] <==> Pos(x, y) in Voids(raw, w, h))
  {
    isVoid := new bool[h, w]((_, _) => false);
    ghost var voids := Voids(raw, w, h);
    VoidsSpread(raw, w, h);
    var q: seq<Pos>;
    ghost var marked: set<Pos>;
    q, marked := SeedBorder(raw, w, h, isVoid, voids);
    marked := Drain(raw, w, h, isVoid, q, marked, voids, lifo);
    FillDone(raw, w, h, isVoid, voids, marked);
  }

  /** The `while q:` loop: pop a cell, enqueue its neighbours. */
  method Drain(raw: seq<string>, w: nat, h: nat, isVoid: array2<bool>, q: seq<Pos>, ghost marked: set<Pos>,
               ghost voids: set<Pos>, lifo: bool)
    returns (ghost marked': set<Pos>)
    modifies isVoid
    requires Mirrors(isVoid, w, h, marked) && FillOk(raw, w, h, voids, marked, q, {})
    requires Closed(Blanks(raw, w, h), voids)
    ensures Mirrors(isVoid, w, h, marked') && FillOk(raw, w, h, voids, marked', [], {})
    ensures marked <= marked'
  {
    var work := q;
    marked' := marked;
    while work != []
      invariant Mirrors(isVoid, w, h, marked') && FillOk(raw, w, h, voids, marked', work, {})
      invariant marked <= marked'
      decreases |voids - marked'|, |work|
    {
      var cur: Pos;
      ghost var work0 := work;
      if lifo {
        cur := work[|work| - 1];
        work := work[..|work| - 1];
        assert work0 == work + [cur];
      } else {
        cur := work[0];
        work := work[1..];
        assert work0 == [cur] + work;
      }
      ghost var marked0 := marked';
      work, marked' := Neighbours(raw, w, h, isVoid, work, marked', voids, cur);
      if marked' != marked0 {
        GrowthShrinksRemainder(voids, marked0, marked');
      }
    }
  }

  /** Seeding enqueues the border cells in the order of both loops of the source. */
  method SeedBorder(raw: seq<string>, w: nat, h: nat, isVoid: array2<bool>, ghost voids: set<Pos>)
    returns (q: seq<Pos>, ghost marked: set<Pos>)
    modifies isVoid
    requires IsRect(raw, w, h) && Mirrors(isVoid, w, h, {})
    requires forall b :: b in Blanks(raw, w, h) && OnBorder(b, w, h) ==> b in voids
    ensures Mirrors(isVoid, w, h, marked) && FillOk(raw, w, h, voids, marked, q, {})
    ensures forall b :: b in Blanks(raw, w, h) && OnBorder(b, w, h) ==> b in marked
  {
    q, marked := [], {};
    var x := 0;
    while x < w
      invariant 0 <= x <= w
      invariant Mirrors(isVoid, w, h, marked) && FillOk(raw, w, h, voids, marked, q, {}) && SeedsQueued(marked, q)
      invariant forall b :: b in Blanks(raw, w, h) && b.x < x && (b.y == 0 || b.y == h - 1) ==> b in marked
    {
      q, marked := SeedCell(raw, w, h, isVoid, q, marked, voids, x, 0);
      q, marked := SeedCell(raw, w, h, isVoid, q, marked, voids, x, h - 1);
      x := x + 1;
    }
    var y := 0;
    while y < h
      invariant 0 <= y <= h
      invariant Mirrors(isVoid, w, h, marked) && FillOk(raw, w, h, voids, marked, q, {}) && SeedsQueued(marked, q)
      invariant forall b :: b in Blanks(raw, w, h) && (b.y == 0 || b.y == h - 1) ==> b in marked
      invariant forall b :: b in Blanks(raw, w, h) && b.y < y && (b.x == 0 || b.x == w - 1) ==> b in marked
    {
      q, marked := SeedCell(raw, w, h, isVoid, q, marked, voids, 0, y);
      q, marked := SeedCell(raw, w, h, isVoid, q, marked, voids, w - 1, y);
      y := y + 1;
    }
  }

  /** While seeding, every marked cell is still queued. */
  ghost predicate SeedsQueued(marked: set<Pos>, q: seq<Pos>) {
    forall p :: p in marked ==> p in q
  }

  /** One `enqueue` of a border cell while seeding. */
  method SeedCell(raw: seq<string>, w: nat, h: nat, isVoid: array2<bool>, q: seq<Pos>, ghost marked: set<Pos>,
                  ghost voids: set<Pos>, x: int, y: int)
    returns (q': seq<Pos>, ghost marked': set<Pos>)
    modifies isVoid
    requires Mirrors(isVoid, w, h, marked) && FillOk(raw, w, h, voids, marked, q, {}) && SeedsQueued(marked, q)
    requires Pos(x, y) in Blanks(raw, w, h) ==> Pos(x, y) in voids
    ensures Mirrors(isVoid, w, h, marked') && FillOk(raw, w, h, voids, marked', q', {}) && SeedsQueued(marked', q')
    ensures marked <= marked' && (Pos(x, y) in Blanks(raw, w, h) ==> Pos(x, y) in marked')
  {
    q', marked' := Enqueue(raw, w, h, isVoid, q, marked, x, y);
    EnqueueKeeps(raw, w, h, voids, marked, q, {}, marked', q', Pos(x, y));
  }

  /** An empty worklist: the marked cells are closed under steps into spaces, so they are all the void cells. */
  lemma FillDone(raw: seq<string>, w: nat, h: nat, isVoid: array2<bool>, voids: set<Pos>, marked: set<Pos>)
    requires IsRect(raw, w, h) && voids == Voids(raw, w, h)
    requires Mirrors(isVoid, w, h, marked) && FillOk(raw, w, h, voids, marked, [], {})
    requires forall b :: b in Blanks(raw, w, h) && OnBorder(b, w, h) ==> b in marked
    ensures forall y, x :: 0 <= y < h && 0 <= x < w ==> (isVoid[y, x] <==> IsVoid(raw, w, h, Pos(x, y)))
    ensures forall y, x :: 0 <= y < h && 0 <= x < w ==> (isVoid[y, x] <==> Pos(x, y) in voids)
  {
    var blanks := Blanks(raw, w, h);
    assert Closed(blanks, marked);
    forall p | IsVoid(raw, w, h, p)
      ensures p in marked
    {
      var b :| b in blanks && OnBorder(b, w, h) && Reachable(blanks, b, p);
      ClosedContainsReachable(blanks, marked, b, p);
    }
  }
}
