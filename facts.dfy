/**
 * `game_state_to_facts` of backend/app/main.py: the facts handed to the
 * answer-set solver for a request, one `cell` fact per classified grid
 * character in row-major order, then the player, then the boxes in request order.
 */
module Facts {
  import opened Wrappers
  import opened Walks
  import opened Rules

  datatype CellKind = Wall | Floor | Goal

  datatype Fact =
    | CellFact(x: int, y: int, kind: CellKind)
    | InitialPlayer(x: int, y: int)
    | InitialBox(x: int, y: int)

  /** `#`/`x` are wall, space/`@`/`$` floor, `.`/`*`/`+` goal; any other character gives no fact. */
  function CellKindOf(c: char): Option<CellKind> {
    if c == '#' || c == 'x' then Some(Wall)
    else if c == ' ' || c == '@' || c == '$' then Some(Floor)
    else if c == '.' || c == '*' || c == '+' then Some(Goal)
    else None
  }

  /** The cell facts of `row[x..]`, row `y`. */
  function RowFacts(row: string, y: int, x: nat): seq<Fact>
    requires x <= |row|
    decreases |row| - x
  {
    if x == |row| then []
    else
      match CellKindOf(row[x])
      case None => RowFacts(row, y, x + 1)
      case Some(k) => [CellFact(x, y, k)] + RowFacts(row, y, x + 1)
  }

  /** The cell facts of rows `y..` of the grid, row-major. */
  function GridFacts(grid: seq<string>, y: nat): seq<Fact>
    requires y <= |grid|
    decreases |grid| - y
  {
    if y == |grid| then [] else RowFacts(grid[y], y, 0) + GridFacts(grid, y + 1)
  }

  /** One `InitialBox` fact per box, in order. */
  function BoxFacts(boxes: seq<Pos>): seq<Fact>
    decreases |boxes|
  {
    if boxes == [] then []
    else BoxFacts(boxes[..|boxes| - 1]) + [InitialBox(boxes[|boxes| - 1].x, boxes[|boxes| - 1].y)]
  }

  lemma {:induction false} BoxFactsAt(boxes: seq<Pos>)
    ensures |BoxFacts(boxes)| == |boxes|
    ensures forall i :: 0 <= i < |boxes| ==> BoxFacts(boxes)[i] == InitialBox(boxes[i].x, boxes[i].y)
    ensures forall f :: f in BoxFacts(boxes) ==> f.InitialBox?
    decreases |boxes|
  {
    if boxes != [] {
      BoxFactsAt(boxes[..|boxes| - 1]);
    }
  }

  /** The fact a cell of the grid gives, when its character is classified. */
  predicate DescribesCell(grid: seq<string>, f: Fact) {
    f.CellFact? && InGrid(grid, Pos(f.x, f.y)) && CellKindOf(grid[f.y][f.x]) == Some(f.kind)
  }

  lemma {:induction false} RowFactsExact(row: string, y: int, x: nat, f: Fact)
    requires x <= |row|
    ensures f in RowFacts(row, y, x) <==>
      f.CellFact? && f.y == y && x <= f.x < |row| && CellKindOf(row[f.x]) == Some(f.kind)
    decreases |row| - x
  {
    if x < |row| {
      RowFactsExact(row, y, x + 1, f);
    }
  }

  /** The cell facts are exactly the classified cells of the grid, each described correctly. */
  lemma {:induction false} GridFactsExact(grid: seq<string>, y: nat, f: Fact)
    requires y <= |grid|
    ensures f in GridFacts(grid, y) <==> DescribesCell(grid, f) && y <= f.y
    decreases |grid| - y
  {
    if y < |grid| {
      RowFactsExact(grid[y], y, 0, f);
      GridFactsExact(grid, y + 1, f);
    }
  }

  /** The inner loop of the encoder: the cell facts of row `y`, appended to `facts0`. */
  method AppendRowFacts(facts0: seq<Fact>, row: string, y: int) returns (facts: seq<Fact>)
    ensures facts == facts0 + RowFacts(row, y, 0)
  {
    facts := facts0;
    var x := 0;
    while x < |row|
      invariant 0 <= x <= |row|
      invariant facts + RowFacts(row, y, x) == facts0 + RowFacts(row, y, 0)
    {
      var kind := CellKindOf(row[x]);
      if kind.Some? {
        facts := facts + [CellFact(x, y, kind.value)];
      }
      x := x + 1;
    }
  }

  /**
   * The encoder: row-major cell facts, then `InitialPlayer`, then one
   * `InitialBox` per box of the request, duplicates included, in order.
   */
  method GameStateToFacts(s: GameState) returns (facts: seq<Fact>)
    ensures facts == GridFacts(s.grid, 0) + [InitialPlayer(s.player.x, s.player.y)] + BoxFacts(s.boxes)
  {
    facts := AllGridFacts(s.grid);
    facts := facts + [InitialPlayer(s.player.x, s.player.y)];
    facts := AppendBoxFacts(facts, s.boxes);
  }

  /** The row loop of the encoder. */
  method AllGridFacts(grid: seq<string>) returns (facts: seq<Fact>)
    ensures facts == GridFacts(grid, 0)
  {
    facts := [];
    var y := 0;
    while y < |grid|
      invariant 0 <= y <= |grid|
      invariant facts + GridFacts(grid, y) == GridFacts(grid, 0)
    {
      facts := AppendRowFacts(facts, grid[y], y);
      y := y + 1;
    }
  }

  /** The box loop of the encoder: one `InitialBox` per box, appended to `facts0`. */
  method AppendBoxFacts(facts0: seq<Fact>, boxes: seq<Pos>) returns (facts: seq<Fact>)
    ensures facts == facts0 + BoxFacts(boxes)
  {
    facts := facts0;
    var i := 0;
    while i < |boxes|
      invariant 0 <= i <= |boxes|
      invariant facts == facts0 + BoxFacts(boxes[..i])
    {
      assert boxes[..i + 1][..i] == boxes[..i];
      facts := facts + [InitialBox(boxes[i].x, boxes[i].y)];
      i := i + 1;
    }
    assert boxes[..|boxes|] == boxes;
  }

  /**
   * What the solver receives: a cell fact for exactly the classified cells,
   * each with its right kind; one player fact, at the request's player; and
   * the box facts at the request's boxes, in order.
   */
  lemma FactsDescribeState(s: GameState, facts: seq<Fact>)
    requires facts == GridFacts(s.grid, 0) + [InitialPlayer(s.player.x, s.player.y)] + BoxFacts(s.boxes)
    ensures forall f: Fact :: f.CellFact? ==> (f in facts <==> DescribesCell(s.grid, f))
    ensures forall f: Fact :: f.InitialPlayer? ==> (f in facts <==> f == InitialPlayer(s.player.x, s.player.y))
    ensures |facts| == |GridFacts(s.grid, 0)| + 1 + |s.boxes|
    ensures forall i :: 0 <= i < |s.boxes| ==>
      facts[|GridFacts(s.grid, 0)| + 1 + i] == InitialBox(s.boxes[i].x, s.boxes[i].y)
  {
    BoxFactsAt(s.boxes);
    forall f: Fact | f.CellFact?
      ensures f in facts <==> DescribesCell(s.grid, f)
    {
      GridFactsExact(s.grid, 0, f);
    }
    forall f: Fact | f.InitialPlayer?
      ensures f in facts <==> f == InitialPlayer(s.player.x, s.player.y)
    {
      GridFactsExact(s.grid, 0, f);
    }
  }
}
