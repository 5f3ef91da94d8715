/**
 * `parse_level_to_facts` of backend/verify_first30_clingo.py: pad the grid
 * lines, fill the void from the border with a last-in first-out worklist,
 * then emit one `cell` fact per cell of the rectangle in row-major order (void
 * spaces as walls), the `initial_player` fact and one `initial_box` fact per
 * box, together with the number of boxes, the width and the height.
 */
module ClingoFacts {
  import opened Wrappers
  import opened Walks
  import opened LevelText
  import opened VoidFill
  import opened LevelGrid
  import F = Facts

  datatype FactsOutput = FactsOutput(facts: seq<F.Fact>, nBoxes: nat, width: nat, height: nat)

  /**
   * The kind of the `cell` fact of a character: void spaces and `#` are wall,
   * the goal characters `.`, `*` and `+` are goal, everything else is floor.
   */
  function KindOf(c: char, void: bool): (k: F.CellKind)
    ensures k == F.Wall <==> c == '#' || (c == ' ' && void)
    ensures k == F.Goal <==> Holds(c, Goal)
  {
    if c == ' ' && void then F.Wall
    else if c == '#' then F.Wall
    else if c == '.' then F.Goal
    else if c == '@' then F.Floor
    else if c == '$' then F.Floor
    else if c == '*' then F.Goal
    else if c == '+' then F.Goal
    else F.Floor
  }

  /** The `cell` facts of the rectangle, one row of facts per row of cells. */
  ghost function CellRows(raw: seq<string>, w: nat, h: nat, voids: set<Pos>): (rows: seq<seq<F.Fact>>)
    requires IsRect(raw, w, h)
    ensures |rows| == h && forall y :: 0 <= y < h ==> |rows[y]| == w
    ensures forall y, x :: 0 <= y < h && 0 <= x < w ==> rows[y][x] == F.CellFact(x, y, KindOf(raw[y][x], Pos(x, y) in voids))
  {
    seq(h, y requires 0 <= y < h => seq(w, x requires 0 <= x < w => F.CellFact(x, y, KindOf(raw[y][x], Pos(x, y) in voids))))
  }

  /** The rows one after the other. */
  function Flatten<T>(rows: seq<seq<T>>): seq<T> {
    if rows == [] then [] else Flatten(rows[..|rows| - 1]) + rows[|rows| - 1]
  }

  /** What the function computes for the grid lines `lines` of level `id`. */
  ghost function FactsOf(lines: seq<string>, id: nat): Result<FactsOutput> {
    var raw, w, h := Padded(lines), Width(lines), |lines|;
    var player := LastOr(Cells(raw, Player), None);
    var boxes := Cells(raw, Box);
    if player.None? then Err(MissingPlayer(id))
    else
      var facts := Flatten(CellRows(raw, w, h, Voids(raw, w, h)))
        + [F.InitialPlayer(player.value.x, player.value.y)] + F.BoxFacts(boxes);
      Ok(FactsOutput(facts, |boxes|, w, h))
  }

  /** `parse_level_to_facts`, with the facts as values rather than as program text. */
  method ParseLevelToFacts(level: RawLevel) returns (r: Result<FactsOutput>)
    ensures r == FactsOf(level.gridLines, level.id)
  {
    var lines := level.gridLines;
    var raw := PadRows(lines);
    var w, h := Width(lines), |lines|;
    var isVoid := FillVoid(raw, w, h, true);
    var out, player, boxes := FactRows(raw, w, h, isVoid, Voids(raw, w, h));
    if player.None? {
      return Err("Level " + NatText(level.id) + ": missing player '@'");
    }
    out := out + [F.InitialPlayer(player.value.x, player.value.y)];
    out := F.AppendBoxFacts(out, boxes);
    return Ok(FactsOutput(out, |boxes|, w, h));
  }

  /** The outer loop over the rows of the padded grid. */
  method FactRows(raw: seq<string>, w: nat, h: nat, isVoid: array2<bool>, ghost voids: set<Pos>)
    returns (out: seq<F.Fact>, player: Option<Pos>, boxes: seq<Pos>)
    requires IsRect(raw, w, h)
    requires isVoid.Length0 == h && isVoid.Length1 == w
    requires forall y, x :: 0 <= y < h && 0 <= x < w ==> (isVoid[y, x] <==> Pos(x, y) in voids)
    ensures out == Flatten(CellRows(raw, w, h, voids))
    ensures player == LastOr(Cells(raw, Player), None)
    ensures boxes == Cells(raw, Box)
  {
    ghost var rows := CellRows(raw, w, h, voids);
    out, player, boxes := [], None, [];
    for y := 0 to h
      invariant out == Flatten(rows[..y])
      invariant player == LastOr(GridCells(raw, Player, y), None)
      invariant boxes == GridCells(raw, Box, y)
    {
      LastOrAppend(GridCells(raw, Player, y), RowCells(raw[y], y, Player, w), None);
      out, player, boxes := FactRow(raw, w, h, isVoid, voids, y, out, player, boxes);
      assert rows[..y + 1][..y] == rows[..y];
    }
    assert rows[..h] == rows;
  }

  /** The inner loop over one row: its `cell` facts appended, and the entities found on it. */
  method FactRow(raw: seq<string>, w: nat, h: nat, isVoid: array2<bool>, ghost voids: set<Pos>, y: nat,
                 out: seq<F.Fact>, player: Option<Pos>, boxes: seq<Pos>)
    returns (out': seq<F.Fact>, player': Option<Pos>, boxes': seq<Pos>)
    requires IsRect(raw, w, h) && y < h
    requires isVoid.Length0 == h && isVoid.Length1 == w
    requires forall y, x :: 0 <= y < h && 0 <= x < w ==> (isVoid[y, x] <==> Pos(x, y) in voids)
    ensures out' == out + CellRows(raw, w, h, voids)[y]
    ensures player' == LastOr(RowCells(raw[y], y, Player, w), player)
    ensures boxes' == boxes + RowCells(raw[y], y, Box, w)
  {
    ghost var start := Found(player, boxes, []);
    out', player', boxes' := out, player, boxes;
    for x := 0 to w
      invariant out' == out + CellRows(raw, w, h, voids)[y][..x]
      invariant player' == RowFound(raw, w, h, y, x, start).player
      invariant boxes' == RowFound(raw, w, h, y, x, start).boxes
    {
      RowFoundStep(raw, w, h, y, x, start);
      CellRowPrefix(raw, w, h, voids, y, x);
      var ch := raw[y][x];
      if ch == ' ' && isVoid[y, x] {
        out' := out' + [F.CellFact(x, y, F.Wall)];
      } else if ch == '#' {
        out' := out' + [F.CellFact(x, y, F.Wall)];
      } else if ch == '.' {
        out' := out' + [F.CellFact(x, y, F.Goal)];
      } else if ch == '@' {
        out' := out' + [F.CellFact(x, y, F.Floor)];
        player' := Some(Pos(x, y));
      } else if ch == '$' {
        out' := out' + [F.CellFact(x, y, F.Floor)];
        boxes' := boxes' + [Pos(x, y)];
      } else if ch == '*' {
        out' := out' + [F.CellFact(x, y, F.Goal)];
        boxes' := boxes' + [Pos(x, y)];
      } else if ch == '+' {
        out' := out' + [F.CellFact(x, y, F.Goal)];
        player' := Some(Pos(x, y));
      } else {
        out' := out' + [F.CellFact(x, y, F.Floor)];
      }
    }
    CellRowPrefix(raw, w, h, voids, y, w);
  }

  /** The `cell` facts of row `y`, one cell longer. */
  lemma CellRowPrefix(raw: seq<string>, w: nat, h: nat, voids: set<Pos>, y: nat, x: nat)
    requires IsRect(raw, w, h) && y < h && x <= w
    ensures var want := CellRows(raw, w, h, voids)[y];
      && |want| == w
      && (x == w ==> want[..x] == want)
      && (x < w ==> want[..x + 1] == want[..x] + [F.CellFact(x, y, KindOf(raw[y][x], Pos(x, y) in voids))])
  {
    var want := CellRows(raw, w, h, voids)[y];
    if x < w {
      PrefixSnoc(want, x);
    } else {
      assert want[..x] == want;
    }
  }

  // ---------------------------------------------------------------------------
  // What the facts say

  /** The index of the first fact of row `y`: the rows above hold `w` facts each. */
  function RowStart(w: nat, y: nat): nat {
    if y == 0 then 0 else RowStart(w, y - 1) + w
  }

  lemma {:induction false} RowStartIs(w: nat, y: nat)
    ensures RowStart(w, y) == y * w
  {
    if y > 0 {
      RowStartIs(w, y - 1);
      assert y * w == (y - 1) * w + w;
    }
  }

  /** A row ends no later than any row below it starts. */
  lemma {:induction false} RowStartBelow(w: nat, y: nat, m: nat)
    requires y < m
    ensures RowStart(w, y) + w <= RowStart(w, m)
  {
    if y < m - 1 {
      RowStartBelow(w, y, m - 1);
    }
  }

  /**
   * Rows of `w` elements each, one after the other: row `y` occupies the
   * `w` places from `RowStart(w, y)` on.
   */
  lemma {:induction false} FlattenRows<T>(rows: seq<seq<T>>, w: nat)
    requires forall y :: 0 <= y < |rows| ==> |rows[y]| == w
    ensures |Flatten(rows)| == RowStart(w, |rows|)
    ensures forall y :: 0 <= y < |rows| ==> RowStart(w, y) + w <= RowStart(w, |rows|)
    ensures forall y, x :: 0 <= y < |rows| && 0 <= x < w ==> Flatten(rows)[RowStart(w, y) + x] == rows[y][x]
  {
    if rows != [] {
      var m := |rows|;
      var init := rows[..m - 1];
      FlattenRows(init, w);
      var prev, row := Flatten(init), rows[m - 1];
      var flat := Flatten(rows);
      assert flat == prev + row;
      forall y | 0 <= y < m
        ensures RowStart(w, y) + w <= RowStart(w, m)
      {
        if y < m - 1 {
          RowStartBelow(w, y, m - 1);
        }
      }
      forall y, x | 0 <= y < m && 0 <= x < w
        ensures flat[RowStart(w, y) + x] == rows[y][x]
      {
        var i := RowStart(w, y) + x;
        if y < m - 1 {
          assert init[y] == rows[y];
          assert flat[i] == prev[i];
        } else {
          assert flat[i] == row[x];
        }
      }
    }
  }

  /** What holds of every element of every row holds of every element of the rows one after the other. */
  lemma {:induction false} FlattenAll<T>(rows: seq<seq<T>>, P: T -> bool)
    requires forall y, x :: 0 <= y < |rows| && 0 <= x < |rows[y]| ==> P(rows[y][x])
    ensures forall i :: 0 <= i < |Flatten(rows)| ==> P(Flatten(rows)[i])
  {
    if rows != [] {
      var init := rows[..|rows| - 1];
      assert forall y :: 0 <= y < |init| ==> init[y] == rows[y];
      FlattenAll(init, P);
      var prev, row := Flatten(init), rows[|rows| - 1];
      forall i | 0 <= i < |prev + row|
        ensures P((prev + row)[i])
      {
        if i >= |prev| {
          assert (prev + row)[i] == row[i - |prev|];
        }
      }
    }
  }

  /** The function fails exactly when no line holds `@` or `+`, with the level's id in the message. */
  lemma FactsOfFails(lines: seq<string>, id: nat)
    ensures FactsOf(lines, id).Err? <==>
      !exists y, x :: 0 <= y < |lines| && 0 <= x < |lines[y]| && Holds(lines[y][x], Player)
    ensures FactsOf(lines, id).Err? ==> FactsOf(lines, id).msg == MissingPlayer(id)
  {
    PaddedPlayer(lines);
  }

  /**
   * The facts are `w * h` `cell` facts, the `initial_player` fact and one
   * `initial_box` fact per box, in that order: nothing after the first
   * `w * h` facts is a `cell` fact and nothing up to the player fact is an
   * `initial_box` fact.
   */
  lemma FactsOfLayout(lines: seq<string>, id: nat)
    requires FactsOf(lines, id).Ok?
    ensures var o := FactsOf(lines, id).value;
      && o.width == Width(lines) && o.height == |lines|
      && |o.facts| == o.width * o.height + 1 + o.nBoxes
      && o.facts[o.width * o.height].InitialPlayer?
      && (forall i :: 0 <= i < |o.facts| ==> (o.facts[i].CellFact? <==> i < o.width * o.height))
      && (forall i :: 0 <= i < |o.facts| ==> (o.facts[i].InitialBox? <==> i > o.width * o.height))
  {
    FactsOfBlocks(lines, id);
  }

  /**
   * Among the first `w * h` facts, the one at `RowStart(w, y) + x` (that is,
   * `y * w + x`, by `RowStartIs`) is the `cell` fact of cell `(x, y)` of the
   * padded rectangle, with a space of the void set as wall (`VoidsMember`: the
   * void set holds exactly the spaces joined through spaces to the border).
   */
  lemma FactsOfCells(lines: seq<string>, id: nat)
    requires FactsOf(lines, id).Ok?
    ensures var o, raw := FactsOf(lines, id).value, Padded(lines);
      var w, h := Width(lines), |lines|;
      && w * h <= |o.facts|
      && (forall y :: 0 <= y < h ==> RowStart(w, y) + w <= w * h)
      && (forall y, x :: 0 <= y < h && 0 <= x < w ==>
            o.facts[RowStart(w, y) + x] == F.CellFact(x, y, KindOf(raw[y][x], Pos(x, y) in Voids(raw, w, h))))
  {
    var raw, w, h := Padded(lines), Width(lines), |lines|;
    var player := LastOr(Cells(raw, Player), None).value;
    var mid, tail := [F.InitialPlayer(player.x, player.y)], F.BoxFacts(Cells(raw, Box));
    var o := FactsOf(lines, id).value;
    assert o.facts == Flatten(CellRows(raw, w, h, Voids(raw, w, h))) + mid + tail;
    CellBlock(o.facts, raw, w, h, Voids(raw, w, h), mid, tail);
  }

  /** Facts that start with the cell rows of a rectangle hold cell `(x, y)` at `RowStart(w, y) + x`. */
  lemma CellBlock(facts: seq<F.Fact>, raw: seq<string>, w: nat, h: nat, voids: set<Pos>, mid: seq<F.Fact>, tail: seq<F.Fact>)
    requires IsRect(raw, w, h)
    requires facts == Flatten(CellRows(raw, w, h, voids)) + mid + tail
    ensures |facts| == w * h + |mid| + |tail|
    ensures forall y :: 0 <= y < h ==> RowStart(w, y) + w <= w * h
    ensures forall y, x :: 0 <= y < h && 0 <= x < w ==>
      facts[RowStart(w, y) + x] == F.CellFact(x, y, KindOf(raw[y][x], Pos(x, y) in voids))
  {
    var rows := CellRows(raw, w, h, voids);
    FlatPrefix(facts, rows, mid, tail, w);
    RowStartIs(w, h);
    forall y, x | 0 <= y < h && 0 <= x < w
      ensures facts[RowStart(w, y) + x] == F.CellFact(x, y, KindOf(raw[y][x], Pos(x, y) in voids))
    {
      var c := rows[y][x];
      assert facts[RowStart(w, y) + x] == c;
    }
  }

  /** Every cell `(x, y)` of rectangular rows sits at `RowStart(w, y) + x` of their flattening, whatever follows it. */
  lemma FlatPrefix<T>(s: seq<T>, rows: seq<seq<T>>, mid: seq<T>, tail: seq<T>, w: nat)
    requires forall r :: 0 <= r < |rows| ==> |rows[r]| == w
    requires s == Flatten(rows) + mid + tail
    ensures |Flatten(rows)| == RowStart(w, |rows|)
    ensures forall y :: 0 <= y < |rows| ==> RowStart(w, y) + w <= RowStart(w, |rows|)
    ensures forall y, x :: 0 <= y < |rows| && 0 <= x < w ==> s[RowStart(w, y) + x] == rows[y][x]
  {
    FlattenRows(rows, w);
  }

  /**
   * After the cell facts come the `initial_player` fact of the last player
   * cell and the `initial_box` facts, one per box cell of the lines in
   * row-major order, so that the box count is the number of `initial_box` facts.
   */
  lemma FactsOfTail(lines: seq<string>, id: nat)
    requires FactsOf(lines, id).Ok?
    ensures var o, raw := FactsOf(lines, id).value, Padded(lines);
      var k, n := o.width * o.height, o.nBoxes;
      && |o.facts| == k + 1 + n
      && o.facts[k] == F.InitialPlayer(LastOr(Cells(raw, Player), None).value.x, LastOr(Cells(raw, Player), None).value.y)
      && (forall i :: 0 <= i < n ==> o.facts[k + 1 + i] == F.InitialBox(Cells(raw, Box)[i].x, Cells(raw, Box)[i].y))
  {
    var raw, w, h := Padded(lines), Width(lines), |lines|;
    var player := LastOr(Cells(raw, Player), None).value;
    var cells := Flatten(CellRows(raw, w, h, Voids(raw, w, h)));
    CellRowsLength(raw, w, h, Voids(raw, w, h));
    Blocks(FactsOf(lines, id).value.facts, cells, F.InitialPlayer(player.x, player.y), Cells(raw, Box));
  }

  /** The cell facts of a `w` by `h` rectangle are `w * h` facts. */
  lemma CellRowsLength(raw: seq<string>, w: nat, h: nat, voids: set<Pos>)
    requires IsRect(raw, w, h)
    ensures |Flatten(CellRows(raw, w, h, voids))| == w * h
  {
    FlattenRows(CellRows(raw, w, h, voids), w);
    RowStartIs(w, h);
  }

  /** Where the player fact and the box facts sit after the cell facts. */
  lemma Blocks(facts: seq<F.Fact>, cells: seq<F.Fact>, p: F.Fact, boxes: seq<Pos>)
    requires facts == cells + [p] + F.BoxFacts(boxes)
    ensures |facts| == |cells| + 1 + |boxes|
    ensures facts[|cells|] == p
    ensures forall i :: 0 <= i < |boxes| ==> facts[|cells| + 1 + i] == F.InitialBox(boxes[i].x, boxes[i].y)
  {
    F.BoxFactsAt(boxes);
    forall i | 0 <= i < |boxes|
      ensures facts[|cells| + 1 + i] == F.InitialBox(boxes[i].x, boxes[i].y)
    {
      assert facts[|cells| + 1 + i] == F.BoxFacts(boxes)[i];
    }
  }

  /** The three blocks of the facts, with the cell block `w * h` long. */
  lemma FactsOfBlocks(lines: seq<string>, id: nat)
    requires FactsOf(lines, id).Ok?
    ensures var o, raw := FactsOf(lines, id).value, Padded(lines);
      var w, h := Width(lines), |lines|;
      var player := LastOr(Cells(raw, Player), None).value;
      && o.width == w && o.height == h && o.nBoxes == |Cells(raw, Box)|
      && o.facts == Flatten(CellRows(raw, w, h, Voids(raw, w, h))) + [F.InitialPlayer(player.x, player.y)] + F.BoxFacts(Cells(raw, Box))
      && |Flatten(CellRows(raw, w, h, Voids(raw, w, h)))| == w * h
      && |F.BoxFacts(Cells(raw, Box))| == o.nBoxes
      && (forall i :: 0 <= i < |o.facts| ==>
            && (o.facts[i].CellFact? <==> i < w * h)
            && (o.facts[i].InitialBox? <==> i > w * h))
  {
    var raw, w, h := Padded(lines), Width(lines), |lines|;
    var rows := CellRows(raw, w, h, Voids(raw, w, h));
    var player := LastOr(Cells(raw, Player), None).value;
    FlattenRows(rows, w);
    FlattenAll(rows, (f: F.Fact) => f.CellFact?);
    RowStartIs(w, h);
    F.BoxFactsAt(Cells(raw, Box));
    Layout(Flatten(rows), F.InitialPlayer(player.x, player.y), F.BoxFacts(Cells(raw, Box)));
  }

  /** Cell facts, then the player fact, then box facts: each kind sits in its own block. */
  lemma Layout(cells: seq<F.Fact>, p: F.Fact, boxes: seq<F.Fact>)
    requires forall i :: 0 <= i < |cells| ==> cells[i].CellFact?
    requires p.InitialPlayer? && forall f :: f in boxes ==> f.InitialBox?
    ensures var facts := cells + [p] + boxes;
      forall i :: 0 <= i < |facts| ==> (facts[i].CellFact? <==> i < |cells|) && (facts[i].InitialBox? <==> i > |cells|)
  {
    var facts := cells + [p] + boxes;
    forall i | |cells| < i < |facts|
      ensures facts[i] in boxes
    {
      assert facts[i] == boxes[i - |cells| - 1];
    }
  }
}
