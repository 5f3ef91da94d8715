/**
 * `parse_level_to_state` of backend/verify_official_levels.py: pad the grid
 * lines, fill the void from the border with a first-in first-out worklist,
 * then scan the rectangle row by row to build the grid the game plays on
 * (void spaces as `x`, entities taken off their cells) together with the
 * player, the boxes and the goals.
 */
module OfficialLevels {
  import opened Wrappers
  import opened Walks
  import opened LevelText
  import opened VoidFill
  import opened LevelGrid

  datatype ParsedLevel = ParsedLevel(grid: seq<string>, player: Pos, boxes: seq<Pos>, goals: seq<Pos>)

  /**
   * One cell of the parsed grid: a void space becomes `x`, a wall stays a
   * wall, the goal characters become `.`, everything else becomes floor.
   */
  function Decoded(c: char, void: bool): (r: char)
    ensures r == 'x' <==> c == ' ' && void
    ensures r == '#' <==> c == '#'
    ensures r == '.' <==> Holds(c, Goal)
    ensures r == ' ' <==> !(c == ' ' && void) && c != '#' && !Holds(c, Goal)
  {
    if c == ' ' && void then 'x'
    else if c == '#' then '#'
    else if c == '.' then '.'
    else if c == '@' then ' '
    else if c == '$' then ' '
    else if c == '*' then '.'
    else if c == '+' then '.'
    else ' '
  }

  /** The parsed grid of a rectangle whose void cells are `voids`. */
  ghost function DecodedGrid(raw: seq<string>, w: nat, h: nat, voids: set<Pos>): (g: seq<string>)
    requires IsRect(raw, w, h)
    ensures IsRect(g, w, h)
    ensures forall y, x :: 0 <= y < h && 0 <= x < w ==> g[y][x] == Decoded(raw[y][x], Pos(x, y) in voids)
  {
    seq(h, y requires 0 <= y < h => seq(w, x requires 0 <= x < w => Decoded(raw[y][x], Pos(x, y) in voids)))
  }

  /** What the function computes for the grid lines `lines` of level `id`. */
  ghost function StateOf(lines: seq<string>, id: nat): Result<ParsedLevel> {
    var raw, w, h := Padded(lines), Width(lines), |lines|;
    var player := LastOr(Cells(raw, Player), None);
    if player.None? then Err(MissingPlayer(id))
    else Ok(ParsedLevel(DecodedGrid(raw, w, h, Voids(raw, w, h)), player.value, Cells(raw, Box), Cells(raw, Goal)))
  }

  /** `parse_level_to_state`. */
  method ParseLevelToState(level: RawLevel) returns (r: Result<ParsedLevel>)
    ensures r == StateOf(level.gridLines, level.id)
  {
    var lines := level.gridLines;
    var raw := PadRows(lines);
    var w, h := Width(lines), |lines|;
    var isVoid := FillVoid(raw, w, h, false);
    var grid, player, boxes, goals := DecodeRows(raw, w, h, isVoid, Voids(raw, w, h));
    if player.None? {
      return Err("Level " + NatText(level.id) + ": missing player '@'");
    }
    return Ok(ParsedLevel(grid, player.value, boxes, goals));
  }

  /** The outer loop over the rows of the padded grid. */
  method DecodeRows(raw: seq<string>, w: nat, h: nat, isVoid: array2<bool>, ghost voids: set<Pos>)
    returns (grid: seq<string>, player: Option<Pos>, boxes: seq<Pos>, goals: seq<Pos>)
    requires IsRect(raw, w, h)
    requires isVoid.Length0 == h && isVoid.Length1 == w
    requires forall y, x :: 0 <= y < h && 0 <= x < w ==> (isVoid[y, x] <==> Pos(x, y) in voids)
    ensures grid == DecodedGrid(raw, w, h, voids)
    ensures player == LastOr(Cells(raw, Player), None)
    ensures boxes == Cells(raw, Box) && goals == Cells(raw, Goal)
  {
    grid, player, boxes, goals := [], None, [], [];
    for y := 0 to h
      invariant Scan(grid, player, boxes, goals) == RowsScan(raw, w, h, voids, y)
    {
      RowsScanStep(raw, w, h, voids, y);
      var row: string;
      row, player, boxes, goals := DecodeRow(raw, w, h, isVoid, voids, y, player, boxes, goals);
      grid := grid + [row];
    }
    RowsScanAll(raw, w, h, voids);
  }

  /** What the scan has collected after a number of rows. */
  datatype Scan = Scan(grid: seq<string>, player: Option<Pos>, boxes: seq<Pos>, goals: seq<Pos>)

  /** The scan after rows `..y`. */
  ghost function RowsScan(raw: seq<string>, w: nat, h: nat, voids: set<Pos>, y: nat): Scan
    requires IsRect(raw, w, h) && y <= h
  {
    Scan(DecodedGrid(raw, w, h, voids)[..y], LastOr(GridCells(raw, Player, y), None),
         GridCells(raw, Box, y), GridCells(raw, Goal, y))
  }

  /** One more row: its decoded row appended, its entities found. */
  lemma RowsScanStep(raw: seq<string>, w: nat, h: nat, voids: set<Pos>, y: nat)
    requires IsRect(raw, w, h) && y < h
    ensures var s := RowsScan(raw, w, h, voids, y);
      RowsScan(raw, w, h, voids, y + 1) ==
        Scan(s.grid + [DecodedGrid(raw, w, h, voids)[y]], LastOr(RowCells(raw[y], y, Player, w), s.player),
             s.boxes + RowCells(raw[y], y, Box, w), s.goals + RowCells(raw[y], y, Goal, w))
  {
    LastOrAppend(GridCells(raw, Player, y), RowCells(raw[y], y, Player, w), None);
    PrefixSnoc(DecodedGrid(raw, w, h, voids), y);
  }

  /** After all rows the scan holds the whole grid and every entity. */
  lemma RowsScanAll(raw: seq<string>, w: nat, h: nat, voids: set<Pos>)
    requires IsRect(raw, w, h)
    ensures RowsScan(raw, w, h, voids, h) ==
      Scan(DecodedGrid(raw, w, h, voids), LastOr(Cells(raw, Player), None), Cells(raw, Box), Cells(raw, Goal))
  {
    var want := DecodedGrid(raw, w, h, voids);
    assert want[..h] == want;
  }

  /** The inner loop over one row: the decoded row, and the entities found on it appended. */
  method DecodeRow(raw: seq<string>, w: nat, h: nat, isVoid: array2<bool>, ghost voids: set<Pos>, y: nat,
                   player: Option<Pos>, boxes: seq<Pos>, goals: seq<Pos>)
    returns (row: string, player': Option<Pos>, boxes': seq<Pos>, goals': seq<Pos>)
    requires IsRect(raw, w, h) && y < h
    requires isVoid.Length0 == h && isVoid.Length1 == w
    requires forall y, x :: 0 <= y < h && 0 <= x < w ==> (isVoid[y, x] <==> Pos(x, y) in voids)
    ensures row == DecodedGrid(raw, w, h, voids)[y]
    ensures player' == LastOr(RowCells(raw[y], y, Player, w), player)
    ensures boxes' == boxes + RowCells(raw[y], y, Box, w)
    ensures goals' == goals + RowCells(raw[y], y, Goal, w)
  {
    ghost var start := Found(player, boxes, goals);
    row, player', boxes', goals' := [], player, boxes, goals;
    for x := 0 to w
      invariant Found(player', boxes', goals') == RowFound(raw, w, h, y, x, start)
      invariant row == DecodedGrid(raw, w, h, voids)[y][..x]
    {
      RowFoundStep(raw, w, h, y, x, start);
      DecodedPrefix(raw, w, h, voids, y, x);
      var ch := raw[y][x];
      if ch == ' ' && isVoid[y, x] {
        row := row + ['x'];
      } else if ch == '#' {
        row := row + ['#'];
      } else if ch == '.' {
        row := row + ['.'];
        goals' := goals' + [Pos(x, y)];
      } else if ch == '@' {
        row := row + [' '];
        player' := Some(Pos(x, y));
      } else if ch == '$' {
        row := row + [' '];
        boxes' := boxes' + [Pos(x, y)];
      } else if ch == '*' {
        row := row + ['.'];
        boxes' := boxes' + [Pos(x, y)];
        goals' := goals' + [Pos(x, y)];
      } else if ch == '+' {
        row := row + ['.'];
        player' := Some(Pos(x, y));
        goals' := goals' + [Pos(x, y)];
      } else {
        row := row + [' '];
      }
    }
    DecodedPrefix(raw, w, h, voids, y, w);
  }

  /** The decoded row, one cell longer. */
  lemma DecodedPrefix(raw: seq<string>, w: nat, h: nat, voids: set<Pos>, y: nat, x: nat)
    requires IsRect(raw, w, h) && y < h && x <= w
    ensures var want := DecodedGrid(raw, w, h, voids)[y];
      && |want| == w
      && (x == w ==> want[..x] == want)
      && (x < w ==> want[..x + 1] == want[..x] + [Decoded(raw[y][x], Pos(x, y) in voids)])
  {
    var want := DecodedGrid(raw, w, h, voids)[y];
    if x < w {
      PrefixSnoc(want, x);
    } else {
      assert want[..x] == want;
    }
  }

  // ---------------------------------------------------------------------------
  // What the parsed level is

  /** The function fails exactly when no line holds `@` or `+`, with the level's id in the message. */
  lemma StateOfFails(lines: seq<string>, id: nat)
    ensures StateOf(lines, id).Err? <==>
      !exists y, x :: 0 <= y < |lines| && 0 <= x < |lines[y]| && Holds(lines[y][x], Player)
    ensures StateOf(lines, id).Err? ==> StateOf(lines, id).msg == MissingPlayer(id)
  {
    PaddedPlayer(lines);
  }

  /**
   * The parsed grid has a row per line and is as wide as the longest line,
   * and each of its cells is the padded character decoded with the void-ness
   * of its cell: by `Decoded`, `x` exactly for a space joined through spaces
   * to a space on the border, `#` for `#`, `.` for `.`, `*` and `+`, and
   * floor for everything else.
   */
  lemma StateOfGrid(lines: seq<string>, id: nat)
    requires StateOf(lines, id).Ok?
    ensures var raw, w, h, g := Padded(lines), Width(lines), |lines|, StateOf(lines, id).value.grid;
      && IsRect(g, w, h)
      && forall y, x :: 0 <= y < h && 0 <= x < w ==> g[y][x] == Decoded(raw[y][x], IsVoid(raw, w, h, Pos(x, y)))
  {
    VoidGrid(lines);
  }

  /** The decoded padded grid, with the void set read as void-ness. */
  lemma VoidGrid(lines: seq<string>)
    ensures var raw, w, h := Padded(lines), Width(lines), |lines|;
      var g := DecodedGrid(raw, w, h, Voids(raw, w, h));
      forall y, x :: 0 <= y < h && 0 <= x < w ==> g[y][x] == Decoded(raw[y][x], IsVoid(raw, w, h, Pos(x, y)))
  {
    var raw, w, h := Padded(lines), Width(lines), |lines|;
    var g := DecodedGrid(raw, w, h, Voids(raw, w, h));
    forall y, x | 0 <= y < h && 0 <= x < w
      ensures g[y][x] == Decoded(raw[y][x], IsVoid(raw, w, h, Pos(x, y)))
    {
      VoidsMember(raw, w, h, Pos(x, y));
    }
  }

  /**
   * The boxes and the goals are exactly the cells of the lines holding `$`/`*`
   * and `.`/`*`/`+`, each listed once in row-major order; the player stands on
   * a cell holding `@` or `+`, the last one in row-major order when there are
   * several.
   */
  lemma StateOfEntities(lines: seq<string>, id: nat)
    requires StateOf(lines, id).Ok?
    ensures var s := StateOf(lines, id).value;
      && (forall p :: p in s.boxes <==> 0 <= p.y < |lines| && 0 <= p.x < |lines[p.y]| && Holds(lines[p.y][p.x], Box))
      && (forall p :: p in s.goals <==> 0 <= p.y < |lines| && 0 <= p.x < |lines[p.y]| && Holds(lines[p.y][p.x], Goal))
      && RowMajor(s.boxes) && RowMajor(s.goals)
      && 0 <= s.player.y < |lines| && 0 <= s.player.x < |lines[s.player.y]| && Holds(lines[s.player.y][s.player.x], Player)
      && forall y, x :: 0 <= y < |lines| && 0 <= x < |lines[y]| && Holds(lines[y][x], Player) ==>
           Pos(x, y) == s.player || Before(Pos(x, y), s.player)
  {
    PaddedCells(lines, Box);
    PaddedCells(lines, Goal);
    PaddedPlayer(lines);
  }
}
