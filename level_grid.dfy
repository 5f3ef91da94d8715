/**
 * What both level verifiers (backend/verify_official_levels.py and
 * backend/verify_first30_clingo.py) read off a padded grid while scanning it
 * row by row, left to right: the cells of the player, of the boxes and of the
 * goals, in that scanning order, and the error raised when there is no player.
 */
module LevelGrid {
  import opened Wrappers
  import opened Walks
  import opened LevelText
  import opened VoidFill

  datatype Entity = Player | Box | Goal

  /** The level characters that put an entity on their cell. */
  predicate Holds(c: char, e: Entity) {
    match e
    case Player => c == '@' || c == '+'
    case Box => c == '$' || c == '*'
    case Goal => c == '.' || c == '*' || c == '+'
  }

  /** The cells of `row[..n]` (row `y`) holding `e`, left to right. */
  function RowCells(row: string, y: int, e: Entity, n: nat): seq<Pos>
    requires n <= |row|
  {
    if n == 0 then []
    else RowCells(row, y, e, n - 1) + (if Holds(row[n - 1], e) then [Pos(n - 1, y)] else [])
  }

  /** The cells of rows `..m` holding `e`, in row-major order. */
  function GridCells(raw: seq<string>, e: Entity, m: nat): seq<Pos>
    requires m <= |raw|
  {
    if m == 0 then []
    else GridCells(raw, e, m - 1) + RowCells(raw[m - 1], m - 1, e, |raw[m - 1]|)
  }

  function Cells(raw: seq<string>, e: Entity): seq<Pos> {
    GridCells(raw, e, |raw|)
  }

  /** `a` is scanned before `b`. */
  predicate Before(a: Pos, b: Pos) {
    a.y < b.y || (a.y == b.y && a.x < b.x)
  }

  predicate RowMajor(s: seq<Pos>) {
    forall i, j :: 0 <= i < j < |s| ==> Before(s[i], s[j])
  }

  lemma RowMajorAppend(a: seq<Pos>, b: seq<Pos>)
    requires RowMajor(a) && RowMajor(b)
    requires forall i, j :: 0 <= i < |a| && 0 <= j < |b| ==> Before(a[i], b[j])
    ensures RowMajor(a + b)
  {
  }

  /** A row lists exactly its cells holding `e`, strictly left to right. */
  lemma {:induction false} RowCellsSpec(row: string, y: int, e: Entity, n: nat)
    requires n <= |row|
    ensures forall p :: p in RowCells(row, y, e, n) <==> p.y == y && 0 <= p.x < n && Holds(row[p.x], e)
    ensures forall p :: p in RowCells(row, y, e, n) ==> p.y == y
    ensures RowMajor(RowCells(row, y, e, n))
  {
    if n > 0 {
      RowCellsSpec(row, y, e, n - 1);
      var prev := RowCells(row, y, e, n - 1);
      var last: seq<Pos> := if Holds(row[n - 1], e) then [Pos(n - 1, y)] else [];
      assert forall i :: 0 <= i < |prev| ==> prev[i] in prev;
      RowMajorAppend(prev, last);
    }
  }

  /**
   * The grid lists exactly its cells holding `e`, each once, in row-major
   * order.
   */
  lemma {:induction false} GridCellsSpec(raw: seq<string>, e: Entity, m: nat)
    requires m <= |raw|
    ensures forall p :: p in GridCells(raw, e, m) <==>
      0 <= p.y < m && 0 <= p.x < |raw[p.y]| && Holds(raw[p.y][p.x], e)
    ensures RowMajor(GridCells(raw, e, m))
  {
    if m > 0 {
      GridCellsSpec(raw, e, m - 1);
      RowCellsSpec(raw[m - 1], m - 1, e, |raw[m - 1]|);
      var prev, row := GridCells(raw, e, m - 1), RowCells(raw[m - 1], m - 1, e, |raw[m - 1]|);
      assert forall i :: 0 <= i < |prev| ==> prev[i] in prev;
      assert forall j :: 0 <= j < |row| ==> row[j] in row;
      RowMajorAppend(prev, row);
    }
  }

  /** `d` after the assignments of the cells of `s`, the last one winning. */
  function LastOr(s: seq<Pos>, d: Option<Pos>): Option<Pos> {
    if s == [] then d else Some(s[|s| - 1])
  }

  lemma LastOrAppend(a: seq<Pos>, b: seq<Pos>, d: Option<Pos>)
    ensures LastOr(a + b, d) == LastOr(b, LastOr(a, d))
  {
    if b != [] {
      assert (a + b)[|a + b| - 1] == b[|b| - 1];
    }
  }

  /**
   * The player the scan ends with: `None` exactly when no cell holds a player,
   * otherwise a player cell after which no other player cell is scanned.
   */
  lemma LastPlayer(raw: seq<string>)
    ensures LastOr(Cells(raw, Player), None).None? <==>
      !exists y, x :: 0 <= y < |raw| && 0 <= x < |raw[y]| && Holds(raw[y][x], Player)
    ensures LastOr(Cells(raw, Player), None).Some? ==>
      var p := LastOr(Cells(raw, Player), None).value;
      && 0 <= p.y < |raw| && 0 <= p.x < |raw[p.y]| && Holds(raw[p.y][p.x], Player)
      && forall y, x :: 0 <= y < |raw| && 0 <= x < |raw[y]| && Holds(raw[y][x], Player) ==>
           Pos(x, y) == p || Before(Pos(x, y), p)
  {
    var cs := Cells(raw, Player);
    GridCellsSpec(raw, Player, |raw|);
    if cs != [] {
      var p := cs[|cs| - 1];
      assert p in cs;
      forall y, x | 0 <= y < |raw| && 0 <= x < |raw[y]| && Holds(raw[y][x], Player)
        ensures Pos(x, y) == p || Before(Pos(x, y), p)
      {
        assert Pos(x, y) in cs;
        var i :| 0 <= i < |cs| && cs[i] == Pos(x, y);
        if i < |cs| - 1 {
          assert Before(cs[i], cs[|cs| - 1]);
        }
      }
    } else {
      forall y, x | 0 <= y < |raw| && 0 <= x < |raw[y]|
        ensures !Holds(raw[y][x], Player)
      {
        assert Pos(x, y) !in cs;
      }
    }
  }

  /** Padding adds only spaces, so the padded grid holds the entities where the lines do. */
  lemma PaddedEntities(lines: seq<string>)
    ensures forall y, x, e :: 0 <= y < |lines| && 0 <= x < Width(lines) ==>
      (Holds(Padded(lines)[y][x], e) <==> x < |lines[y]| && Holds(lines[y][x], e))
  {
    PaddedShape(lines);
  }

  /**
   * Scanning the padded grid lists exactly the cells of the lines holding
   * `e`, each once, in row-major order.
   */
  lemma PaddedCells(lines: seq<string>, e: Entity)
    ensures forall p :: p in Cells(Padded(lines), e) <==>
      0 <= p.y < |lines| && 0 <= p.x < |lines[p.y]| && Holds(lines[p.y][p.x], e)
    ensures RowMajor(Cells(Padded(lines), e))
  {
    PaddedEntities(lines);
    GridCellsSpec(Padded(lines), e, |lines|);
  }

  /**
   * The player the scan of the padded grid ends with: `None` exactly when no
   * line holds `@` or `+`, otherwise such a cell after which no other one is
   * scanned.
   */
  lemma PaddedPlayer(lines: seq<string>)
    ensures LastOr(Cells(Padded(lines), Player), None).None? <==>
      !exists y, x :: 0 <= y < |lines| && 0 <= x < |lines[y]| && Holds(lines[y][x], Player)
    ensures LastOr(Cells(Padded(lines), Player), None).Some? ==>
      var p := LastOr(Cells(Padded(lines), Player), None).value;
      && 0 <= p.y < |lines| && 0 <= p.x < |lines[p.y]| && Holds(lines[p.y][p.x], Player)
      && forall y, x :: 0 <= y < |lines| && 0 <= x < |lines[y]| && Holds(lines[y][x], Player) ==>
           Pos(x, y) == p || Before(Pos(x, y), p)
  {
    var raw := Padded(lines);
    LastPlayer(raw);
    PaddedEntities(lines);
    if exists y, x :: 0 <= y < |lines| && 0 <= x < |lines[y]| && Holds(lines[y][x], Player) {
      var y, x :| 0 <= y < |lines| && 0 <= x < |lines[y]| && Holds(lines[y][x], Player);
      assert Holds(raw[y][x], Player);
    }
  }

  /** What a scan has found so far: the last player cell, the box cells and the goal cells. */
  datatype Found = Found(player: Option<Pos>, boxes: seq<Pos>, goals: seq<Pos>)

  /** The entities found on cells `..x` of row `y`, starting from `start`. */
  ghost function RowFound(raw: seq<string>, w: nat, h: nat, y: nat, x: nat, start: Found): Found
    requires IsRect(raw, w, h) && y < h && x <= w
  {
    Found(LastOr(RowCells(raw[y], y, Player, x), start.player),
                 start.boxes + RowCells(raw[y], y, Box, x), start.goals + RowCells(raw[y], y, Goal, x))
  }

  /** One more cell: the entities its character puts there are found. */
  lemma RowFoundStep(raw: seq<string>, w: nat, h: nat, y: nat, x: nat, start: Found)
    requires IsRect(raw, w, h) && y < h && x < w
    ensures var s, c := RowFound(raw, w, h, y, x, start), raw[y][x];
      RowFound(raw, w, h, y, x + 1, start) ==
        Found(if Holds(c, Player) then Some(Pos(x, y)) else s.player,
                     s.boxes + (if Holds(c, Box) then [Pos(x, y)] else []),
                     s.goals + (if Holds(c, Goal) then [Pos(x, y)] else []))
  {
    var c := raw[y][x];
    LastOrAppend(RowCells(raw[y], y, Player, x), if Holds(c, Player) then [Pos(x, y)] else [], start.player);
  }

  /** A prefix one longer is the prefix with the next element appended. */
  lemma PrefixSnoc<T>(s: seq<T>, i: nat)
    requires i < |s|
    ensures s[..i + 1] == s[..i] + [s[i]]
  {
    assert s[..i + 1][..i] == s[..i];
  }

  // ---------------------------------------------------------------------------
  // The error message

  /** `str(n)` for a natural number: no leading zero unless `n` is 0 itself. */
  function NatText(n: nat): (s: string)
    ensures s != [] && AllDigits(s)
    ensures n == 0 ==> s == "0"
    ensures n > 0 ==> s[0] != '0'
  {
    if n < 10 then [('0' as int + n) as char]
    else NatText(n / 10) + [('0' as int + n % 10) as char]
  }

  /** Reading the digits back gives the number. */
  lemma {:induction false} NatTextValue(n: nat)
    ensures DigitsValue(NatText(n)) == n
  {
    var s := NatText(n);
    if n >= 10 {
      NatTextValue(n / 10);
      assert s[..|s| - 1] == NatText(n / 10);
    }
  }

  /** `f"Level {level.id}: missing player '@'"`. */
  function MissingPlayer(id: nat): (m: string)
    ensures exists digits ::
      && AllDigits(digits) && DigitsValue(digits) == id && digits != [] && (|digits| == 1 || digits[0] != '0')
      && m == "Level " + digits + ": missing player '@'"
  {
    NatTextValue(id);
    "Level " + NatText(id) + ": missing player '@'"
  }
}
