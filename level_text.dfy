/**
 * `parse_levels` of the two verification scripts (the same code in both):
 * split the lines of a level collection into `Level N` blocks, each with an
 * optional quoted title and its grid lines, blank lines trimmed at both ends,
 * and the blocks sorted by id.  The line loop is specified by a fold of
 * `Step` over the lines; the properties are proved about the fold.
 */
module LevelText {
  import opened Wrappers
  import opened AstarLevel

  datatype RawLevel = RawLevel(id: nat, title: Option<string>, gridLines: seq<string>)

  // ---------------------------------------------------------------------------
  // Strings

  /** `str.lstrip()`: the longest suffix that does not start with whitespace. */
  function LStrip(s: string): (r: string)
    ensures |r| <= |s| && r == s[|s| - |r|..]
    ensures r == [] || !IsSpace(r[0])
    ensures forall i :: 0 <= i < |s| - |r| ==> IsSpace(s[i])
  {
    if s == [] || !IsSpace(s[0]) then s else LStrip(s[1..])
  }

  /** `str.strip()` */
  function Strip(s: string): string {
    RStrip(LStrip(s))
  }

  /** `line.strip() == ""`, the source's test for an empty line. */
  predicate IsBlank(line: string) {
    Strip(line) == ""
  }

  /** A line is blank exactly when every character of it is whitespace. */
  lemma BlankIffAllSpace(line: string)
    ensures IsBlank(line) <==> forall i :: 0 <= i < |line| ==> IsSpace(line[i])
  {
    var l := LStrip(line);
    if l != [] {
      assert RStrip(l) != [] by {
        assert !IsSpace(l[0]);
        assert RStrip(l) == l[..|RStrip(l)|];
        assert forall i :: |RStrip(l)| <= i < |l| ==> IsSpace(l[i]);
      }
      assert line[|line| - |l|] == l[0];
    }
  }

  predicate IsDigit(c: char) {
    '0' <= c <= '9'
  }

  predicate AllDigits(s: string) {
    forall i :: 0 <= i < |s| ==> IsDigit(s[i])
  }

  /** `int(s)` for a string of decimal digits. */
  function DigitsValue(s: string): nat
    requires AllDigits(s)
  {
    if s == [] then 0 else 10 * DigitsValue(s[..|s| - 1]) + (s[|s| - 1] as int - '0' as int)
  }

  /**
   * `re.match(r"^Level\s+(\d+)\s*$", t)` on a stripped line `t`: the word,
   * at least one blank, then digits to the end (a stripped line has no
   * trailing blanks for `\s*` to match).
   */
  function HeaderId(t: string): Option<nat> {
    if |t| >= 5 && t[..5] == "Level" then
      var rest := t[5..];
      var digits := LStrip(rest);
      if |digits| < |rest| && digits != [] && AllDigits(digits) then Some(DigitsValue(digits)) else None
    else None
  }

  predicate IsHeader(line: string) {
    HeaderId(Strip(line)).Some?
  }

  /** `re.match(r"^'(.*)'$", t)`: quoted at both ends, no newline between. */
  predicate IsTitle(t: string) {
    |t| >= 2 && t[0] == '\'' && t[|t| - 1] == '\'' && '\n' !in t[1..|t| - 1]
  }

  // ---------------------------------------------------------------------------
  // Trimming blank lines (`flush`)

  /** The `pop(0)` loop: drop lines from the front while `blank` holds. */
  function DropLeading<T>(g: seq<T>, blank: T -> bool): (r: seq<T>)
    ensures |r| <= |g| && r == g[|g| - |r|..]
    ensures r == [] || !blank(r[0])
  {
    if g != [] && blank(g[0]) then DropLeading(g[1..], blank) else g
  }

  /** Only lines satisfying `blank` are dropped at the front. */
  lemma {:induction false} DropLeadingOnlyBlank<T>(g: seq<T>, blank: T -> bool)
    ensures forall i :: 0 <= i < |g| - |DropLeading(g, blank)| ==> blank(g[i])
  {
    if g != [] && blank(g[0]) {
      DropLeadingOnlyBlank(g[1..], blank);
      forall i | 1 <= i < |g| - |DropLeading(g, blank)|
        ensures blank(g[i])
      {
        assert g[i] == g[1..][i - 1];
      }
    }
  }

  /** The `pop()` loop: drop lines from the back while `blank` holds. */
  function DropTrailing<T>(g: seq<T>, blank: T -> bool): (r: seq<T>)
    ensures |r| <= |g| && r == g[..|r|]
    ensures r == [] || !blank(r[|r| - 1])
  {
    if g != [] && blank(g[|g| - 1]) then DropTrailing(g[..|g| - 1], blank) else g
  }

  /** Only lines satisfying `blank` are dropped at the back. */
  lemma {:induction false} DropTrailingOnlyBlank<T>(g: seq<T>, blank: T -> bool)
    ensures forall i :: |DropTrailing(g, blank)| <= i < |g| ==> blank(g[i])
  {
    if g != [] && blank(g[|g| - 1]) {
      var init := g[..|g| - 1];
      DropTrailingOnlyBlank(init, blank);
      forall i | |DropTrailing(g, blank)| <= i < |init|
        ensures blank(g[i])
      {
        assert g[i] == init[i];
      }
    }
  }

  /** Neither the first nor the last line satisfies `blank`. */
  predicate TrimmedBy<T>(g: seq<T>, blank: T -> bool) {
    g == [] || (!blank(g[0]) && !blank(g[|g| - 1]))
  }

  lemma TrimsEnds<T>(g: seq<T>, blank: T -> bool)
    ensures TrimmedBy(DropTrailing(DropLeading(g, blank), blank), blank)
  {
    var front := DropLeading(g, blank);
    var r := DropTrailing(front, blank);
    if r != [] {
      assert r[0] == front[0];
    }
  }

  /** What `flush` does to the grid: blank lines dropped at the front, then at the back. */
  function TrimBlank(g: seq<string>): seq<string> {
    DropTrailing(DropLeading(g, IsBlank), IsBlank)
  }

  /** Neither the first nor the last line is blank. */
  predicate Trimmed(g: seq<string>) {
    TrimmedBy(g, IsBlank)
  }

  lemma TrimBlankTrims(g: seq<string>)
    ensures Trimmed(TrimBlank(g))
  {
    TrimsEnds(g, IsBlank);
  }

  /** The first `while` loop of `flush`: `pop(0)` while the first line strips to "". */
  method DropLeadingBlank(grid: seq<string>) returns (g: seq<string>)
    ensures g == DropLeading(grid, IsBlank)
  {
    g := grid;
    while g != [] && Strip(g[0]) == ""
      invariant DropLeading(g, IsBlank) == DropLeading(grid, IsBlank)
      decreases |g|
    {
      g := g[1..];
    }
  }

  /** The second `while` loop of `flush`: `pop()` while the last line strips to "". */
  method DropTrailingBlank(grid: seq<string>) returns (g: seq<string>)
    ensures g == DropTrailing(grid, IsBlank)
  {
    g := grid;
    while g != [] && Strip(g[|g| - 1]) == ""
      invariant DropTrailing(g, IsBlank) == DropTrailing(grid, IsBlank)
      decreases |g|
    {
      g := g[..|g| - 1];
    }
  }

  /** The two `while` loops of `flush`, one after the other. */
  method TrimGrid(grid: seq<string>) returns (g: seq<string>)
    ensures g == TrimBlank(grid)
    ensures Trimmed(g)
  {
    g := DropLeadingBlank(grid);
    g := DropTrailingBlank(g);
    TrimBlankTrims(grid);
  }

  // ---------------------------------------------------------------------------
  // The line loop as a fold

  /** What the loop body tells apart in a line; the tests are made in this order. */
  datatype Kind = Header(id: nat) | Title(text: string) | Blank | Text

  datatype Line = Line(text: string, kind: Kind)

  function Classify(line: string): Line {
    var t := Strip(line);
    match HeaderId(t)
    case Some(id) => Line(line, Header(id))
    case None =>
      if IsTitle(t) then Line(line, Title(t[1..|t| - 1]))
      else if t == "" then Line(line, Blank)
      else Line(line, Text)
  }

  /** `f` applied to every element, in order. */
  function MapSeq<A, B>(f: A -> B, s: seq<A>): seq<B> {
    if s == [] then [] else MapSeq(f, s[..|s| - 1]) + [f(s[|s| - 1])]
  }

  lemma {:induction false} MapAppend<A, B>(f: A -> B, a: seq<A>, b: seq<A>)
    ensures MapSeq(f, a + b) == MapSeq(f, a) + MapSeq(f, b)
  {
    if b == [] {
      assert a + b == a;
    } else {
      MapAppend(f, a, b[..|b| - 1]);
      assert (a + b)[..|a + b| - 1] == a + b[..|b| - 1];
    }
  }

  lemma {:induction false} MapIndex<A, B>(f: A -> B, s: seq<A>, i: nat)
    requires i < |s|
    ensures |MapSeq(f, s)| == |s| && MapSeq(f, s)[i] == f(s[i])
  {
    MapLength(f, s);
    if i < |s| - 1 {
      MapIndex(f, s[..|s| - 1], i);
    }
  }

  lemma {:induction false} MapLength<A, B>(f: A -> B, s: seq<A>)
    ensures |MapSeq(f, s)| == |s|
  {
    if s != [] {
      MapLength(f, s[..|s| - 1]);
    }
  }

  lemma MapSnoc<A, B>(f: A -> B, s: seq<A>, i: nat)
    requires i < |s|
    ensures MapSeq(f, s[..i + 1]) == MapSeq(f, s[..i]) + [f(s[i])]
  {
    assert s[..i + 1][..i] == s[..i];
  }

  function Classified(lines: seq<string>): seq<Line> {
    MapSeq(Classify, lines)
  }

  /** The level being read: its id, its title so far and its grid lines so far. */
  datatype Current = Current(id: nat, title: Option<string>, grid: seq<string>)

  datatype Acc = Acc(levels: seq<RawLevel>, cur: Option<Current>)

  const Start: Acc := Acc([], None)

  /** `flush()`: the levels with the current one appended, trimmed. */
  function Flush(acc: Acc): seq<RawLevel> {
    match acc.cur
    case None => acc.levels
    case Some(c) => acc.levels + [RawLevel(c.id, c.title, TrimBlank(c.grid))]
  }

  /**
   * One iteration of the `for line in lines` loop: a header flushes and
   * opens a level; before the first header lines are skipped; a title is
   * taken only before the first grid line and before any other title; blank
   * lines before the first grid line are skipped; anything else is a grid line.
   */
  function Step(acc: Acc, l: Line): Acc {
    match l.kind
    case Header(id) => Acc(Flush(acc), Some(Current(id, None, [])))
    case _ =>
      match acc.cur
      case None => acc
      case Some(c) =>
        if c.grid == [] && c.title.None? && l.kind.Title? then Acc(acc.levels, Some(c.(title := Some(l.kind.text))))
        else if c.grid == [] && l.kind.Blank? then acc
        else Acc(acc.levels, Some(c.(grid := c.grid + [l.text])))
  }

  function FoldFrom(acc: Acc, lines: seq<Line>): Acc {
    if lines == [] then acc else Step(FoldFrom(acc, lines[..|lines| - 1]), lines[|lines| - 1])
  }

  predicate SortedById(s: seq<RawLevel>) {
    forall i, j :: 0 <= i < j < |s| ==> s[i].id <= s[j].id
  }

  predicate IdsAtMost(s: seq<RawLevel>, n: nat) {
    forall k :: 0 <= k < |s| ==> s[k].id <= n
  }

  /** Insertion after every level with an id not above `x`'s, which keeps equal ids in input order. */
  function InsertById(x: RawLevel, s: seq<RawLevel>): (r: seq<RawLevel>)
    ensures multiset(r) == multiset(s) + multiset{x}
  {
    if s == [] || s[|s| - 1].id <= x.id then s + [x]
    else
      var init, last := s[..|s| - 1], s[|s| - 1];
      assert s == init + [last];
      InsertById(x, init) + [last]
  }

  /** Inserting a level into levels whose ids are at most `n` keeps them at most `n`. */
  lemma {:induction false} InsertKeepsBound(x: RawLevel, s: seq<RawLevel>, n: nat)
    requires IdsAtMost(s, n) && x.id <= n
    ensures IdsAtMost(InsertById(x, s), n)
  {
    if !(s == [] || s[|s| - 1].id <= x.id) {
      var init := s[..|s| - 1];
      InsertKeepsBound(x, init, n);
    }
  }

  lemma SortedSnoc(s: seq<RawLevel>, y: RawLevel)
    requires SortedById(s) && IdsAtMost(s, y.id)
    ensures SortedById(s + [y])
  {
    var r := s + [y];
    forall i, j | 0 <= i < j < |r|
      ensures r[i].id <= r[j].id
    {
      assert r[i] == s[i];
      if j < |s| {
        assert r[j] == s[j];
      }
    }
  }

  /** Insertion into a list sorted by id keeps it sorted. */
  lemma {:induction false} InsertSorted(x: RawLevel, s: seq<RawLevel>)
    requires SortedById(s)
    ensures SortedById(InsertById(x, s))
  {
    if s == [] || s[|s| - 1].id <= x.id {
      if s != [] {
        assert IdsAtMost(s, x.id) by {
          assert forall k :: 0 <= k < |s| - 1 ==> s[k].id <= s[|s| - 1].id;
        }
      }
      SortedSnoc(s, x);
    } else {
      var init, last := s[..|s| - 1], s[|s| - 1];
      assert forall k :: 0 <= k < |init| ==> init[k] == s[k];
      assert SortedById(init) && IdsAtMost(init, last.id);
      InsertSorted(x, init);
      InsertKeepsBound(x, init, last.id);
      SortedSnoc(InsertById(x, init), last);
    }
  }

  /** `levels.sort(key=lambda x: x.id)`, a stable sort. */
  function SortById(s: seq<RawLevel>): (r: seq<RawLevel>)
    ensures multiset(r) == multiset(s)
  {
    if s == [] then []
    else
      var init := s[..|s| - 1];
      assert s == init + [s[|s| - 1]];
      InsertById(s[|s| - 1], SortById(init))
  }

  /** The sort's result is sorted by id. */
  lemma {:induction false} SortByIdSorted(s: seq<RawLevel>)
    ensures SortedById(SortById(s))
  {
    if s != [] {
      SortByIdSorted(s[..|s| - 1]);
      InsertSorted(s[|s| - 1], SortById(s[..|s| - 1]));
    }
  }

  function LevelsOf(lines: seq<string>): seq<RawLevel> {
    SortById(Flush(FoldFrom(Start, Classified(lines))))
  }

  // ---------------------------------------------------------------------------
  // The method

  function Pack(id: Option<nat>, title: Option<string>, grid: seq<string>): Option<Current> {
    if id.None? then None else Some(Current(id.value, title, grid))
  }

  /** `flush()` on the loop's variables. */
  method FlushLevel(levels: seq<RawLevel>, id: Option<nat>, title: Option<string>, grid: seq<string>)
    returns (r: seq<RawLevel>)
    ensures r == Flush(Acc(levels, Pack(id, title, grid)))
  {
    if id.None? {
      return levels;
    }
    var trimmed := TrimGrid(grid);
    r := levels + [RawLevel(id.value, title, trimmed)];
  }

  /** Folding one more line is one more `Step`. */
  lemma FoldSnoc(acc: Acc, ls: seq<Line>, l: Line)
    ensures FoldFrom(acc, ls + [l]) == Step(FoldFrom(acc, ls), l)
  {
    assert (ls + [l])[..|ls|] == ls;
  }

  /** The body of the `for line in lines` loop on the loop's variables. */
  method ReadLine(levels: seq<RawLevel>, id: Option<nat>, title: Option<string>, grid: seq<string>, line: Line)
    returns (levels': seq<RawLevel>, id': Option<nat>, title': Option<string>, grid': seq<string>)
    ensures Acc(levels', Pack(id', title', grid')) == Step(Acc(levels, Pack(id, title, grid)), line)
  {
    levels', id', title', grid' := levels, id, title, grid;
    if line.kind.Header? {
      levels' := FlushLevel(levels, id, title, grid);
      id', title', grid' := Some(line.kind.id), None, [];
    } else if id.None? {
    } else if grid == [] && title.None? && line.kind.Title? {
      title' := Some(line.kind.text);
    } else if grid == [] && line.kind.Blank? {
    } else {
      grid' := grid + [line.text];
    }
  }

  /** `parse_levels` on the lines of the text (`splitlines()` is not modelled). */
  method ParseLevels(lines: seq<string>) returns (levels: seq<RawLevel>)
    ensures levels == LevelsOf(lines)
  {
    levels := [];
    var currentId: Option<nat> := None;
    var currentTitle: Option<string> := None;
    var currentGrid: seq<string> := [];
    var i := 0;
    assert lines[..0] == [];
    while i < |lines|
      invariant i <= |lines|
      invariant Acc(levels, Pack(currentId, currentTitle, currentGrid)) == FoldFrom(Start, Classified(lines[..i]))
    {
      var line := Classify(lines[i]);
      MapSnoc(Classify, lines, i);
      FoldSnoc(Start, Classified(lines[..i]), line);
      levels, currentId, currentTitle, currentGrid := ReadLine(levels, currentId, currentTitle, currentGrid, line);
      i := i + 1;
    }
    assert lines[..i] == lines;
    levels := FlushLevel(levels, currentId, currentTitle, currentGrid);
    levels := SortById(levels);
  }

  // ---------------------------------------------------------------------------
  // Properties

  predicate AllTrimmed(levels: seq<RawLevel>) {
    forall k :: 0 <= k < |levels| ==> Trimmed(levels[k].gridLines)
  }

  lemma FlushTrimmed(acc: Acc)
    requires AllTrimmed(acc.levels)
    ensures AllTrimmed(Flush(acc))
  {
    if acc.cur.Some? {
      var c := acc.cur.value;
      var x := RawLevel(c.id, c.title, TrimBlank(c.grid));
      TrimBlankTrims(c.grid);
      var r := acc.levels + [x];
      forall k | 0 <= k < |r|
        ensures Trimmed(r[k].gridLines)
      {
        if k < |acc.levels| {
          assert r[k] == acc.levels[k];
        }
      }
    }
  }

  lemma {:induction false} FoldTrimmed(lines: seq<Line>)
    ensures AllTrimmed(FoldFrom(Start, lines).levels)
  {
    if lines != [] {
      var acc := FoldFrom(Start, lines[..|lines| - 1]);
      FoldTrimmed(lines[..|lines| - 1]);
      FlushTrimmed(acc);
    }
  }

  /** The levels come out sorted by id, and no level's grid starts or ends with a blank line. */
  lemma LevelsSortedAndTrimmed(lines: seq<string>)
    ensures SortedById(LevelsOf(lines))
    ensures AllTrimmed(LevelsOf(lines))
  {
    var acc := FoldFrom(Start, Classified(lines));
    FoldTrimmed(Classified(lines));
    FlushTrimmed(acc);
    SortByIdSorted(Flush(acc));
    PermutationKeepsTrimmed(Flush(acc), LevelsOf(lines));
  }

  lemma PermutationKeepsTrimmed(a: seq<RawLevel>, b: seq<RawLevel>)
    requires multiset(a) == multiset(b) && AllTrimmed(a)
    ensures AllTrimmed(b)
  {
    forall k | 0 <= k < |b|
      ensures Trimmed(b[k].gridLines)
    {
      assert b[k] in multiset(a);
      var j :| 0 <= j < |a| && a[j] == b[k];
    }
  }

  /** Folding a concatenation folds the second part from where the first left off. */
  lemma {:induction false} FoldAppend(acc: Acc, a: seq<Line>, b: seq<Line>)
    ensures FoldFrom(acc, a + b) == FoldFrom(FoldFrom(acc, a), b)
  {
    if b != [] {
      FoldAppend(acc, a, b[..|b| - 1]);
      assert (a + b)[..|a + b| - 1] == a + b[..|b| - 1];
    } else {
      assert a + b == a;
    }
  }

  /** Before the first header nothing is read. */
  lemma {:induction false} PreambleSkipped(pre: seq<Line>)
    requires forall i :: 0 <= i < |pre| ==> !pre[i].kind.Header?
    ensures FoldFrom(Start, pre) == Start
  {
    if pre != [] {
      PreambleSkipped(pre[..|pre| - 1]);
    }
  }

  /** A line that is not a `Level N` header is not classified as one. */
  lemma NoHeaderLines(pre: seq<string>)
    requires forall i :: 0 <= i < |pre| ==> !IsHeader(pre[i])
    ensures forall i :: 0 <= i < |Classified(pre)| ==> !Classified(pre)[i].kind.Header?
  {
    MapLength(Classify, pre);
    forall i | 0 <= i < |pre|
      ensures !Classified(pre)[i].kind.Header?
    {
      MapIndex(Classify, pre, i);
      assert !IsHeader(pre[i]);
    }
  }

  /** Lines before the first `Level N` header do not change the result. */
  lemma PreambleIgnored(pre: seq<string>, rest: seq<string>)
    requires forall i :: 0 <= i < |pre| ==> !IsHeader(pre[i])
    ensures LevelsOf(pre + rest) == LevelsOf(rest)
  {
    var cp, cr := Classified(pre), Classified(rest);
    MapAppend(Classify, pre, rest);
    FoldAppend(Start, cp, cr);
    NoHeaderLines(pre);
    PreambleSkipped(cp);
    assert FoldFrom(Start, Classified(pre + rest)) == FoldFrom(Start, cr);
  }

  /** Once a grid line has been read, a quoted line is a grid line, not a title. */
  lemma TitleOnlyBeforeGrid(acc: Acc, l: Line)
    requires acc.cur.Some? && acc.cur.value.grid != [] && !l.kind.Header?
    ensures Step(acc, l) == Acc(acc.levels, Some(acc.cur.value.(grid := acc.cur.value.grid + [l.text])))
  {
  }

  /** The first grid line of the level being read is never one the loop classified `Blank`. */
  lemma {:induction false} GridStartsNotBy(lines: seq<Line>, blank: string -> bool)
    requires forall i :: 0 <= i < |lines| ==> (lines[i].kind.Blank? <==> blank(lines[i].text))
    ensures match FoldFrom(Start, lines).cur
      case None => true
      case Some(c) => c.grid == [] || !blank(c.grid[0])
  {
    if lines != [] {
      var init, l := lines[..|lines| - 1], lines[|lines| - 1];
      GridStartsNotBy(init, blank);
      var acc := FoldFrom(Start, init);
      assert FoldFrom(Start, lines) == Step(acc, l);
      if !l.kind.Header? && acc.cur.Some? && acc.cur.value.grid == [] && !l.kind.Blank? {
        assert !blank(l.text);
      }
    }
  }

  /** While a level is read, its grid never starts with a blank line. */
  lemma GridStartsNonBlank(lines: seq<string>)
    ensures match FoldFrom(Start, Classified(lines)).cur
      case None => true
      case Some(c) => c.grid == [] || !IsBlank(c.grid[0])
  {
    var cl := Classified(lines);
    MapLength(Classify, lines);
    forall i | 0 <= i < |cl|
      ensures cl[i].kind.Blank? <==> IsBlank(cl[i].text)
    {
      MapIndex(Classify, lines, i);
      ClassifyBlank(lines[i]);
    }
    GridStartsNotBy(cl, IsBlank);
  }

  /** A line is classified `Blank` exactly when it strips to "" (a header or a title never does). */
  lemma ClassifyBlank(line: string)
    ensures Classify(line).text == line
    ensures Classify(line).kind.Blank? <==> IsBlank(line)
  {
    var t := Strip(line);
    var h := HeaderId(t);
    assert h.Some? ==> |t| >= 5;
    if h.None? && IsTitle(t) {
      assert t != "";
    }
  }

  /** The number of header lines. */
  function Headers(lines: seq<Line>): nat {
    if lines == [] then 0 else Headers(lines[..|lines| - 1]) + if lines[|lines| - 1].kind.Header? then 1 else 0
  }

  /** Each header flushes the level before it and opens a new one. */
  lemma {:induction false} OneLevelPerHeader(lines: seq<Line>)
    ensures |FoldFrom(Start, lines).levels| + (if FoldFrom(Start, lines).cur.Some? then 1 else 0) == Headers(lines)
  {
    if lines != [] {
      OneLevelPerHeader(lines[..|lines| - 1]);
    }
  }

  /** One level per `Level N` line. */
  lemma LevelCount(lines: seq<string>)
    ensures |LevelsOf(lines)| == Headers(Classified(lines))
  {
    OneLevelPerHeader(Classified(lines));
    var f := Flush(FoldFrom(Start, Classified(lines)));
    assert |multiset(LevelsOf(lines))| == |multiset(f)|;
  }
}
