/** The interop status table in the README: one row per config, one column per
    pairing, and the merge of a fresh table into the existing one. */
module StatusTable {
  import opened Wrappers
  import opened TextLines
  import opened Substrings
  import opened SortedNames

  datatype Col = SelfPair | MlsRs | MlsPp

  function Title(c: Col): string {
    match c
    case SelfPair => "OpenMLS ↔ OpenMLS"
    case MlsRs => "OpenMLS ↔ mls-rs"
    case MlsPp => "OpenMLS ↔ MLS++"
  }

  /** `_TITLE_TO_COL.get`. */
  function ColOf(title: string): Option<Col> {
    if title == Title(SelfPair) then Some(SelfPair)
    else if title == Title(MlsRs) then Some(MlsRs)
    else if title == Title(MlsPp) then Some(MlsPp)
    else None
  }

  const DASH := "—"

  type Row = map<Col, string>
  datatype Table = Table(rows: map<string, Row>, cols: seq<Col>)

  // ----------------------------------------------------------------- parsing

  predicate IsTableLine(line: string) {
    var s := Strip(Spaces, line);
    s != "" && s[0] == '|'
  }

  function TableLines(lines: seq<string>): (l: seq<string>)
    ensures forall i | 0 <= i < |l| :: l[i] in lines && IsTableLine(l[i])
  {
    if lines == [] then []
    else if IsTableLine(lines[0]) then [lines[0]] + TableLines(lines[1..])
    else TableLines(lines[1..])
  }

  function StripAll(parts: seq<string>): (r: seq<string>)
    ensures |r| == |parts|
    ensures forall i | 0 <= i < |parts| :: r[i] == Strip(Spaces, parts[i])
  {
    seq(|parts|, i requires 0 <= i < |parts| => Strip(Spaces, parts[i]))
  }

  /** The cells of a table line. */
  function Cells(line: string): (cells: seq<string>)
    ensures |cells| > 0
  {
    StripAll(Split(Strip(Bars, Strip(Spaces, line)), '|'))
  }

  function ColKeys(titles: seq<string>): (keys: seq<Option<Col>>)
    ensures |keys| == |titles|
    ensures forall i | 0 <= i < |keys| :: keys[i] == ColOf(titles[i])
  {
    seq(|titles|, i requires 0 <= i < |titles| => ColOf(titles[i]))
  }

  /** `zip` of the column keys with the cells, unknown columns left out; a column
      that occurs twice keeps its last cell. */
  function RowOf(keys: seq<Option<Col>>, cells: seq<string>): Row {
    if keys == [] || cells == [] then map[]
    else
      var n := (if |keys| < |cells| then |keys| else |cells|) - 1;
      var before := RowOf(keys[..n], cells[..n]);
      if keys[n].Some? then before[keys[n].value := cells[n]] else before
  }

  function KnownCols(keys: seq<Option<Col>>): (cols: seq<Col>)
    ensures forall c :: c in cols <==> Some(c) in keys
  {
    if keys == [] then []
    else (if keys[0].Some? then [keys[0].value] else []) + KnownCols(keys[1..])
  }

  /** The rows of the lines below the header; a repeated name keeps its last. */
  function RowsOf(keys: seq<Option<Col>>, lines: seq<string>): map<string, Row> {
    if lines == [] then map[]
    else
      var before := RowsOf(keys, lines[..|lines| - 1]);
      var cells := Cells(lines[|lines| - 1]);
      if cells[0] == "" then before else before[cells[0] := RowOf(keys, cells[1..])]
  }

  /** What `parse_table_cells` computes. */
  function ParseTable(block: string): Table {
    var lines := TableLines(Lines(block));
    if |lines| < 2 then Table(map[], [])
    else
      var keys := ColKeys(Cells(lines[0])[1..]);
      Table(RowsOf(keys, lines[2..]), KnownCols(keys))
  }

  lemma NoRows(keys: seq<Option<Col>>)
    ensures RowsOf(keys, []) == map[]
  {
  }

  lemma RowsOfStep(keys: seq<Option<Col>>, lines: seq<string>, line: string)
    ensures RowsOf(keys, lines + [line]) ==
            var cells := Cells(line);
            if cells[0] == "" then RowsOf(keys, lines) else RowsOf(keys, lines)[cells[0] := RowOf(keys, cells[1..])]
  {
    hide Cells, RowOf;
    assert (lines + [line])[..|lines|] == lines;
  }

  /** The loop over the rows; a row without a name is skipped. */
  method ParseRows(keys: seq<Option<Col>>, body: seq<string>) returns (rows: map<string, Row>)
    ensures rows == RowsOf(keys, body)
  {
    hide Cells, RowOf, RowsOf;
    rows := map[];
    NoRows(keys);
    for i := 0 to |body|
      invariant rows == RowsOf(keys, body[..i])
    {
      assert body[..i + 1] == body[..i] + [body[i]];
      RowsOfStep(keys, body[..i], body[i]);
      var cells := Cells(body[i]);
      if cells[0] == "" {
        continue;
      }
      rows := rows[cells[0] := RowOf(keys, cells[1..])];
    }
    assert body[..|body|] == body;
  }

  method ParseTableCells(block: string) returns (rows: map<string, Row>, cols: seq<Col>)
    ensures Table(rows, cols) == ParseTable(block)
  {
    hide Cells, RowsOf, TableLines, Lines, ColKeys, KnownCols;
    var lines := TableLines(Lines(block));
    if |lines| < 2 {
      return map[], [];
    }
    var keys := ColKeys(Cells(lines[0])[1..]);
    rows := ParseRows(keys, lines[2..]);
    cols := KnownCols(keys);
  }

  /** The last cell of a column counts, and cells without a column or columns
      without a cell are left out. */
  lemma {:induction false} RowOfExactly(keys: seq<Option<Col>>, cells: seq<string>, c: Col)
    ensures c in RowOf(keys, cells) <==> exists i: nat :: ColumnAt(keys, cells, c, i)
    ensures c in RowOf(keys, cells) ==>
              exists i: nat :: ColumnAt(keys, cells, c, i) && RowOf(keys, cells)[c] == cells[i]
                               && forall j: nat | ColumnAt(keys, cells, c, j) :: j <= i
    decreases |keys|
  {
    if keys != [] && cells != [] {
      var n := (if |keys| < |cells| then |keys| else |cells|) - 1;
      RowOfExactly(keys[..n], cells[..n], c);
      if keys[n] == Some(c) {
        assert ColumnAt(keys, cells, c, n);
      } else {
        if i: nat :| ColumnAt(keys[..n], cells[..n], c, i) && RowOf(keys[..n], cells[..n])[c] == cells[..n][i]
                     && forall j: nat | ColumnAt(keys[..n], cells[..n], c, j) :: j <= i {
          assert ColumnAt(keys, cells, c, i);
          forall j: nat | ColumnAt(keys, cells, c, j)
            ensures j <= i
          {
            assert ColumnAt(keys[..n], cells[..n], c, j);
          }
        }
        if i: nat :| ColumnAt(keys, cells, c, i) {
          assert ColumnAt(keys[..n], cells[..n], c, i);
        }
      }
    }
  }

  predicate ColumnAt(keys: seq<Option<Col>>, cells: seq<string>, c: Col, i: nat) {
    i < |keys| && i < |cells| && keys[i] == Some(c)
  }

  /** Line `j` is the row of the config. */
  predicate RowAt(lines: seq<string>, name: string, j: nat) {
    j < |lines| && name != "" && Cells(lines[j])[0] == name
  }

  /** The last row of a config counts. */
  lemma {:induction false} RowsOfExactly(keys: seq<Option<Col>>, lines: seq<string>, name: string)
    ensures name in RowsOf(keys, lines) <==> exists j: nat :: RowAt(lines, name, j)
    ensures name in RowsOf(keys, lines) ==>
              exists j: nat :: RowAt(lines, name, j) && RowsOf(keys, lines)[name] == RowOf(keys, Cells(lines[j])[1..])
                               && forall k: nat | RowAt(lines, name, k) :: k <= j
  {
    hide Cells, RowOf;
    if lines != [] {
      var n := |lines| - 1;
      RowsOfExactly(keys, lines[..n], name);
      if RowAt(lines, name, n) {
        assert RowsOf(keys, lines)[name] == RowOf(keys, Cells(lines[n])[1..]);
      } else {
        if j: nat :| RowAt(lines[..n], name, j)
                     && RowsOf(keys, lines[..n])[name] == RowOf(keys, Cells(lines[..n][j])[1..])
                     && forall k: nat | RowAt(lines[..n], name, k) :: k <= j {
          assert RowAt(lines, name, j);
          forall k: nat | RowAt(lines, name, k)
            ensures k <= j
          {
            assert RowAt(lines[..n], name, k);
          }
        }
        if j: nat :| RowAt(lines, name, j) {
          assert RowAt(lines[..n], name, j);
        }
      }
    }
  }

  // --------------------------------------------------------------- rendering

  /** A line of padded cells; without cells the row still has one empty cell. */
  function Padded(cells: seq<string>): (p: seq<string>)
    ensures |p| == |cells|
    ensures forall i | 0 <= i < |cells| :: p[i] == " " + cells[i] + " "
  {
    seq(|cells|, i requires 0 <= i < |cells| => " " + cells[i] + " ")
  }

  function Line(name: string, cells: seq<string>): string {
    "|" + Join(Padded([name] + if cells == [] then [""] else cells), '|') + "|"
  }

  function Titles(cols: seq<Col>): (t: seq<string>)
    ensures |t| == |cols|
    ensures forall i | 0 <= i < |cols| :: t[i] == Title(cols[i])
  {
    seq(|cols|, i requires 0 <= i < |cols| => Title(cols[i]))
  }

  function Separator(cols: seq<Col>): string {
    if cols == [] then "|---|" else Separator(cols[..|cols| - 1]) + ":---:|"
  }

  function RowCells(row: Row, cols: seq<Col>): (cells: seq<string>)
    ensures |cells| == |cols|
    ensures forall i | 0 <= i < |cols| :: cells[i] == if cols[i] in row then row[cols[i]] else DASH
  {
    seq(|cols|, i requires 0 <= i < |cols| => if cols[i] in row then row[cols[i]] else DASH)
  }

  ghost function RowLines(t: Table, names: seq<string>): seq<string>
    requires forall n | n in names :: n in t.rows
  {
    if names == [] then []
    else
      var n := names[|names| - 1];
      RowLines(t, names[..|names| - 1]) + [Line(n, RowCells(t.rows[n], t.cols))]
  }

  const CORNER := "Scenario (config)"

  ghost function TextLinesOf(t: Table): seq<string> {
    SortedIsSorted(t.rows.Keys);
    [Line(CORNER, Titles(t.cols)), Separator(t.cols)] + RowLines(t, Sorted(t.rows.Keys))
  }

  ghost function TableText(t: Table): string {
    Join(TextLinesOf(t), '\n')
  }

  // ------------------------------------------------------------------- merge

  /** `_CANON_COLS`, as far as they were seen. */
  function CanonCols(seen: set<Col>): seq<Col> {
    (if SelfPair in seen then [SelfPair] else []) + (if MlsRs in seen then [MlsRs] else [])
    + (if MlsPp in seen then [MlsPp] else [])
  }

  /** The fresh cell if there is one, else the old one, else a dash. */
  function CellFor(prior: map<string, Row>, latest: map<string, Row>, name: string, c: Col): string {
    if name in latest && c in latest[name] then latest[name][c]
    else if name in prior && c in prior[name] then prior[name][c]
    else DASH
  }

  function MergedRow(prior: map<string, Row>, latest: map<string, Row>, name: string, cols: set<Col>): Row {
    map c | c in cols :: CellFor(prior, latest, name, c)
  }

  function MergedTable(prior: Table, latest: Table): Table {
    var cols := (set c | c in prior.cols) + (set c | c in latest.cols);
    Table(map n | n in prior.rows.Keys + latest.rows.Keys :: MergedRow(prior.rows, latest.rows, n, cols),
          CanonCols(cols))
  }

  ghost function Merge(existing: string, latest: string): string {
    TableText(MergedTable(ParseTable(existing), ParseTable(latest)))
  }

  // ------------------------------------------------- parsing undoes rendering

  /** Text that fits a table cell. */
  predicate Clean(s: string) {
    IsTrimmed(Spaces, s) && '|' !in s && OneLine(s)
  }

  predicate CleanRow(row: Row) {
    forall c | c in row :: Clean(row[c])
  }

  /** A table whose rows have exactly its columns. */
  predicate CleanTable(t: Table) {
    forall n | n in t.rows :: n != "" && Clean(n) && CleanRow(t.rows[n]) && t.rows[n].Keys == set c | c in t.cols
  }

  lemma {:induction false} JoinEnds(parts: seq<string>, c: char)
    requires |parts| > 0 && forall i | 0 <= i < |parts| :: parts[i] != ""
    ensures var j := Join(parts, c);
            |j| > 0 && j[0] == parts[0][0] && j[|j| - 1] == parts[|parts| - 1][|parts[|parts| - 1]| - 1]
  {
    if |parts| > 1 {
      JoinEnds(parts[1..], c);
    }
  }

  lemma {:induction false} JoinOneLine(parts: seq<string>, c: char)
    requires |parts| > 0 && !IsBreak(c) && forall i | 0 <= i < |parts| :: OneLine(parts[i])
    ensures OneLine(Join(parts, c))
  {
    hide IsBreak;
    if |parts| > 1 {
      JoinOneLine(parts[1..], c);
    }
  }

  function LineCells(name: string, cells: seq<string>): seq<string> {
    [name] + if cells == [] then [""] else cells
  }

  /** A rendered line has its cells, whatever clean text they hold. */
  lemma CellsOfLine(name: string, cells: seq<string>)
    requires Clean(name) && forall i | 0 <= i < |cells| :: Clean(cells[i])
    ensures Cells(Line(name, cells)) == LineCells(name, cells)
    ensures IsTableLine(Line(name, cells)) && OneLine(Line(name, cells)) && Line(name, cells) != ""
  {
    hide Strip, Split, Join, IsSpace, IsBreak;
    var all := LineCells(name, cells);
    var pads := Padded(all);
    var body := Join(pads, '|');
    var line := "|" + body + "|";
    assert Line(name, cells) == line;
    JoinEnds(pads, '|');
    assert !IsSpace('|') && IsSpace(' ') && !IsBreak('|') && !IsBreak(' ') by { CharKinds(); }
    assert line[0] == '|' && line[|line| - 1] == '|';
    StripPadded(Spaces, "", line, "");
    assert "" + line + "" == line;
    StripPadded(Bars, "|", body, "|");
    assert forall i | 0 <= i < |pads| :: '|' !in pads[i];
    SplitJoin(pads, '|');
    forall i | 0 <= i < |all|
      ensures Strip(Spaces, pads[i]) == all[i]
    {
      StripPadded(Spaces, " ", all[i], " ");
    }
    assert StripAll(pads) == all;
    JoinOneLine(pads, '|');
  }

  lemma CharKinds()
    ensures !IsSpace('|') && IsSpace(' ') && !IsBreak('|') && !IsBreak(' ')
  {
  }

  lemma TitleClean(c: Col)
    ensures Clean(Title(c)) && ColOf(Title(c)) == Some(c)
  {
    match c {
      case SelfPair =>
      case MlsRs =>
      case MlsPp =>
    }
  }

  lemma FixedTextClean()
    ensures Clean(CORNER) && Clean("") && Clean(DASH)
  {
  }

  lemma {:induction false} SeparatorIsLine(cols: seq<Col>)
    ensures IsTableLine(Separator(cols)) && OneLine(Separator(cols))
    ensures var s := Separator(cols); |s| > 0 && s[0] == '|' && s[|s| - 1] == '|'
  {
    hide IsSpace, IsBreak, Strip;
    SeparatorEnds(cols);
    CharKinds();
    var s := Separator(cols);
    StripPadded(Spaces, "", s, "");
    assert "" + s + "" == s;
  }

  lemma {:induction false} SeparatorEnds(cols: seq<Col>)
    ensures var s := Separator(cols); |s| > 0 && s[0] == '|' && s[|s| - 1] == '|' && OneLine(s)
  {
    if cols != [] {
      SeparatorEnds(cols[..|cols| - 1]);
    }
  }

  /** The keys a rendered header is read as: the columns, or one unknown column. */
  function HeaderKeys(cols: seq<Col>): seq<Option<Col>> {
    if cols == [] then [None] else seq(|cols|, i requires 0 <= i < |cols| => Some(cols[i]))
  }

  lemma HeaderReads(cols: seq<Col>)
    ensures ColKeys(Cells(Line(CORNER, Titles(cols)))[1..]) == HeaderKeys(cols)
    ensures IsTableLine(Line(CORNER, Titles(cols))) && OneLine(Line(CORNER, Titles(cols)))
  {
    hide Cells, Line, Title, Clean, IsTableLine, OneLine;
    FixedTextClean();
    forall i | 0 <= i < |cols|
      ensures Clean(Titles(cols)[i]) && ColOf(Titles(cols)[i]) == Some(cols[i])
    {
      TitleClean(cols[i]);
    }
    CellsOfLine(CORNER, Titles(cols));
    if cols == [] {
      assert ColOf("") == None by { NoSuchTitle(); }
    }
  }

  lemma NoSuchTitle()
    ensures ColOf("") == None
  {
  }

  lemma {:induction false} KnownColsOf(keys: seq<Option<Col>>, cols: seq<Col>)
    requires |keys| == |cols| && forall i | 0 <= i < |keys| :: keys[i] == Some(cols[i])
    ensures KnownCols(keys) == cols
  {
    if keys != [] {
      KnownColsOf(keys[1..], cols[1..]);
      assert [cols[0]] + cols[1..] == cols;
    }
  }

  /** Reading the cells of a row back under its columns. */
  lemma {:induction false} RowOfCells(row: Row, keys: seq<Option<Col>>, cells: seq<string>, cols: seq<Col>)
    requires |keys| == |cells| == |cols|
    requires forall i | 0 <= i < |cols| :: keys[i] == Some(cols[i]) && cols[i] in row && cells[i] == row[cols[i]]
    ensures RowOf(keys, cells) == map c | c in cols :: CellOr(row, c)
  {
    if cols != [] {
      var n := |cols| - 1;
      RowOfCells(row, keys[..n], cells[..n], cols[..n]);
      assert cols == cols[..n] + [cols[n]];
    } else {
      assert RowOf(keys, cells) == map[];
    }
  }

  lemma FullRow(t: Table, n: string)
    requires CleanTable(t) && n in t.rows
    ensures var row, cells := t.rows[n], RowCells(t.rows[n], t.cols);
            && Clean(n)
            && (forall i | 0 <= i < |t.cols| :: t.cols[i] in row && cells[i] == row[t.cols[i]] && Clean(cells[i]))
            && row == map c | c in t.cols :: CellOr(row, c)
  {
    hide Clean;
    var row, cols := t.rows[n], t.cols;
    assert forall c | c in cols :: c in set d | d in cols;
  }

  function CellOr(row: Row, c: Col): string {
    if c in row then row[c] else DASH
  }

  lemma RowReads(t: Table, n: string)
    requires CleanTable(t) && n in t.rows
    ensures var line := Line(n, RowCells(t.rows[n], t.cols));
            && IsTableLine(line) && OneLine(line) && line != ""
            && Cells(line)[0] == n && RowOf(HeaderKeys(t.cols), Cells(line)[1..]) == t.rows[n]
  {
    hide Cells, Line, Clean, IsTableLine, OneLine, RowOf, CleanTable, CellOr;
    var row, cols := t.rows[n], t.cols;
    var cells := RowCells(row, cols);
    FullRow(t, n);
    CellsOfLine(n, cells);
    var line := Line(n, cells);
    if cols == [] {
      assert Cells(line)[1..] == [""];
      UnknownColumn("");
      assert row == map[];
    } else {
      assert Cells(line)[1..] == cells;
      RowOfCells(row, HeaderKeys(cols), cells, cols);
    }
  }

  lemma UnknownColumn(cell: string)
    ensures RowOf([None], [cell]) == map[]
  {
    var keys: seq<Option<Col>> := [None];
    assert keys[..0] == [];
  }

  lemma {:induction false} RowLinesRead(t: Table, names: seq<string>)
    requires CleanTable(t) && forall n | n in names :: n in t.rows
    ensures RowsOf(HeaderKeys(t.cols), RowLines(t, names)) == map n | n in names :: t.rows[n]
    ensures forall i | 0 <= i < |RowLines(t, names)| ::
              IsTableLine(RowLines(t, names)[i]) && OneLine(RowLines(t, names)[i]) && RowLines(t, names)[i] != ""
  {
    hide Cells, Line, IsTableLine, OneLine, RowOf, CleanTable, HeaderKeys, RowsOf;
    if names == [] {
      NoRows(HeaderKeys(t.cols));
    } else {
      var before, n := names[..|names| - 1], names[|names| - 1];
      RowLinesRead(t, before);
      RowReads(t, n);
      NameNotEmpty(t, n);
      RowsOfStep(HeaderKeys(t.cols), RowLines(t, before), Line(n, RowCells(t.rows[n], t.cols)));
      assert names == before + [n];
    }
  }

  lemma NameNotEmpty(t: Table, n: string)
    requires CleanTable(t) && n in t.rows
    ensures n != ""
  {
  }

  lemma {:induction false} AllTableLines(lines: seq<string>)
    requires forall i | 0 <= i < |lines| :: IsTableLine(lines[i])
    ensures TableLines(lines) == lines
  {
    hide IsTableLine;
    if lines != [] {
      AllTableLines(lines[1..]);
      assert [lines[0]] + lines[1..] == lines;
    }
  }

  /** Reading a rendered table returns the table. */
  lemma ParseRendered(t: Table)
    requires CleanTable(t)
    ensures ParseTable(TableText(t)) == t
  {
    hide Cells, Line, IsTableLine, OneLine, RowsOf, CleanTable, HeaderKeys, Lines, TableLines, KnownCols, ColKeys;
    var names := Sorted(t.rows.Keys);
    SortedIsSorted(t.rows.Keys);
    var lines := TextLinesOf(t);
    HeaderReads(t.cols);
    SeparatorIsLine(t.cols);
    RowLinesRead(t, names);
    LineNotEmpty(CORNER, Titles(t.cols));
    LinesJoin(lines);
    AllTableLines(lines);
    assert lines[2..] == RowLines(t, names);
    assert (map n | n in names :: t.rows[n]) == t.rows;
    assert KnownCols(HeaderKeys(t.cols)) == t.cols by { HeaderCols(t.cols); }
  }

  lemma LineNotEmpty(name: string, cells: seq<string>)
    ensures Line(name, cells) != ""
  {
  }

  lemma HeaderCols(cols: seq<Col>)
    ensures KnownCols(HeaderKeys(cols)) == cols
  {
    if cols != [] {
      KnownColsOf(HeaderKeys(cols), cols);
    }
  }

  // ------------------------------------------------- the laws of the merge

  lemma CellsClean(line: string)
    requires OneLine(line)
    ensures forall i | 0 <= i < |Cells(line)| :: Clean(Cells(line)[i])
  {
    hide IsBreak, IsSpace, Strip, Split;
    var s := Strip(Bars, Strip(Spaces, line));
    var parts := Split(s, '|');
    SplitParts(s, '|');
    forall i | 0 <= i < |parts|
      ensures Clean(Strip(Spaces, parts[i]))
    {
      var cell := Strip(Spaces, parts[i]);
      assert forall k | 0 <= k < |cell| :: cell[k] in line;
    }
  }

  lemma {:induction false} RowOfClean(keys: seq<Option<Col>>, cells: seq<string>)
    requires forall i | 0 <= i < |cells| :: Clean(cells[i])
    ensures CleanRow(RowOf(keys, cells))
  {
    hide Clean;
    if keys != [] && cells != [] {
      var n := (if |keys| < |cells| then |keys| else |cells|) - 1;
      RowOfClean(keys[..n], cells[..n]);
    }
  }

  predicate CleanRows(rows: map<string, Row>) {
    forall n | n in rows :: n != "" && Clean(n) && CleanRow(rows[n])
  }

  lemma {:induction false} RowsOfClean(keys: seq<Option<Col>>, lines: seq<string>)
    requires forall i | 0 <= i < |lines| :: OneLine(lines[i])
    ensures CleanRows(RowsOf(keys, lines))
  {
    hide Clean, Cells, CleanRow, OneLine;
    if lines != [] {
      var line := lines[|lines| - 1];
      RowsOfClean(keys, lines[..|lines| - 1]);
      CellsClean(line);
      RowOfClean(keys, Cells(line)[1..]);
    }
  }

  /** Whatever the text, what is read from it fits a table again. */
  lemma ParsedClean(block: string)
    ensures CleanRows(ParseTable(block).rows)
  {
    hide OneLine, CleanRows, Lines, Cells;
    var lines := TableLines(Lines(block));
    forall i | 0 <= i < |lines|
      ensures OneLine(lines[i])
    {
      assert lines[i] in Lines(block);
    }
    if |lines| >= 2 {
      RowsOfClean(ColKeys(Cells(lines[0])[1..]), lines[2..]);
    } else {
      NoCleanRows();
    }
  }

  lemma NoCleanRows()
    ensures CleanRows(map[])
  {
  }

  lemma CanonColsHold(seen: set<Col>)
    ensures forall c :: c in CanonCols(seen) <==> c in seen
  {
    forall c: Col
      ensures c in CanonCols(seen) <==> c in seen
    {
      match c {
        case SelfPair =>
        case MlsRs =>
        case MlsPp =>
      }
    }
  }

  lemma MergedRowClean(prior: map<string, Row>, latest: map<string, Row>, n: string, cols: set<Col>)
    requires CleanRows(prior) && CleanRows(latest)
    ensures CleanRow(MergedRow(prior, latest, n, cols))
  {
    hide Clean;
    assert Clean(DASH) by { FixedTextClean(); }
  }

  lemma MergedClean(prior: Table, latest: Table)
    requires CleanRows(prior.rows) && CleanRows(latest.rows)
    ensures CleanTable(MergedTable(prior, latest))
  {
    hide Clean, CanonCols, CleanRow;
    var cols := (set c | c in prior.cols) + (set c | c in latest.cols);
    CanonColsHold(cols);
    var t := MergedTable(prior, latest);
    forall n | n in t.rows
      ensures n != "" && Clean(n) && CleanRow(t.rows[n]) && t.rows[n].Keys == set c | c in t.cols
    {
      MergedRowClean(prior.rows, latest.rows, n, cols);
    }
  }

  /** For any two texts, the merged text reads as the merged table: per config
      and column the fresh cell if there is one, else the old one, else a dash. */
  lemma MergeReads(existing: string, latest: string)
    ensures ParseTable(Merge(existing, latest)) == MergedTable(ParseTable(existing), ParseTable(latest))
  {
    hide ParseTable, MergedTable, CleanRows, CleanTable, TableText;
    ParsedClean(existing);
    ParsedClean(latest);
    MergedClean(ParseTable(existing), ParseTable(latest));
    ParseRendered(MergedTable(ParseTable(existing), ParseTable(latest)));
  }

  function Position(c: Col): nat {
    match c
    case SelfPair => 0
    case MlsRs => 1
    case MlsPp => 2
  }

  lemma CanonColsOrdered(seen: set<Col>)
    ensures var cols := CanonCols(seen);
            forall i, j | 0 <= i < j < |cols| :: Position(cols[i]) < Position(cols[j])
  {
  }

  /** The same, cell by cell: after the merge the table has the configs of both
      texts, every row has the columns of both, each column once and in canonical
      order, and a cell is the fresh one if there is one, else the old one, else a
      dash. */
  lemma MergedCells(existing: string, latest: string)
    ensures var t, was, new' := ParseTable(Merge(existing, latest)), ParseTable(existing), ParseTable(latest);
            && t.rows.Keys == was.rows.Keys + new'.rows.Keys
            && (forall c :: c in t.cols <==> c in was.cols || c in new'.cols)
            && (forall i, j | 0 <= i < j < |t.cols| :: Position(t.cols[i]) < Position(t.cols[j]))
            && forall n | n in t.rows ::
                 && t.rows[n].Keys == (set c | c in t.cols)
                 && forall c | c in t.rows[n] ::
                      t.rows[n][c] ==
                        if n in new'.rows && c in new'.rows[n] then new'.rows[n][c]
                        else if n in was.rows && c in was.rows[n] then was.rows[n][c]
                        else "—"
  {
    hide ParseTable, Merge, CanonCols;
    MergeReads(existing, latest);
    var was, new' := ParseTable(existing), ParseTable(latest);
    var seen := (set c | c in was.cols) + (set c | c in new'.cols);
    CanonColsHold(seen);
    CanonColsOrdered(seen);
  }

  lemma MergedRowTwice(prior: map<string, Row>, latest: map<string, Row>, merged: map<string, Row>, n: string,
                       seen: set<Col>)
    requires n in merged && merged[n] == MergedRow(prior, latest, n, seen)
    ensures MergedRow(merged, latest, n, seen) == MergedRow(prior, latest, n, seen)
  {
  }

  lemma MergedTwice(prior: Table, latest: Table)
    ensures MergedTable(MergedTable(prior, latest), latest) == MergedTable(prior, latest)
  {
    hide CanonCols, MergedRow;
    var seen := (set c | c in prior.cols) + (set c | c in latest.cols);
    CanonColsHold(seen);
    var t := MergedTable(prior, latest);
    assert (set c | c in t.cols) + (set c | c in latest.cols) == seen;
    forall n | n in t.rows
      ensures MergedRow(t.rows, latest.rows, n, seen) == t.rows[n]
    {
      MergedRowTwice(prior.rows, latest.rows, t.rows, n, seen);
    }
    assert t.rows.Keys + latest.rows.Keys == t.rows.Keys;
  }

  /** Merging the same fresh table twice is merging it once. */
  lemma MergeIdempotent(existing: string, latest: string)
    ensures Merge(Merge(existing, latest), latest) == Merge(existing, latest)
  {
    hide ParseTable, MergedTable, TableText;
    MergeReads(existing, latest);
    MergedTwice(ParseTable(existing), ParseTable(latest));
  }

  // ------------------------------------------------------ the merge in code

  /** `sep.join(parts)` for the separator of the cells. */
  function JoinCells(parts: seq<string>): string {
    if parts == [] then "" else JoinOn(parts, " | ")
  }

  lemma {:induction false} JoinPadded(cells: seq<string>)
    requires cells != []
    ensures Join(Padded(cells), '|') == " " + JoinCells(cells) + " "
  {
    if |cells| > 1 {
      JoinPadded(cells[1..]);
      assert Padded(cells)[1..] == Padded(cells[1..]);
    }
  }

  lemma Regroup(bar: string, space: string, name: string, j: string)
    ensures bar + (space + name + space + bar + (space + j + space)) + bar
         == (bar + space) + name + (space + bar + space) + j + (space + bar)
  {
  }

  lemma LineText(name: string, cells: seq<string>)
    ensures Line(name, cells) == "| " + name + " | " + JoinCells(cells) + " |"
  {
    hide JoinCells, Join;
    var more := if cells == [] then [""] else cells;
    var all := [name] + more;
    var pads := Padded(all);
    assert pads[1..] == Padded(more);
    JoinPadded(more);
    assert JoinCells(more) == JoinCells(cells) by { JoinNothing(); }
    JoinTwo(pads, '|');
    assert Line(name, cells) == "|" + (" " + name + " " + "|" + (" " + JoinCells(cells) + " ")) + "|";
    Regroup("|", " ", name, JoinCells(cells));
    assert "|" + " " == "| " && " " + "|" + " " == " | " && " " + "|" == " |";
  }

  lemma JoinNothing()
    ensures JoinCells([""]) == JoinCells([])
  {
  }

  lemma JoinTwo(parts: seq<string>, c: char)
    requires |parts| > 1
    ensures Join(parts, c) == parts[0] + [c] + Join(parts[1..], c)
  {
  }

  lemma MergedCell(prior: Table, latest: Table, name: string, c: Col)
    requires name in MergedTable(prior, latest).rows && c in MergedTable(prior, latest).cols
    ensures var t := MergedTable(prior, latest);
            c in t.rows[name] && t.rows[name][c] == CellFor(prior.rows, latest.rows, name, c)
  {
    CanonColsHold((set c | c in prior.cols) + (set c | c in latest.cols));
  }

  method MergeRow(prior: Table, latest: Table, name: string, cols: seq<Col>) returns (line: string)
    requires cols == MergedTable(prior, latest).cols && name in MergedTable(prior, latest).rows
    ensures line == Line(name, RowCells(MergedTable(prior, latest).rows[name], cols))
  {
    hide MergedTable, Line, JoinCells, CellFor;
    ghost var row := MergedTable(prior, latest).rows[name];
    var cells: seq<string> := [];
    for k := 0 to |cols|
      invariant |cells| == k
      invariant forall j | 0 <= j < k :: cells[j] == RowCells(row, cols)[j]
    {
      MergedCell(prior, latest, name, cols[k]);
      cells := cells + [CellFor(prior.rows, latest.rows, name, cols[k])];
    }
    assert cells == RowCells(row, cols);
    LineText(name, cells);
    line := "| " + name + " | " + JoinCells(cells) + " |";
  }

  lemma MergedParts(prior: Table, latest: Table)
    ensures var t := MergedTable(prior, latest);
            && t.rows.Keys == prior.rows.Keys + latest.rows.Keys
            && t.cols == CanonCols((set c | c in prior.cols) + (set c | c in latest.cols))
  {
    hide CanonCols;
  }

  lemma RowLinesStep(t: Table, names: seq<string>, n: string)
    requires n in t.rows && forall m | m in names :: m in t.rows
    ensures RowLines(t, names + [n]) == RowLines(t, names) + [Line(n, RowCells(t.rows[n], t.cols))]
  {
    hide Line;
    assert (names + [n])[..|names|] == names;
  }

  method MergeTableBlock(existing: string, latest: string) returns (text: string)
    ensures text == Merge(existing, latest)
  {
    hide ParseTable, MergedTable, Line, Sorted, CanonCols, Separator, JoinCells, RowLines, Join;
    var oldRows, oldCols := ParseTableCells(existing);
    var newRows, newCols := ParseTableCells(latest);
    var prior, recent := Table(oldRows, oldCols), Table(newRows, newCols);
    ghost var t := MergedTable(prior, recent);
    MergedParts(prior, recent);
    var cols := CanonCols((set c | c in oldCols) + (set c | c in newCols));
    var configs := SortNames(oldRows.Keys + newRows.Keys);
    SortedIsSorted(oldRows.Keys + newRows.Keys);
    LineText(CORNER, Titles(cols));
    var out := ["| " + CORNER + " | " + JoinCells(Titles(cols)) + " |", Separator(cols)];
    ghost var head := out;
    NoRowLines(t);
    for i := 0 to |configs|
      invariant out == head + RowLines(t, configs[..i])
    {
      var line := MergeRow(prior, recent, configs[i], cols);
      RowLinesStep(t, configs[..i], configs[i]);
      assert configs[..i + 1] == configs[..i] + [configs[i]];
      out := out + [line];
    }
    assert configs[..|configs|] == configs;
    text := Join(out, '\n');
  }

  lemma NoRowLines(t: Table)
    ensures RowLines(t, []) == []
  {
  }

  /** The first two lines of a table with all three columns. */
  lemma HeaderText()
    ensures Line(CORNER, Titles([SelfPair, MlsRs, MlsPp]))
            == "| Scenario (config) | "
               + ("OpenMLS ↔ OpenMLS" + " | " + ("OpenMLS ↔ mls-rs" + " | " + "OpenMLS ↔ MLS++")) + " |"
    ensures Separator([SelfPair, MlsRs, MlsPp]) == "|---|:---:|:---:|:---:|"
    ensures Separator([]) == "|---|"
  {
    hide Line, Separator, JoinOn;
    var cols := [SelfPair, MlsRs, MlsPp];
    SeparatorText();
    LineText(CORNER, Titles(cols));
    var titles := Titles(cols);
    assert titles == [Title(SelfPair), Title(MlsRs), Title(MlsPp)];
    JoinThree(Title(SelfPair), Title(MlsRs), Title(MlsPp));
    assert "| " + CORNER + " | " == "| Scenario (config) | ";
  }

  lemma JoinThree(a: string, b: string, c: string)
    ensures JoinOn([a, b, c], " | ") == a + " | " + (b + " | " + c)
  {
    assert [a, b, c][1..] == [b, c] && [b, c][1..] == [c];
    assert JoinOn([c], " | ") == c;
    assert JoinOn([b, c], " | ") == b + " | " + c;
  }

  lemma SeparatorText()
    ensures Separator([SelfPair, MlsRs, MlsPp]) == "|---|:---:|:---:|:---:|"
    ensures Separator([]) == "|---|"
  {
    var cols := [SelfPair, MlsRs, MlsPp];
    assert cols[..2] == [SelfPair, MlsRs] && cols[..2][..1] == [SelfPair] && cols[..2][..1][..0] == [];
    assert Separator(cols[..2][..1]) == "|---|:---:|";
    assert Separator(cols[..2]) == "|---|:---:|:---:|";
  }
}
