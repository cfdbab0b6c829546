/**
 * The table reader of the document scripts: `parse_table_line` and the row
 * scan of `add_table_from_markdown`, which returns the index of the table's
 * last line so that the caller resumes just after it.
 */
module MarkdownTable {
  import opened Text
  import opened PyStr

  /** What `add_table_from_markdown` puts into the document: a header row and data rows of equal width. */
  datatype Grid = Grid(headers: seq<string>, rows: seq<seq<string>>)

  /** The line with surrounding whitespace stripped and at most one '|' removed at each edge. */
  function Inner(line: string): (r: string)
    ensures |r| <= |Strip(line)|
  {
    var t := Strip(line);
    var a := if StartsWith(t, "|") then t[1..] else t;
    if EndsWith(a, "|") then a[..|a| - 1] else a
  }

  /** `parse_table_line`: the pieces of the inner line between bars, each stripped. */
  function ParseTableLine(line: string): (cells: seq<string>)
    ensures |cells| == Count(Inner(line), '|') + 1
    ensures forall k | 0 <= k < |cells| :: '|' !in cells[k]
    ensures forall k | 0 <= k < |cells| ::
              cells[k] != [] ==> !IsSpace(cells[k][0]) && !IsSpace(cells[k][|cells[k]| - 1])
  {
    var parts := Split(Inner(line), '|');
    assert forall k | 0 <= k < |parts| :: parts[k] in parts;
    seq(|parts|, k requires 0 <= k < |parts| => Strip(parts[k]))
  }

  /** The cells are the stripped pieces of the inner line, and the pieces joined by bars are the inner line. */
  lemma CellsArePieces(line: string)
    ensures var parts := Split(Inner(line), '|');
            Join(parts, '|') == Inner(line)
            && |ParseTableLine(line)| == |parts|
            && forall k | 0 <= k < |parts| :: ParseTableLine(line)[k] == Strip(parts[k])
  {
    JoinSplit(Inner(line), '|');
  }

  /** The row test of the scan: the stripped line starts with '|'. */
  predicate IsRowLine(line: string) {
    StartsWith(Strip(line), "|")
  }

  /** The `while` loop of `add_table_from_markdown`: the first index from `j` on that is not a row line. */
  function TableEnd(lines: seq<string>, j: nat): (e: nat)
    requires j <= |lines|
    ensures j <= e <= |lines|
    ensures forall k | j <= k < e :: IsRowLine(lines[k])
    ensures e < |lines| ==> !IsRowLine(lines[e])
    decreases |lines| - j
  {
    if j < |lines| && IsRowLine(lines[j]) then TableEnd(lines, j + 1) else j
  }

  /** A data row fitted to `n` columns: extra cells are dropped, missing ones stay empty. */
  function FitRow(cells: seq<string>, n: nat): (row: seq<string>)
    ensures |row| == n
    ensures forall j | 0 <= j < n && j < |cells| :: row[j] == cells[j]
    ensures forall j | |cells| <= j < n :: row[j] == []
  {
    seq(n, j requires 0 <= j < n => if j < |cells| then cells[j] else [])
  }

  /**
   * `add_table_from_markdown(doc, lines, start)`: the header line, the
   * separator skipped, the data rows up to the first non-row line; the
   * returned index is that of the table's last line.
   */
  function AddTable(lines: seq<string>, start: nat): (r: (Grid, nat))
    requires start + 1 < |lines|
  {
    ScanTable(lines, start, ParseTableLine)
  }

  /** The scan of `add_table_from_markdown` with the line parser as a parameter. */
  function ScanTable(lines: seq<string>, start: nat, parse: string -> seq<string>): (r: (Grid, nat))
    requires start + 1 < |lines|
    ensures start + 1 <= r.1 < |lines|
    ensures r.0.headers == parse(lines[start])
    ensures |r.0.rows| == r.1 - (start + 1)
    ensures forall k | start + 2 <= k <= r.1 :: IsRowLine(lines[k])
    ensures r.1 + 1 < |lines| ==> !IsRowLine(lines[r.1 + 1])
    ensures forall k | 0 <= k < |r.0.rows| ::
              r.0.rows[k] == FitRow(parse(lines[start + 2 + k]), |r.0.headers|)
  {
    var headers := parse(lines[start]);
    var e := TableEnd(lines, start + 2);
    (Grid(headers, DataRows(lines, start + 2, e, |headers|, parse)), e - 1)
  }

  /** The lines `lo .. hi`, each parsed by `parse` and fitted to `n` columns. */
  function DataRows(lines: seq<string>, lo: nat, hi: nat, n: nat, parse: string -> seq<string>): (rows: seq<seq<string>>)
    requires lo <= hi <= |lines|
    ensures |rows| == hi - lo
    ensures forall k | 0 <= k < |rows| :: rows[k] == FitRow(parse(lines[lo + k]), n)
    decreases hi - lo
  {
    if lo == hi then []
    else
      var rest := DataRows(lines, lo + 1, hi, n, parse);
      var rows := [FitRow(parse(lines[lo]), n)] + rest;
      assert forall k | 1 <= k < |rows| :: rows[k] == rest[k - 1] && lo + k == (lo + 1) + (k - 1);
      rows
  }

  /** Every row of a table has exactly as many cells as its header. */
  lemma RowsFitHeader(lines: seq<string>, start: nat)
    requires start + 1 < |lines|
    ensures var g := AddTable(lines, start).0;
            forall k | 0 <= k < |g.rows| :: |g.rows[k]| == |g.headers|
  {
  }

  /** The returned index moves past the separator, so the caller's `i + 1` always advances by at least two. */
  lemma TableAdvances(lines: seq<string>, start: nat)
    requires start + 1 < |lines|
    ensures AddTable(lines, start).1 + 1 >= start + 2
  {
  }
  /** A header line with outer bars gives one cell per column, each trimmed. */
  lemma TwoCells(line: string)
    requires line == "| a | b |"
    ensures ParseTableLine(line) == ["a", "b"]
  {
    var inner := " a | b ";
    InnerOfExample(line, inner);
    SplitExample(inner);
    StripOne(" a ");
    StripOne(" b ");
  }

  /** The bars at both edges of the example go; the spaces inside stay. */
  lemma InnerOfExample(line: string, inner: string)
    requires line == "| a | b |" && inner == " a | b "
    ensures Inner(line) == inner
  {
    StripTrimmed(line);
    assert line[1..] == " a | b |";
    assert line[1..][..|line[1..]| - 1] == inner;
  }

  /** The example's inner line has one bar, so two pieces. */
  lemma SplitExample(inner: string)
    requires inner == " a | b "
    ensures Split(inner, '|') == [" a ", " b "]
  {
    SplitTail(" b ");
    assert Split("| b ", '|') == [[]] + [" b "] by { assert "| b "[1..] == " b "; }
    SplitPlain(" | b ", "| b ", [], [" b "]);
    assert [' '] + [] == " ";
    SplitPlain("a | b ", " | b ", " ", [" b "]);
    assert ['a'] + " " == "a ";
    SplitPlain(inner, "a | b ", "a ", [" b "]);
    assert [' '] + "a " == " a ";
  }

  /** The last piece of the example has no bar at all. */
  lemma SplitTail(cell: string)
    requires cell == " b "
    ensures Split(cell, '|') == [cell]
  {
    assert " "[1..] == [];
    assert Split([], '|') == [[]] + [];
    SplitPlain(" ", [], [], []);
    assert [' '] + [] == " ";
    SplitPlain("b ", " ", " ", []);
    assert ['b'] + " " == "b ";
    SplitPlain(" b ", "b ", "b ", []);
    assert [' '] + "b " == " b ";
  }

  /** A first character other than the separator joins the first piece. */
  lemma SplitPlain(s: string, rest: string, first: string, others: seq<string>)
    requires s != [] && s[0] != '|' && s[1..] == rest
    requires Split(rest, '|') == [first] + others
    ensures Split(s, '|') == [[s[0]] + first] + others
  {
    assert Split(rest, '|')[1..] == others;
  }

  /** A one-character cell padded by one space on each side strips to the character. */
  lemma StripOne(cell: string)
    requires |cell| == 3 && cell[0] == ' ' && cell[2] == ' ' && !IsSpace(cell[1])
    ensures Strip(cell) == [cell[1]]
  {
    assert TrailingSpace(cell[..2]) == 2;
    assert TrailingSpace(cell) == 2;
    var p := RStrip(cell);
    assert p == cell[..2];
    assert LeadingSpace(p[1..]) == 0;
    assert LeadingSpace(p) == 1;
  }
}
