/**
 * The line classifier shared by the three document scripts
 * (`create_word_doc.py`, `create_word_final.py`, `create_word_doc_exact.py`):
 * a walk over the Markdown lines that toggles code fences, skips blank lines,
 * reads tables, and sorts every other line into a heading, a list item, a
 * placeholder or a paragraph. The python-docx calls become block descriptors;
 * the regular-expression markup stripping is a pair of uninterpreted functions.
 */
module Markdown {
  import opened Wrappers
  import opened Text
  import opened PyStr
  import opened MarkdownTable

  /** Which of the three scripts: they differ in dropped lines, tables, headings and placeholder words. */
  datatype Script = WordDoc | WordFinal | WordExact

  /**
   * The `re.sub` chains: `inline` removes bold, italic and inline code (list
   * items); `plain` also replaces links by their text (paragraphs).
   */
  datatype Markup = Markup(inline: string -> string, plain: string -> string)

  /** What one document call adds. `Rule` is the empty paragraph that stands for a `---` line. */
  datatype Block =
    | Heading(text: string, level: int)
    | Rule
    | Bullet(text: string)
    | Numbered(text: string)
    | Paragraph(text: string)
    | Placeholder(text: string)
    | Code(lines: seq<string>)
    | Table(grid: Grid)

  /** Heading levels stay within what `add_heading` is given, and table rows match their header. */
  predicate WellFormed(b: Block) {
    && (b.Heading? ==> 1 <= b.level <= 5)
    && (b.Table? ==> forall k | 0 <= k < |b.grid.rows| :: |b.grid.rows[k]| == |b.grid.headers|)
  }

  predicate IsFence(line: string) {
    StartsWith(line, "```")
  }

  /** The title, contents and rule lines `create_word_final.py` throws away, inside code blocks too. */
  predicate Dropped(line: string) {
    StartsWith(line, "# ПОЯСНИТЕЛЬНАЯ ЗАПИСКА") || StartsWith(line, "## ОГЛАВЛЕНИЕ") || StartsWith(line, "---")
  }

  predicate Skips(s: Script, line: string) {
    s == WordFinal && Dropped(line)
  }

  /**
   * A table starts at line `i` (whose right-stripped form is `line`): the
   * stripped line starts with '|', it has no "---", and the next raw line has
   * one. `create_word_doc_exact.py` has no table branch.
   */
  predicate TableStart(s: Script, lines: seq<string>, i: nat, line: string) {
    && s != WordExact
    && StartsWith(Strip(line), "|") && !Contains(line, "---")
    && i + 1 < |lines| && Contains(lines[i + 1], "---")
  }

  function Hashes(n: nat): (h: string)
    ensures |h| == n && forall k | 0 <= k < n :: h[k] == '#'
  {
    seq(n, _ => '#')
  }

  /** The `'# '` … `'##### '` chain of `create_word_doc.py` and `create_word_doc_exact.py`. */
  function PrefixHeading(line: string): (r: Option<Block>)
    ensures r.Some? ==> r.value.Heading? && 1 <= r.value.level <= 5
  {
    if StartsWith(line, "# ") then Some(Heading(line[2..], 1))
    else if StartsWith(line, "## ") then Some(Heading(line[3..], 2))
    else if StartsWith(line, "### ") then Some(Heading(line[4..], 3))
    else if StartsWith(line, "#### ") then Some(Heading(line[5..], 4))
    else if StartsWith(line, "##### ") then Some(Heading(line[6..], 5))
    else None
  }

  /** The fixed section headings of `create_word_final.py`, tried in its order. */
  function FinalSpecial(line: string): (r: Option<Block>)
    ensures r.Some? ==> r.value.Heading? && 1 <= r.value.level <= 3
  {
    if StartsWith(line, "## ВВЕДЕНИЕ") then Some(Heading("Введение", 1))
    else if StartsWith(line, "## 1. ОПИСАНИЕ ПРОГРАММЫ") then Some(Heading("1. Описание программы", 1))
    else if StartsWith(line, "### 1.1.") then Some(Heading(line[4..], 2))
    else if StartsWith(line, "#### 1.1.1.") || StartsWith(line, "#### 1.1.2.")
            || StartsWith(line, "#### 1.2.") || StartsWith(line, "#### 1.3.") then Some(Heading(line[5..], 3))
    else if StartsWith(line, "## 2. СТРУКТУРА") then
      Some(Heading("2. Структура классов и их назначение в рамках проекта", 1))
    else if StartsWith(line, "### 2.1.") || StartsWith(line, "### 2.2.") then Some(Heading(line[4..], 2))
    else if StartsWith(line, "#### 2.1.") || StartsWith(line, "#### 2.2.") then Some(Heading(line[5..], 3))
    else if StartsWith(line, "## ЗАКЛЮЧЕНИЕ") then Some(Heading("Заключение", 1))
    else if StartsWith(line, "## СПИСОК") then Some(Heading("Список использованных источников", 1))
    else if StartsWith(line, "## ПРИЛОЖЕНИЯ") then Some(Heading("Приложения", 1))
    else None
  }

  /**
   * The generic heading of `create_word_final.py`: the text is the line
   * without its leading '#'s and whitespace; the level is the length of what
   * was removed, minus one, capped at 5; level 0 adds nothing.
   */
  function GenericHeading(line: string): (r: seq<Block>)
    ensures |r| <= 1
    ensures forall b | b in r :: b.Heading? && 1 <= b.level <= 5
  {
    var text := Strip(LStripChar(line, '#'));
    var level := |line| - |text| - 1;
    if level > 0 then [Heading(text, if level < 5 then level else 5)] else []
  }

  function LeadingDigits(s: string): (n: nat)
    ensures n <= |s| && forall k | 0 <= k < n :: IsDigit(s[k])
    ensures n < |s| ==> !IsDigit(s[n])
  {
    if s != [] && IsDigit(s[0]) then 1 + LeadingDigits(s[1..]) else 0
  }

  /** The length of a `^\d+\.\s` match at the start of the line, if there is one. */
  function NumberPrefix(line: string): (r: Option<nat>)
    ensures r.Some? ==> 3 <= r.value <= |line|
    ensures r.Some? ==> var d := r.value - 2;
              (forall k | 0 <= k < d :: IsDigit(line[k])) && line[d] == '.' && IsSpace(line[d + 1])
  {
    var d := LeadingDigits(line);
    if 1 <= d && d + 1 < |line| && line[d] == '.' && IsSpace(line[d + 1]) then Some(d + 2) else None
  }

  const Camera: string := "\U{1F4F8}"

  /** The words that mark a screenshot placeholder; the final script looks for "Рисунок" instead of "СКРИНШОТ". */
  predicate IsPlaceholder(s: Script, text: string) {
    || Contains(text, Camera)
    || (s == WordFinal && Contains(text, "Рисунок"))
    || (s != WordFinal && Contains(text, "СКРИНШОТ"))
    || Contains(text, "[Здесь необходимо")
  }

  /** The last branch: the line without markup, set in grey italics when it is a placeholder. */
  function TextBlock(s: Script, m: Markup, line: string): Block {
    var text := m.plain(line);
    if IsPlaceholder(s, text) then Placeholder(text) else Paragraph(text)
  }

  /** The bullet, numbered and text branches every script ends with. */
  function ListOrText(s: Script, m: Markup, line: string): Block {
    var t := Strip(line);
    if (s == WordFinal && StartsWith(t, "− ")) || StartsWith(t, "- ") then Bullet(m.inline(t[2..]))
    else if NumberPrefix(line).Some? then Numbered(m.inline(line[NumberPrefix(line).value..]))
    else TextBlock(s, m, line)
  }

  /** What a non-blank line outside code and tables adds: at most one block. */
  function Classify(s: Script, m: Markup, line: string): (r: seq<Block>)
    ensures |r| <= 1
    ensures forall b | b in r :: WellFormed(b)
  {
    if s == WordFinal then
      if FinalSpecial(line).Some? then [FinalSpecial(line).value]
      else if StartsWith(line, "#") then GenericHeading(line)
      else [ListOrText(s, m, line)]
    else
      if PrefixHeading(line).Some? then [PrefixHeading(line).value]
      else if Strip(line) == "---" then [Rule]
      else [ListOrText(s, m, line)]
  }

  /**
   * The `while i < len(lines)` loop. `code` is `None` outside a code block and
   * holds the lines collected so far inside one; a block still open when the
   * lines run out adds nothing.
   */
  function Run(s: Script, m: Markup, lines: seq<string>, i: nat, code: Option<seq<string>>): (r: seq<Block>)
    requires i <= |lines|
    ensures forall b | b in r :: WellFormed(b)
    decreases |lines| - i
  {
    if i == |lines| then []
    else
      var line := RStrip(lines[i]);
      if Skips(s, line) then Run(s, m, lines, i + 1, code)
      else if IsFence(line) then
        if code.Some? then [Code(code.value)] + Run(s, m, lines, i + 1, None)
        else Run(s, m, lines, i + 1, Some([]))
      else if code.Some? then Run(s, m, lines, i + 1, Some(code.value + [line]))
      else if Strip(line) == [] then Run(s, m, lines, i + 1, None)
      else if TableStart(s, lines, i, line) then
        var (grid, last) := AddTable(lines, i);
        RowsFitHeader(lines, i);
        [Table(grid)] + Run(s, m, lines, last + 1, None)
      else Classify(s, m, line) + Run(s, m, lines, i + 1, None)
  }

  /** The whole document body, from the first line and outside any code block. */
  function Convert(s: Script, m: Markup, lines: seq<string>): seq<Block> {
    Run(s, m, lines, 0, None)
  }

  /**
   * A character lxml accepts in element text: C0 controls other than tab, line
   * feed and carriage return make python-docx raise ValueError.
   */
  predicate XmlChar(c: char) {
    c >= ' ' || c == '\t' || c == '\n' || c == '\r'
  }

  predicate XmlText(t: string) {
    forall k | 0 <= k < |t| :: XmlChar(t[k])
  }

  /**
   * Every string the block hands to python-docx, as heading, run or cell text,
   * is one lxml accepts. The code lines are joined with '\n', which it accepts.
   */
  predicate XmlSafe(b: Block) {
    match b
    case Heading(text, _) => XmlText(text)
    case Rule => true
    case Bullet(text) => XmlText(text)
    case Numbered(text) => XmlText(text)
    case Paragraph(text) => XmlText(text)
    case Placeholder(text) => XmlText(text)
    case Code(lines) => forall k | 0 <= k < |lines| :: XmlText(lines[k])
    case Table(grid) =>
      && (forall k | 0 <= k < |grid.headers| :: XmlText(grid.headers[k]))
      && (forall r, c | 0 <= r < |grid.rows| && 0 <= c < |grid.rows[r]| :: XmlText(grid.rows[r][c]))
  }

  /**
   * A block that stops the script before `doc.save`. Any script stops at text
   * lxml refuses. Besides, python-docx adds no run for an empty text, so the
   * `p.runs[0]` of the bullet, numbered and plain-text branches of
   * `create_word_final.py` and `create_word_doc_exact.py` raises IndexError;
   * `create_word_doc.py` never indexes the runs, and every other branch adds
   * its run itself.
   */
  predicate Fails(s: Script, b: Block) {
    || !XmlSafe(b)
    || (s != WordDoc && (b.Bullet? || b.Numbered? || b.Paragraph?) && b.text == [])
  }

  /** No block of `bs` makes the script stop. */
  predicate Saves(s: Script, bs: seq<Block>) {
    bs == [] || (!Fails(s, bs[0]) && Saves(s, bs[1..]))
  }

  lemma {:induction false} SavesAll(s: Script, bs: seq<Block>)
    ensures Saves(s, bs) <==> forall k | 0 <= k < |bs| :: !Fails(s, bs[k])
  {
    if bs != [] {
      SavesAll(s, bs[1..]);
      assert forall k | 1 <= k < |bs| :: bs[k] == bs[1..][k - 1];
    }
  }

  /**
   * The saved document: the blocks of the walk, or `None` when the script
   * stops at a failing block before `doc.save` is reached.
   */
  function Document(s: Script, m: Markup, lines: seq<string>): (r: Option<seq<Block>>)
    ensures r.Some? <==> forall k | 0 <= k < |Convert(s, m, lines)| :: !Fails(s, Convert(s, m, lines)[k])
    ensures r.Some? ==> r.value == Convert(s, m, lines)
    ensures s == WordDoc ==> (r.Some? <==> forall k | 0 <= k < |Convert(s, m, lines)| :: XmlSafe(Convert(s, m, lines)[k]))
  {
    var blocks := Convert(s, m, lines);
    SavesAll(s, blocks);
    if Saves(s, blocks) then Some(blocks) else None
  }
}
