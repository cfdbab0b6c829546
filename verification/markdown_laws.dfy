/** What the line walk of the document scripts guarantees, stated over `Markdown.Run`. */
module MarkdownLaws {
  import opened Wrappers
  import opened Text
  import opened PyStr
  import opened MarkdownTable
  import opened Markdown

  /** A fence still open when the lines run out adds nothing: the collected lines are lost. */
  lemma {:induction false} UnterminatedFence(s: Script, m: Markup, lines: seq<string>, i: nat, acc: seq<string>)
    requires i <= |lines|
    requires forall k | i <= k < |lines| :: !IsFence(RStrip(lines[k]))
    ensures Run(s, m, lines, i, Some(acc)) == []
    decreases |lines| - i
  {
    if i < |lines| {
      var line := RStrip(lines[i]);
      if Skips(s, line) {
        UnterminatedFence(s, m, lines, i + 1, acc);
      } else {
        UnterminatedFence(s, m, lines, i + 1, acc + [line]);
      }
    }
  }

  /** The right-stripped lines a code block keeps; the final script leaves out its dropped lines. */
  function Collected(s: Script, ls: seq<string>): (r: seq<string>)
    ensures s != WordFinal ==> |r| == |ls| && forall k | 0 <= k < |ls| :: r[k] == RStrip(ls[k])
  {
    if ls == [] then []
    else (if Skips(s, RStrip(ls[0])) then [] else [RStrip(ls[0])]) + Collected(s, ls[1..])
  }

  lemma FenceNotDropped(line: string)
    requires IsFence(line)
    ensures !Dropped(line)
  {
    assert line[0] == line[..3][0] == '`';
  }

  /** The line a code block gains from `line`: nothing for a dropped line, the line itself otherwise. */
  function Kept(s: Script, line: string): seq<string> {
    if Skips(s, line) then [] else [line]
  }

  /** One step inside a block: a line that is not a fence is collected (unless dropped). */
  lemma CodeStep(s: Script, m: Markup, lines: seq<string>, i: nat, acc: seq<string>)
    requires i < |lines| && !IsFence(RStrip(lines[i]))
    ensures Run(s, m, lines, i, Some(acc)) == Run(s, m, lines, i + 1, Some(acc + Kept(s, RStrip(lines[i]))))
  {
    assert acc + [] == acc;
  }

  lemma CollectedStep(s: Script, lines: seq<string>, i: nat, j: nat)
    requires i < j <= |lines|
    ensures Collected(s, lines[i..j]) == Kept(s, RStrip(lines[i])) + Collected(s, lines[i + 1..j])
  {
    assert lines[i..j][0] == lines[i];
    assert lines[i..j][1..] == lines[i + 1..j];
  }

  /** Inside a block every line up to the closing fence is collected, in order; the fence emits the block. */
  lemma {:induction false} CodeBlock(s: Script, m: Markup, lines: seq<string>, i: nat, j: nat, acc: seq<string>)
    requires i <= j < |lines|
    requires forall k | i <= k < j :: !IsFence(RStrip(lines[k]))
    requires IsFence(RStrip(lines[j]))
    ensures Run(s, m, lines, i, Some(acc))
            == [Code(acc + Collected(s, lines[i..j]))] + Run(s, m, lines, j + 1, None)
    decreases j - i
  {
    if i == j {
      CloseFence(s, m, lines, j, acc);
      assert lines[i..j] == [];
      assert acc + [] == acc;
    } else {
      var next := acc + Kept(s, RStrip(lines[i]));
      CodeStep(s, m, lines, i, acc);
      CodeBlock(s, m, lines, i + 1, j, next);
      CollectedStep(s, lines, i, j);
      assert acc + Collected(s, lines[i..j]) == next + Collected(s, lines[i + 1..j]);
    }
  }

  /** Inside a block the closing fence emits the collected lines and the walk resumes outside code. */
  lemma CloseFence(s: Script, m: Markup, lines: seq<string>, j: nat, acc: seq<string>)
    requires j < |lines| && IsFence(RStrip(lines[j]))
    ensures Run(s, m, lines, j, Some(acc)) == [Code(acc)] + Run(s, m, lines, j + 1, None)
  {
    FenceNotDropped(RStrip(lines[j]));
  }

  /** A fenced block outside code becomes one code block holding the lines between the fences. */
  lemma FencedCode(s: Script, m: Markup, lines: seq<string>, i: nat, j: nat)
    requires i < j < |lines|
    requires IsFence(RStrip(lines[i])) && IsFence(RStrip(lines[j]))
    requires forall k | i < k < j :: !IsFence(RStrip(lines[k]))
    ensures Run(s, m, lines, i, None)
            == [Code(Collected(s, lines[i + 1..j]))] + Run(s, m, lines, j + 1, None)
  {
    OpenFence(s, m, lines, i);
    CodeBlock(s, m, lines, i + 1, j, []);
    assert [] + Collected(s, lines[i + 1..j]) == Collected(s, lines[i + 1..j]);
  }

  /** Outside code a fence line opens an empty block and the walk moves on. */
  lemma OpenFence(s: Script, m: Markup, lines: seq<string>, i: nat)
    requires i < |lines| && IsFence(RStrip(lines[i]))
    ensures Run(s, m, lines, i, None) == Run(s, m, lines, i + 1, Some([]))
  {
    FenceNotDropped(RStrip(lines[i]));
  }

  /** Outside code a blank line adds nothing. */
  lemma BlankSkipped(s: Script, m: Markup, lines: seq<string>, i: nat)
    requires i < |lines| && AllSpace(lines[i])
    ensures Run(s, m, lines, i, None) == Run(s, m, lines, i + 1, None)
  {
    BlankRStrip(lines[i]);
  }

  /** A line that differs from `p` at some index of `p` does not start with `p`. */
  lemma Differs(line: string, p: string, k: nat)
    requires k < |p| && k < |line| && line[k] != p[k]
    ensures !StartsWith(line, p)
  {
    if |p| <= |line| {
      assert line[..|p|][k] == line[k];
    }
  }

  /** `'# '` to `'##### '` give levels 1 to 5, with the prefix removed. */
  lemma HeadingPrefix(s: Script, m: Markup, n: nat, t: string)
    requires s != WordFinal && 1 <= n <= 5
    ensures Classify(s, m, Hashes(n) + " " + t) == [Heading(t, n)]
  {
    var line := Hashes(n) + " " + t;
    assert line[..n + 1] == Hashes(n) + " ";
    assert line[n + 1..] == t;
    assert forall k | 0 <= k < n :: line[k] == '#';
    assert line[n] == ' ';
    if n == 1 {
      assert Hashes(1) + " " == "# ";
    } else if n == 2 {
      Differs(line, "# ", 1);
      assert Hashes(2) + " " == "## ";
    } else if n == 3 {
      Differs(line, "# ", 1);
      Differs(line, "## ", 2);
      assert Hashes(3) + " " == "### ";
    } else if n == 4 {
      Differs(line, "# ", 1);
      Differs(line, "## ", 2);
      Differs(line, "### ", 3);
      assert Hashes(4) + " " == "#### ";
    } else {
      Differs(line, "# ", 1);
      Differs(line, "## ", 2);
      Differs(line, "### ", 3);
      Differs(line, "#### ", 4);
      assert Hashes(5) + " " == "##### ";
    }
  }

  /** Six or more hashes are no heading in these two scripts: the line is text. */
  lemma SixHashesAreText(s: Script, m: Markup, t: string)
    requires s != WordFinal
    ensures Classify(s, m, Hashes(6) + " " + t) == [TextBlock(s, m, Hashes(6) + " " + t)]
  {
    var line := Hashes(6) + " " + t;
    assert forall k | 0 <= k < 6 :: line[k] == '#';
    Differs(line, "# ", 1);
    Differs(line, "## ", 2);
    Differs(line, "### ", 3);
    Differs(line, "#### ", 4);
    Differs(line, "##### ", 5);
    StripKeepsFirst(line);
    var u := Strip(line);
    Differs(u, "---", 0);
    Differs(u, "- ", 0);
    assert LeadingDigits(line) == 0;
  }

  lemma LStripHashes(n: nat, rest: string)
    requires rest == [] || rest[0] != '#'
    ensures LStripChar(Hashes(n) + rest, '#') == rest
  {
    if n > 0 {
      assert (Hashes(n) + rest)[1..] == Hashes(n - 1) + rest;
      LStripHashes(n - 1, rest);
    } else {
      assert Hashes(0) + rest == rest;
    }
  }

  /** The generic heading of `n` hashes, whitespace `w` and the text `t`. */
  lemma GenericHeadingOf(line: string, n: nat, w: string, t: string)
    requires line == Hashes(n) + w + t
    requires n >= 1 && AllSpace(w)
    requires t != [] && t[0] != '#' && !IsSpace(t[0]) && !IsSpace(t[|t| - 1])
    ensures var level := n + |w| - 1;
            GenericHeading(line) == if level == 0 then [] else [Heading(t, if level < 5 then level else 5)]
  {
    HeadingText(line, n, w, t);
    assert |line| == |Hashes(n)| + |w| + |t|;
    var level := |line| - |t| - 1;
    assert GenericHeading(line) == if level > 0 then [Heading(t, if level < 5 then level else 5)] else [];
  }

  /** Stripping the hashes and then the whitespace of `n` hashes, `w` and `t` leaves `t`. */
  lemma HeadingText(line: string, n: nat, w: string, t: string)
    requires line == Hashes(n) + w + t
    requires AllSpace(w)
    requires t != [] && t[0] != '#' && !IsSpace(t[0]) && !IsSpace(t[|t| - 1])
    ensures Strip(LStripChar(line, '#')) == t
  {
    var rest := w + t;
    assert rest[0] != '#' by {
      if w != [] {
        assert rest[0] == w[0];
      } else {
        assert rest[0] == t[0];
      }
    }
    assert line == Hashes(n) + rest;
    LStripHashes(n, rest);
    StripPadded(w, t);
  }

  /**
   * The final script's generic heading counts the whitespace after the hashes
   * too: `n` hashes, then `|w|` whitespace characters, give level n + |w| - 1.
   */
  lemma FinalHeadingLevel(m: Markup, n: nat, w: string, t: string)
    requires n >= 1 && AllSpace(w)
    requires t != [] && t[0] != '#' && !IsSpace(t[0]) && !IsSpace(t[|t| - 1])
    requires FinalSpecial(Hashes(n) + w + t).None?
    ensures var level := n + |w| - 1;
            Classify(WordFinal, m, Hashes(n) + w + t)
            == if level == 0 then [] else [Heading(t, if level < 5 then level else 5)]
  {
    var line := Hashes(n) + w + t;
    assert line[0] == Hashes(n)[0] == '#';
    assert line[..1] == "#";
    assert Classify(WordFinal, m, line) == GenericHeading(line);
    GenericHeadingOf(line, n, w, t);
  }

  /** None of the fixed section headings matches a line whose second character is not '#'. */
  lemma NotSpecial(line: string)
    requires 2 <= |line| && line[1] != '#'
    ensures FinalSpecial(line).None?
  {
    Differs(line, "## ВВЕДЕНИЕ", 1);
    Differs(line, "## 1. ОПИСАНИЕ ПРОГРАММЫ", 1);
    Differs(line, "### 1.1.", 1);
    Differs(line, "#### 1.1.1.", 1);
    Differs(line, "#### 1.1.2.", 1);
    Differs(line, "#### 1.2.", 1);
    Differs(line, "#### 1.3.", 1);
    Differs(line, "## 2. СТРУКТУРА", 1);
    Differs(line, "### 2.1.", 1);
    Differs(line, "### 2.2.", 1);
    Differs(line, "#### 2.1.", 1);
    Differs(line, "#### 2.2.", 1);
    Differs(line, "## ЗАКЛЮЧЕНИЕ", 1);
    Differs(line, "## СПИСОК", 1);
    Differs(line, "## ПРИЛОЖЕНИЯ", 1);
  }

  /** In the final script "#Title", a hash glued to its text, adds nothing at all. */
  lemma GluedHashEmitsNothing(m: Markup, t: string)
    requires t != [] && t[0] != '#' && !IsSpace(t[0]) && !IsSpace(t[|t| - 1])
    ensures Classify(WordFinal, m, "#" + t) == []
  {
    var line := "#" + t;
    assert line == Hashes(1) + [] + t;
    NotSpecial(line);
    FinalHeadingLevel(m, 1, [], t);
  }

  /** A line that does not start with '#' is no heading in any script. */
  lemma NoHash(line: string)
    requires line != [] && line[0] != '#'
    ensures FinalSpecial(line).None? && PrefixHeading(line).None? && !StartsWith(line, "#")
  {
    Differs(line, "## ВВЕДЕНИЕ", 0);
    Differs(line, "## 1. ОПИСАНИЕ ПРОГРАММЫ", 0);
    Differs(line, "### 1.1.", 0);
    Differs(line, "#### 1.1.1.", 0);
    Differs(line, "#### 1.1.2.", 0);
    Differs(line, "#### 1.2.", 0);
    Differs(line, "#### 1.3.", 0);
    Differs(line, "## 2. СТРУКТУРА", 0);
    Differs(line, "### 2.1.", 0);
    Differs(line, "### 2.2.", 0);
    Differs(line, "#### 2.1.", 0);
    Differs(line, "#### 2.2.", 0);
    Differs(line, "## ЗАКЛЮЧЕНИЕ", 0);
    Differs(line, "## СПИСОК", 0);
    Differs(line, "## ПРИЛОЖЕНИЯ", 0);
    Differs(line, "# ", 0);
    Differs(line, "## ", 0);
    Differs(line, "### ", 0);
    Differs(line, "#### ", 0);
    Differs(line, "##### ", 0);
    Differs(line, "#", 0);
  }

  /** A line whose strip starts with "- " is a bullet in every script, its first two characters removed. */
  lemma BulletLine(s: Script, m: Markup, line: string)
    requires StartsWith(Strip(line), "- ")
    ensures Classify(s, m, line) == [Bullet(m.inline(Strip(line)[2..]))]
  {
    var t := Strip(line);
    assert t[0] == t[..2][0] == '-' && t[1] == t[..2][1] == ' ';
    StripHead(line);
    NoHash(line);
    assert t != "---";
  }

  /** A line whose strip starts with "− " is a bullet in the final script only; the other two keep it as text. */
  lemma MinusSignBullet(s: Script, m: Markup, line: string)
    requires StartsWith(Strip(line), "− ")
    ensures s == WordFinal ==> Classify(s, m, line) == [Bullet(m.inline(Strip(line)[2..]))]
    ensures s != WordFinal ==> Classify(s, m, line) == [TextBlock(s, m, line)]
  {
    var t := Strip(line);
    assert t[0] == t[..2][0] == '−' && t[1] == t[..2][1] == ' ';
    StripHead(line);
    NoHash(line);
    assert t != "---";
    Differs(t, "- ", 0);
    assert !IsDigit(line[0]);
    assert NumberPrefix(line).None?;
  }

  lemma ClassifyNoTable(s: Script, m: Markup, line: string)
    ensures forall b | b in Classify(s, m, line) :: !b.Table?
  {
  }

  /** `create_word_doc_exact.py` never produces a table. */
  lemma {:induction false} ExactHasNoTables(m: Markup, lines: seq<string>, i: nat, code: Option<seq<string>>)
    requires i <= |lines|
    ensures forall b | b in Run(WordExact, m, lines, i, code) :: !b.Table?
    decreases |lines| - i
  {
    if i < |lines| {
      var line := RStrip(lines[i]);
      if IsFence(line) {
        ExactHasNoTables(m, lines, i + 1, if code.Some? then None else Some([]));
      } else if code.Some? {
        ExactHasNoTables(m, lines, i + 1, Some(code.value + [line]));
      } else {
        ClassifyNoTable(WordExact, m, line);
        ExactHasNoTables(m, lines, i + 1, None);
      }
    }
  }

  /** In `create_word_doc_exact.py` a line whose strip starts with '|' falls through to a paragraph. */
  lemma ExactBarLineIsText(m: Markup, line: string)
    requires StartsWith(Strip(line), "|")
    ensures Classify(WordExact, m, line) == [TextBlock(WordExact, m, line)]
  {
    StripHead(line);
    var t := Strip(line);
    assert t[0] == t[..1][0] == '|';
    assert line[0] != '#' && !IsDigit(line[0]);
    Differs(line, "# ", 0);
    Differs(line, "## ", 0);
    Differs(line, "### ", 0);
    Differs(line, "#### ", 0);
    Differs(line, "##### ", 0);
    assert PrefixHeading(line).None?;
    assert t != "---";
    Differs(t, "- ", 0);
    assert NumberPrefix(line).None?;
    assert ListOrText(WordExact, m, line) == TextBlock(WordExact, m, line);
  }

  /** A line with a bar and the separator under it starts a table; the walk resumes after its last row. */
  lemma TableThenResume(s: Script, m: Markup, lines: seq<string>, i: nat)
    requires s != WordExact && i + 1 < |lines|
    requires StartsWith(RStrip(lines[i]), "|") && !Contains(RStrip(lines[i]), "---")
    requires Contains(lines[i + 1], "---")
    ensures var (grid, last) := AddTable(lines, i);
            Run(s, m, lines, i, None) == [Table(grid)] + Run(s, m, lines, last + 1, None)
  {
    var line := RStrip(lines[i]);
    BarLine(line);
    assert TableStart(s, lines, i, line);
  }

  /** A line starting with '|' is no fence, is never dropped, and keeps its bar first after stripping. */
  lemma BarLine(line: string)
    requires StartsWith(line, "|")
    ensures !IsFence(line) && !Dropped(line) && Strip(line) != [] && StartsWith(Strip(line), "|")
  {
    assert line[0] == line[..1][0] == '|';
    Differs(line, "```", 0);
    Differs(line, "# ПОЯСНИТЕЛЬНАЯ ЗАПИСКА", 0);
    Differs(line, "## ОГЛАВЛЕНИЕ", 0);
    Differs(line, "---", 0);
    StripKeepsFirst(line);
    assert Strip(line)[..1] == "|";
  }

  /** A line with no whitespace at its edges is its own right-strip. */
  lemma RStripTrimmed(line: string)
    requires line != [] && !IsSpace(line[|line| - 1])
    ensures RStrip(line) == line
  {
    assert line[..|line|] == line;
  }

  /** A '---' line is an empty paragraph in two scripts; the final script drops it. */
  lemma RuleLine(m: Markup)
    ensures Convert(WordDoc, m, ["---"]) == [Rule]
    ensures Convert(WordExact, m, ["---"]) == [Rule]
    ensures Convert(WordFinal, m, ["---"]) == []
  {
    var line := "---";
    RStripTrimmed(line);
    StripTrimmed(line);
    Differs(line, "```", 0);
    Differs(line, "|", 0);
    Differs(line, "# ", 0);
    Differs(line, "## ", 0);
    Differs(line, "### ", 0);
    Differs(line, "#### ", 0);
    Differs(line, "##### ", 0);
    assert line[..3] == "---";
  }

  /** Inside a code block too, the final script drops a '---' line; the other scripts keep it. */
  lemma DroppedInsideCode(m: Markup)
    ensures Convert(WordFinal, m, ["```", "---", "x", "```"]) == [Code(["x"])]
    ensures Convert(WordDoc, m, ["```", "---", "x", "```"]) == [Code(["---", "x"])]
  {
    var lines := ["```", "---", "x", "```"];
    RStripTrimmed(lines[0]);
    RStripTrimmed(lines[1]);
    RStripTrimmed(lines[2]);
    Differs(lines[1], "```", 0);
    Differs(lines[2], "```", 0);
    assert lines[0][..3] == "```";
    assert lines[1][..3] == "---";
    Differs(lines[2], "---", 0);
    Differs(lines[2], "# ПОЯСНИТЕЛЬНАЯ ЗАПИСКА", 0);
    Differs(lines[2], "## ОГЛАВЛЕНИЕ", 0);
    FencedCode(WordFinal, m, lines, 0, 3);
    FencedCode(WordDoc, m, lines, 0, 3);
    assert lines[1..3] == ["---", "x"];
    assert lines[1..3][1..] == ["x"];
    assert Collected(WordFinal, ["x"]) == ["x"];
    assert Dropped(RStrip(lines[1]));
    assert Collected(WordFinal, ["---", "x"]) == [] + Collected(WordFinal, ["x"]);
    assert Collected(WordFinal, lines[1..3]) == ["x"];
    assert Run(WordFinal, m, lines, 4, None) == [];
    assert Run(WordFinal, m, lines, 0, None) == [Code(Collected(WordFinal, lines[1..3]))] + Run(WordFinal, m, lines, 4, None);
    assert Collected(WordDoc, lines[1..3]) == ["---", "x"];
    assert Run(WordDoc, m, lines, 4, None) == [];
  }

  /** A numbered line loses its digits, the dot and the one whitespace character after it. */
  lemma NumberedLine(s: Script, m: Markup)
    ensures Classify(s, m, "12. x") == [Numbered(m.inline("x"))]
  {
    var line := "12. x";
    assert LeadingDigits(line[2..]) == 0;
    assert LeadingDigits(line) == 2;
    assert line[4..] == "x";
    Differs(line, "# ", 0);
    Differs(line, "## ", 0);
    Differs(line, "### ", 0);
    Differs(line, "#### ", 0);
    Differs(line, "##### ", 0);
    Differs(line, "#", 0);
    NotSpecial(line);
    StripTrimmed(line);
    Differs(line, "---", 0);
    Differs(line, "- ", 0);
    Differs(line, "− ", 0);
  }

  /** A line that starts with `p` carries `p`'s characters at their indices. */
  lemma PrefixAt(line: string, p: string, k: nat)
    requires StartsWith(line, p) && k < |p|
    ensures k < |line| && line[k] == p[k]
  {
    assert line[..|p|][k] == line[k];
  }

  /** In the final script the "### 1.1.", "### 2.1." and "### 2.2." lines are level-2 headings without their "### ". */
  lemma FinalSubsection(m: Markup, line: string)
    requires StartsWith(line, "### 1.1.") || StartsWith(line, "### 2.1.") || StartsWith(line, "### 2.2.")
    ensures Classify(WordFinal, m, line) == [Heading(line[4..], 2)]
  {
    var p := if StartsWith(line, "### 1.1.") then "### 1.1." else if StartsWith(line, "### 2.1.") then "### 2.1." else "### 2.2.";
    PrefixAt(line, p, 2);
    PrefixAt(line, p, 3);
    PrefixAt(line, p, 4);
    Differs(line, "## ВВЕДЕНИЕ", 2);
    Differs(line, "## 1. ОПИСАНИЕ ПРОГРАММЫ", 2);
    Differs(line, "#### 1.1.1.", 3);
    Differs(line, "#### 1.1.2.", 3);
    Differs(line, "#### 1.2.", 3);
    Differs(line, "#### 1.3.", 3);
    Differs(line, "## 2. СТРУКТУРА", 2);
    if line[4] == '2' {
      Differs(line, "### 1.1.", 4);
    }
  }

  /** In the final script the "#### 1.1.1."-style lines of the fixed outline are level-3 headings without their "#### ". */
  lemma FinalSubsubsection(m: Markup, line: string)
    requires || StartsWith(line, "#### 1.1.1.") || StartsWith(line, "#### 1.1.2.")
             || StartsWith(line, "#### 1.2.") || StartsWith(line, "#### 1.3.")
             || StartsWith(line, "#### 2.1.") || StartsWith(line, "#### 2.2.")
    ensures Classify(WordFinal, m, line) == [Heading(line[5..], 3)]
  {
    var p := if StartsWith(line, "#### 1.1.1.") then "#### 1.1.1."
      else if StartsWith(line, "#### 1.1.2.") then "#### 1.1.2."
      else if StartsWith(line, "#### 1.2.") then "#### 1.2."
      else if StartsWith(line, "#### 1.3.") then "#### 1.3."
      else if StartsWith(line, "#### 2.1.") then "#### 2.1."
      else "#### 2.2.";
    PrefixAt(line, p, 2);
    PrefixAt(line, p, 3);
    PrefixAt(line, p, 5);
    Differs(line, "## ВВЕДЕНИЕ", 2);
    Differs(line, "## 1. ОПИСАНИЕ ПРОГРАММЫ", 2);
    Differs(line, "### 1.1.", 3);
    if line[5] == '2' {
      Differs(line, "#### 1.1.1.", 5);
      Differs(line, "#### 1.1.2.", 5);
      Differs(line, "#### 1.2.", 5);
      Differs(line, "#### 1.3.", 5);
      Differs(line, "## 2. СТРУКТУРА", 2);
      Differs(line, "### 2.1.", 3);
      Differs(line, "### 2.2.", 3);
    }
  }

  /** The six chapter lines of the final script, each with the fixed title it becomes. */
  predicate Chapter(key: string, title: string) {
    || (key == "## ВВЕДЕНИЕ" && title == "Введение")
    || (key == "## 1. ОПИСАНИЕ ПРОГРАММЫ" && title == "1. Описание программы")
    || (key == "## 2. СТРУКТУРА" && title == "2. Структура классов и их назначение в рамках проекта")
    || (key == "## ЗАКЛЮЧЕНИЕ" && title == "Заключение")
    || (key == "## СПИСОК" && title == "Список использованных источников")
    || (key == "## ПРИЛОЖЕНИЯ" && title == "Приложения")
  }

  /** A line whose third character is a space matches none of the "###" and "####" keys. */
  lemma NotDeeper(line: string)
    requires 2 < |line| && line[2] == ' '
    ensures !StartsWith(line, "### 1.1.") && !StartsWith(line, "### 2.1.") && !StartsWith(line, "### 2.2.")
    ensures !StartsWith(line, "#### 1.1.1.") && !StartsWith(line, "#### 1.1.2.")
    ensures !StartsWith(line, "#### 1.2.") && !StartsWith(line, "#### 1.3.")
    ensures !StartsWith(line, "#### 2.1.") && !StartsWith(line, "#### 2.2.")
  {
    Differs(line, "### 1.1.", 2);
    Differs(line, "#### 1.1.1.", 2);
    Differs(line, "#### 1.1.2.", 2);
    Differs(line, "#### 1.2.", 2);
    Differs(line, "#### 1.3.", 2);
    Differs(line, "### 2.1.", 2);
    Differs(line, "### 2.2.", 2);
    Differs(line, "#### 2.1.", 2);
    Differs(line, "#### 2.2.", 2);
  }

  /** In the final script a chapter line becomes its fixed title at level 1, whatever follows the key. */
  lemma FinalChapter(m: Markup, line: string, key: string, title: string)
    requires Chapter(key, title) && StartsWith(line, key)
    ensures Classify(WordFinal, m, line) == [Heading(title, 1)]
  {
    PrefixAt(line, key, 2);
    PrefixAt(line, key, 3);
    NotDeeper(line);
    if key == "## 1. ОПИСАНИЕ ПРОГРАММЫ" {
      Differs(line, "## ВВЕДЕНИЕ", 3);
    } else if key == "## 2. СТРУКТУРА" {
      Differs(line, "## ВВЕДЕНИЕ", 3);
      Differs(line, "## 1. ОПИСАНИЕ ПРОГРАММЫ", 3);
    } else if key == "## ЗАКЛЮЧЕНИЕ" {
      Differs(line, "## ВВЕДЕНИЕ", 3);
      Differs(line, "## 1. ОПИСАНИЕ ПРОГРАММЫ", 3);
      Differs(line, "## 2. СТРУКТУРА", 3);
    } else if key == "## СПИСОК" {
      Differs(line, "## ВВЕДЕНИЕ", 3);
      Differs(line, "## 1. ОПИСАНИЕ ПРОГРАММЫ", 3);
      Differs(line, "## 2. СТРУКТУРА", 3);
      Differs(line, "## ЗАКЛЮЧЕНИЕ", 3);
    } else if key == "## ПРИЛОЖЕНИЯ" {
      Differs(line, "## ВВЕДЕНИЕ", 3);
      Differs(line, "## 1. ОПИСАНИЕ ПРОГРАММЫ", 3);
      Differs(line, "## 2. СТРУКТУРА", 3);
      Differs(line, "## ЗАКЛЮЧЕНИЕ", 3);
      Differs(line, "## СПИСОК", 3);
    }
  }

  /** A "- " line whose text has no characters stops the final and exact scripts: no document is saved. */
  lemma EmptyBulletAborts(s: Script, m: Markup, line: string)
    requires StartsWith(line, "- ") && !IsSpace(line[|line| - 1]) && m.inline(line[2..]) == []
    ensures Convert(s, m, [line]) == [Bullet([])]
    ensures Document(s, m, [line]) == if s == WordDoc then Some([Bullet([])]) else None
  {
    PrefixAt(line, "- ", 0);
    PrefixAt(line, "- ", 1);
    RStripTrimmed(line);
    StripTrimmed(line);
    Differs(line, "```", 0);
    Differs(line, "|", 0);
    Differs(line, "# ПОЯСНИТЕЛЬНАЯ ЗАПИСКА", 0);
    Differs(line, "## ОГЛАВЛЕНИЕ", 0);
    Differs(line, "---", 1);
    BulletLine(s, m, line);
    assert Run(s, m, [line], 1, None) == [];
  }

  /** A "**" line whose plain text is empty stops the final and exact scripts as well. */
  lemma EmptyParagraphAborts(s: Script, m: Markup, line: string)
    requires line == "**" && m.plain(line) == []
    ensures Convert(s, m, [line]) == [Paragraph([])]
    ensures Document(s, m, [line]) == if s == WordDoc then Some([Paragraph([])]) else None
  {
    RStripTrimmed(line);
    StripTrimmed(line);
    Differs(line, "```", 0);
    Differs(line, "|", 0);
    Differs(line, "# ПОЯСНИТЕЛЬНАЯ ЗАПИСКА", 0);
    Differs(line, "## ОГЛАВЛЕНИЕ", 0);
    Differs(line, "---", 0);
    Differs(line, "- ", 0);
    Differs(line, "− ", 0);
    NoHash(line);
    assert LeadingDigits(line) == 0;
    assert !Contains([], Camera) && !Contains([], "[Здесь необходимо");
    assert !Contains([], "Рисунок") && !Contains([], "СКРИНШОТ");
    assert Run(s, m, [line], 1, None) == [];
  }

  /** "СКРИНШОТ" alone marks a placeholder in the first two scripts; the final script keeps the text as a paragraph. */
  lemma ScreenshotWord(m: Markup, line: string)
    requires Contains(m.plain(line), "СКРИНШОТ") && !Contains(m.plain(line), "Рисунок")
    requires !Contains(m.plain(line), Camera) && !Contains(m.plain(line), "[Здесь необходимо")
    ensures TextBlock(WordDoc, m, line) == Placeholder(m.plain(line))
    ensures TextBlock(WordExact, m, line) == Placeholder(m.plain(line))
    ensures TextBlock(WordFinal, m, line) == Paragraph(m.plain(line))
  {
  }

  /** "Рисунок" alone marks a placeholder in the final script only. */
  lemma FigureWord(m: Markup, line: string)
    requires Contains(m.plain(line), "Рисунок") && !Contains(m.plain(line), "СКРИНШОТ")
    requires !Contains(m.plain(line), Camera) && !Contains(m.plain(line), "[Здесь необходимо")
    ensures TextBlock(WordDoc, m, line) == Paragraph(m.plain(line))
    ensures TextBlock(WordExact, m, line) == Paragraph(m.plain(line))
    ensures TextBlock(WordFinal, m, line) == Placeholder(m.plain(line))
  {
  }

  /** The camera sign and "[Здесь необходимо" mark a placeholder in every script. */
  lemma SharedMarks(s: Script, m: Markup, line: string)
    requires Contains(m.plain(line), Camera) || Contains(m.plain(line), "[Здесь необходимо")
    ensures TextBlock(s, m, line) == Placeholder(m.plain(line))
  {
  }

  /** A placeholder is never empty, so only text lxml refuses stops a script there. */
  lemma PlaceholderSaved(s: Script, m: Markup, line: string)
    ensures TextBlock(s, m, line).text == m.plain(line)
    ensures TextBlock(s, m, line).Placeholder? ==> m.plain(line) != []
    ensures !Fails(s, TextBlock(s, m, line))
            <==> XmlText(m.plain(line)) && (s == WordDoc || TextBlock(s, m, line).Placeholder? || m.plain(line) != [])
  {
  }

  /**
   * A vertical tab inside a code block stops every script, `create_word_doc.py`
   * included: the joined code text is refused when it becomes a run.
   */
  lemma ControlCharAborts(s: Script, m: Markup)
    ensures Convert(s, m, ["```", "a\U{000B}b", "```"]) == [Code(["a\U{000B}b"])]
    ensures Document(s, m, ["```", "a\U{000B}b", "```"]) == None
  {
    var lines := ["```", "a\U{000B}b", "```"];
    assert RStrip(lines[0]) == lines[0] && RStrip(lines[2]) == lines[2] by {
      RStripTrimmed(lines[0]);
      RStripTrimmed(lines[2]);
    }
    RStripTrimmed(lines[1]);
    assert !IsFence(RStrip(lines[1]));
    FencedCode(s, m, lines, 0, 2);
    assert lines[1..2] == [lines[1]];
    Differs(lines[1], "# ПОЯСНИТЕЛЬНАЯ ЗАПИСКА", 0);
    Differs(lines[1], "## ОГЛАВЛЕНИЕ", 0);
    Differs(lines[1], "---", 0);
    assert RStrip(lines[1]) == lines[1];
    assert !Skips(s, lines[1]);
    assert Collected(s, lines[1..2]) == [lines[1]] + Collected(s, []);
    assert Collected(s, lines[1..2]) == [lines[1]];
    assert Convert(s, m, lines) == Run(s, m, lines, 0, None);
    assert Run(s, m, lines, 0, None) == [Code([lines[1]])] + Run(s, m, lines, 3, None);
    assert !XmlChar(lines[1][1]);
    assert Run(s, m, lines, 3, None) == [];
  }
}
