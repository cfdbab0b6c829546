/**
 * `escapeHtml` of the web client: the five HTML-special characters become
 * entities, every other character is copied in order, and a null, undefined
 * or empty text becomes the empty string.
 */
module EscapeHtml {
  import opened Wrappers

  predicate IsSpecial(c: char) {
    c == '&' || c == '<' || c == '>' || c == '"' || c == '\''
  }

  /** The replacement table of `escapeHtml`; a character outside it stands for itself. */
  function EscapeChar(c: char): (r: string)
    ensures IsSpecial(c) ==> |r| > 1 && r[0] == '&'
    ensures !IsSpecial(c) ==> r == [c]
  {
    match c
    case '&' => "&amp;"
    case '<' => "&lt;"
    case '>' => "&gt;"
    case '"' => "&quot;"
    case '\'' => "&#039;"
    case _ => [c]
  }

  /** The characters that may never appear raw in escaped text. */
  predicate IsMarkup(c: char) {
    c == '<' || c == '>' || c == '"' || c == '\''
  }

  predicate HasSpecial(s: string) {
    exists i | 0 <= i < |s| :: IsSpecial(s[i])
  }

  /** The global `replace(/[&<>"']/g, …)`: each character replaced by its entry. */
  function Escape(s: string): (r: string)
    ensures forall i | 0 <= i < |r| :: !IsMarkup(r[i])
    ensures |r| >= |s|
    ensures |r| == |s| <==> !HasSpecial(s)
    ensures !HasSpecial(s) ==> r == s
  {
    if s == [] then []
    else
      var rest := Escape(s[1..]);
      assert HasSpecial(s) <==> IsSpecial(s[0]) || HasSpecial(s[1..]) by {
        if HasSpecial(s[1..]) {
          var i :| 0 <= i < |s[1..]| && IsSpecial(s[1..][i]);
          assert IsSpecial(s[i + 1]);
        }
        if HasSpecial(s) && !IsSpecial(s[0]) {
          var i :| 0 <= i < |s| && IsSpecial(s[i]);
          assert IsSpecial(s[1..][i - 1]);
        }
      }
      assert s == [s[0]] + s[1..];
      EscapeChar(s[0]) + rest
  }

  /** `escapeHtml(text)`: a falsy text (null, undefined, "") yields "". */
  function EscapeHtml(text: Option<string>): (r: string)
    ensures text.None? || text.value == [] ==> r == []
    ensures text.Some? ==> r == Escape(text.value)
  {
    if text.None? || text.value == [] then [] else Escape(text.value)
  }

  /** Escaping works character by character: it distributes over concatenation. */
  lemma {:induction false} EscapeAppend(a: string, b: string)
    ensures Escape(a + b) == Escape(a) + Escape(b)
  {
    if a == [] {
      assert a + b == b;
    } else {
      assert (a + b)[0] == a[0];
      assert (a + b)[1..] == a[1..] + b;
      EscapeAppend(a[1..], b);
    }
  }

  /** The decoder that undoes the table: the five entities back to their characters. */
  function Unescape(s: string): string
    decreases |s|
  {
    if s == [] then []
    else if |s| >= 5 && s[..5] == "&amp;" then "&" + Unescape(s[5..])
    else if |s| >= 4 && s[..4] == "&lt;" then "<" + Unescape(s[4..])
    else if |s| >= 4 && s[..4] == "&gt;" then ">" + Unescape(s[4..])
    else if |s| >= 6 && s[..6] == "&quot;" then "\"" + Unescape(s[6..])
    else if |s| >= 6 && s[..6] == "&#039;" then "'" + Unescape(s[6..])
    else [s[0]] + Unescape(s[1..])
  }

  lemma UnescapeStep(c: char, rest: string)
    ensures Unescape(EscapeChar(c) + rest) == [c] + Unescape(rest)
  {
    if IsSpecial(c) {
      UnescapeEntity(c, rest);
    } else {
      UnescapePlain(c, rest);
    }
  }

  lemma UnescapeEntity(c: char, rest: string)
    requires IsSpecial(c)
    ensures Unescape(EscapeChar(c) + rest) == [c] + Unescape(rest)
  {
    var e := EscapeChar(c) + rest;
    var n := |EscapeChar(c)|;
    assert e[..n] == EscapeChar(c);
    assert e[n..] == rest;
    assert e[1] == EscapeChar(c)[1];
    assert |e| >= 4 ==> e[..4][1] == e[1];
    assert |e| >= 5 ==> e[..5][1] == e[1];
    assert |e| >= 6 ==> e[..6][1] == e[1];
  }

  lemma UnescapePlain(c: char, rest: string)
    requires !IsSpecial(c)
    ensures Unescape(EscapeChar(c) + rest) == [c] + Unescape(rest)
  {
    var e := [c] + rest;
    assert e[0] == c && e[1..] == rest;
    assert |e| >= 5 ==> e[..5][0] == c;
    assert |e| >= 4 ==> e[..4][0] == c;
    assert |e| >= 6 ==> e[..6][0] == c;
  }

  /** Escaping loses nothing: decoding the entities gives the original text back. */
  lemma {:induction false} UnescapeEscape(s: string)
    ensures Unescape(Escape(s)) == s
  {
    if s != [] {
      UnescapeStep(s[0], Escape(s[1..]));
      UnescapeEscape(s[1..]);
      assert [s[0]] + s[1..] == s;
    }
  }

  /** Escaping is not idempotent: the '&' of an entity is escaped again. */
  lemma NotIdempotent()
    ensures Escape("&") == "&amp;"
    ensures Escape(Escape("&")) == "&amp;amp;"
    ensures Escape(Escape("&")) != Escape("&")
  {
    assert Escape("&") == "&amp;" + Escape([]);
    assert "&amp;" == "&" + "amp;";
    EscapeAppend("&", "amp;");
    assert !HasSpecial("amp;");
  }
}
