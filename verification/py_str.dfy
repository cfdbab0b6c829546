/**
 * The Python `str` methods the document scripts use: `isspace`, `strip`,
 * `rstrip`, `lstrip(chars)` and `split(sep)`.
 */
module PyStr {
  import opened Text

  /** `str.isspace()` for one character: the Unicode whitespace Python recognises. */
  predicate IsSpace(c: char) {
    ('\t' <= c <= '\r') || ('\U{1C}' <= c <= ' ') || c == '\U{85}' || c == '\U{A0}'
    || c == '\U{1680}' || ('\U{2000}' <= c <= '\U{200A}') || c == '\U{2028}' || c == '\U{2029}'
    || c == '\U{202F}' || c == '\U{205F}' || c == '\U{3000}'
  }

  predicate AllSpace(s: string) {
    forall k | 0 <= k < |s| :: IsSpace(s[k])
  }

  /** The length of the leading whitespace run of `s`. */
  function LeadingSpace(s: string): (n: nat)
    ensures n <= |s| && AllSpace(s[..n])
    ensures n < |s| ==> !IsSpace(s[n])
  {
    if s != [] && IsSpace(s[0]) then
      var n := 1 + LeadingSpace(s[1..]);
      assert forall k | 1 <= k < n :: s[..n][k] == s[1..][..n - 1][k - 1];
      n
    else 0
  }

  /** Where the trailing whitespace run of `s` starts. */
  function TrailingSpace(s: string): (n: nat)
    ensures n <= |s| && AllSpace(s[n..])
    ensures 0 < n ==> !IsSpace(s[n - 1])
  {
    if s != [] && IsSpace(s[|s| - 1]) then
      var n := TrailingSpace(s[..|s| - 1]);
      assert forall k | n <= k < |s| - 1 :: s[k] == s[..|s| - 1][k];
      n
    else |s|
  }

  /** `s.lstrip()`: the suffix left after the leading whitespace. */
  function LStrip(s: string): string {
    s[LeadingSpace(s)..]
  }

  /** `s.rstrip()`: the prefix left before the trailing whitespace. */
  function RStrip(s: string): string {
    s[..TrailingSpace(s)]
  }

  /** `s.strip()`. */
  function Strip(s: string): (r: string)
    ensures |r| <= |s|
    ensures r != [] ==> !IsSpace(r[0]) && !IsSpace(r[|r| - 1])
    ensures forall x | x in r :: x in s
  {
    var p := RStrip(s);
    var r := LStrip(p);
    assert forall k | 0 <= k < |r| :: r[k] == p[LeadingSpace(p) + k] == s[LeadingSpace(p) + k];
    r
  }

  /** `s.lstrip(c)` with a single character: the suffix after the leading run of `c`. */
  function LStripChar(s: string, c: char): (r: string)
    ensures |r| <= |s| && r == s[|s| - |r|..]
    ensures forall k | 0 <= k < |s| - |r| :: s[k] == c
    ensures r != [] ==> r[0] != c
  {
    if s != [] && s[0] == c then LStripChar(s[1..], c) else s
  }

  /** The number of occurrences of `c` in `s`. */
  function Count(s: string, c: char): nat {
    if s == [] then 0 else (if s[0] == c then 1 else 0) + Count(s[1..], c)
  }

  /** `s.split(c)`: the pieces between the separators, one more piece than separators. */
  function Split(s: string, c: char): (parts: seq<string>)
    ensures |parts| == Count(s, c) + 1
    ensures forall p | p in parts :: c !in p
  {
    if s == [] then [[]]
    else
      var rest := Split(s[1..], c);
      if s[0] == c then [[]] + rest
      else
        assert forall p | p in rest[1..] :: p in rest;
        [[s[0]] + rest[0]] + rest[1..]
  }

  /** `c.join(parts)`, the inverse of `split`. */
  function Join(parts: seq<string>, c: char): string
    requires parts != []
  {
    if |parts| == 1 then parts[0] else parts[0] + [c] + Join(parts[1..], c)
  }

  /** Splitting loses nothing: joining the pieces with the separator gives the string back. */
  lemma {:induction false} JoinSplit(s: string, c: char)
    ensures Join(Split(s, c), c) == s
  {
    if s != [] {
      var rest := Split(s[1..], c);
      JoinSplit(s[1..], c);
      if s[0] == c {
        JoinCons([], rest, c);
      } else {
        JoinGrow(s[0], rest, c);
      }
      assert s == [s[0]] + s[1..];
    }
  }

  /** Joining a piece in front adds it and one separator. */
  lemma JoinCons(p: string, parts: seq<string>, c: char)
    requires parts != []
    ensures Join([p] + parts, c) == p + [c] + Join(parts, c)
  {
    assert ([p] + parts)[1..] == parts;
  }

  /** Growing the first piece by one character grows the joined string by it. */
  lemma JoinGrow(x: char, parts: seq<string>, c: char)
    requires parts != []
    ensures Join([[x] + parts[0]] + parts[1..], c) == [x] + Join(parts, c)
  {
    var grown := [[x] + parts[0]] + parts[1..];
    if |parts| > 1 {
      assert grown[1..] == parts[1..];
    }
  }

  /** A blank line strips to nothing, and only a blank line does. */
  lemma StripBlank(s: string)
    ensures Strip(s) == [] <==> AllSpace(s)
  {
    var r := RStrip(s);
    if Strip(s) == [] {
      // All of `r` is whitespace, yet it cannot end in whitespace: it is empty.
      assert AllSpace(r[..|r|]) && r[..|r|] == r;
      assert TrailingSpace(s) == 0;
      assert s[TrailingSpace(s)..] == s;
    }
  }

  /** A blank line right-strips to nothing. */
  lemma {:induction false} BlankRStrip(s: string)
    requires AllSpace(s)
    ensures RStrip(s) == []
    decreases |s|
  {
    if s != [] {
      var p := s[..|s| - 1];
      assert forall k | 0 <= k < |p| :: p[k] == s[k];
      BlankRStrip(p);
    }
  }

  /** A string without whitespace at either edge is its own strip. */
  lemma StripTrimmed(t: string)
    requires t != [] && !IsSpace(t[0]) && !IsSpace(t[|t| - 1])
    ensures Strip(t) == t
  {
    assert TrailingSpace(t) == |t|;
    assert t[..|t|] == t;
    assert LeadingSpace(t) == 0;
  }

  /** Whitespace in front of a trimmed string is stripped away, and nothing else is. */
  lemma StripPadded(w: string, t: string)
    requires AllSpace(w) && t != [] && !IsSpace(t[0]) && !IsSpace(t[|t| - 1])
    ensures Strip(w + t) == t
  {
    var s := w + t;
    assert s[|s| - 1] == t[|t| - 1];
    assert TrailingSpace(s) == |s|;
    assert RStrip(s) == s;
    LeadingPadding(w, t);
    assert s[|w|..] == t;
  }

  lemma {:induction false} LeadingPadding(w: string, t: string)
    requires AllSpace(w) && t != [] && !IsSpace(t[0])
    ensures LeadingSpace(w + t) == |w|
    decreases |w|
  {
    if w == [] {
      assert w + t == t;
    } else {
      assert (w + t)[0] == w[0];
      assert (w + t)[1..] == w[1..] + t;
      assert forall k | 0 <= k < |w[1..]| :: w[1..][k] == w[k + 1];
      LeadingPadding(w[1..], t);
    }
  }

  /** A string that starts with a non-space character keeps it first after stripping. */
  lemma StripKeepsFirst(s: string)
    requires s != [] && !IsSpace(s[0])
    ensures Strip(s) != [] && Strip(s)[0] == s[0]
  {
    var n := TrailingSpace(s);
    assert s[0..][0] == s[0];
    assert n >= 1;
    var p := RStrip(s);
    assert p[..0 + 1][0] == p[0] == s[0];
    assert LeadingSpace(p) == 0;
  }

  /** The first character of a line is either whitespace or the first character of its strip. */
  lemma StripHead(s: string)
    requires Strip(s) != []
    ensures s != [] && (IsSpace(s[0]) || Strip(s)[0] == s[0])
  {
    if !IsSpace(s[0]) {
      StripKeepsFirst(s);
    }
  }
}
