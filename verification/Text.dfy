/** Character classes and the few operations on Python's `str` that the notes
    converter relies on: whitespace stripping, prefix tests, lower-casing and
    splitting a text into lines. */
module Text {

  type String = seq<char>

  /** `str.isspace()`, which is also what `\s` matches in a pattern over `str`. */
  predicate IsSpace(c: char) {
    ('\t' <= c <= '\r') || ('\U{1c}' <= c <= ' ') || c == '\U{85}' || c == '\U{a0}'
    || c == '\U{1680}' || ('\U{2000}' <= c <= '\U{200a}') || c == '\U{2028}'
    || c == '\U{2029}' || c == '\U{202f}' || c == '\U{205f}' || c == '\U{3000}'
  }

  /** The characters at which `str.splitlines()` ends a line. */
  predicate IsLineBreak(c: char) {
    ('\n' <= c <= '\r') || ('\U{1c}' <= c <= '\U{1e}') || c == '\U{85}'
    || c == '\U{2028}' || c == '\U{2029}'
  }

  /** `\w`, restricted to ASCII: letters, digits and the underscore. */
  predicate IsWordChar(c: char) {
    ('a' <= c <= 'z') || ('A' <= c <= 'Z') || ('0' <= c <= '9') || c == '_'
  }

  predicate NoNewline(s: String) {
    forall j :: 0 <= j < |s| ==> s[j] != '\n'
  }

  predicate NoLineBreak(s: String) {
    forall j :: 0 <= j < |s| ==> !IsLineBreak(s[j])
  }

  /** `str.startswith(prefix)`. */
  predicate StartsWith(s: String, prefix: String) {
    |prefix| <= |s| && s[..|prefix|] == prefix
  }

  function LowerChar(c: char): (d: char)
    ensures 'A' <= c <= 'Z' ==> 'a' <= d <= 'z' && d as int - c as int == 32
    ensures !('A' <= c <= 'Z') ==> d == c
  {
    if 'A' <= c <= 'Z' then (c as int + 32) as char else c
  }

  /** `str.lower()` on ASCII letters; every other character is kept. */
  function Lower(s: String): (r: String)
    ensures |r| == |s|
    ensures forall j :: 0 <= j < |s| ==> r[j] == LowerChar(s[j])
    ensures forall j :: 0 <= j < |r| ==> !('A' <= r[j] <= 'Z')
  {
    seq(|s|, j requires 0 <= j < |s| => LowerChar(s[j]))
  }

  /** Lower-casing twice is lower-casing once. */
  lemma LowerIdempotent(s: String)
    ensures Lower(Lower(s)) == Lower(s)
  {
  }

  /** `s.lower().startswith(prefix)` for a lower-case `prefix`, one character
      at a time. */
  predicate StartsWithLowered(s: String, prefix: String)
    decreases |prefix|
  {
    |prefix| <= |s| && (prefix == [] || (LowerChar(s[0]) == prefix[0] && StartsWithLowered(s[1..], prefix[1..])))
  }

  /** Comparing character by character is comparing the lowered string. */
  lemma {:induction false} StartsWithLoweredIsLowerStartsWith(s: String, prefix: String)
    ensures StartsWithLowered(s, prefix) <==> StartsWith(Lower(s), prefix)
    decreases |prefix|
  {
    if prefix != [] && |prefix| <= |s| {
      StartsWithLoweredIsLowerStartsWith(s[1..], prefix[1..]);
      assert Lower(s)[1..] == Lower(s[1..]);
      assert Lower(s)[..|prefix|] == [Lower(s)[0]] + Lower(s)[1..][..|prefix| - 1];
      assert prefix == [prefix[0]] + prefix[1..];
    }
  }

  /** Length of the longest run of characters satisfying `p` that starts at `i`. */
  function Run(s: String, i: nat, p: char -> bool): (n: nat)
    requires i <= |s|
    ensures i + n <= |s|
    ensures forall j :: i <= j < i + n ==> p(s[j])
    ensures i + n == |s| || !p(s[i + n])
    decreases |s| - i
  {
    if i < |s| && p(s[i]) then 1 + Run(s, i + 1, p) else 0
  }

  /** `str.rstrip()`: the longest prefix that does not end in whitespace. */
  function RStrip(s: String): (r: String)
    ensures |r| <= |s| && r == s[..|r|]
    ensures forall j :: |r| <= j < |s| ==> IsSpace(s[j])
    ensures r == [] || !IsSpace(r[|r| - 1])
    ensures NoNewline(s) ==> NoNewline(r)
    decreases |s|
  {
    if s != [] && IsSpace(s[|s| - 1]) then RStrip(s[..|s| - 1]) else s
  }

  /** Right-stripping leaves nothing exactly when everything is whitespace. */
  lemma RStripEmpty(s: String)
    ensures RStrip(s) == [] <==> forall j :: 0 <= j < |s| ==> IsSpace(s[j])
  {
    var r := RStrip(s);
    if r != [] {
      assert s[|r| - 1] == r[|r| - 1];
    }
  }

  /** `str.lstrip()`: the longest suffix that does not start with whitespace. */
  function LStrip(s: String): (r: String)
    ensures |r| <= |s| && r == s[|s| - |r|..]
    ensures forall j :: 0 <= j < |s| - |r| ==> IsSpace(s[j])
    ensures r == [] || !IsSpace(r[0])
    decreases |s|
  {
    if s != [] && IsSpace(s[0]) then LStrip(s[1..]) else s
  }

  /** `str.strip()`. */
  function Strip(s: String): String {
    LStrip(RStrip(s))
  }

  /** Stripping a string that starts with `k` whitespace characters and then a
      non-whitespace one removes exactly those `k` on the left. */
  lemma {:induction false} LStripAt(s: String, k: nat)
    requires k < |s| && !IsSpace(s[k])
    requires forall j :: 0 <= j < k ==> IsSpace(s[j])
    ensures LStrip(s) == s[k..]
    decreases k
  {
    if k > 0 {
      assert IsSpace(s[0]);
      assert forall j :: 0 <= j < k - 1 ==> s[1..][j] == s[j + 1];
      LStripAt(s[1..], k - 1);
      assert s[1..][k - 1..] == s[k..];
    }
  }

  /** The stripped string neither starts nor ends with whitespace, and
      everything it dropped was whitespace. */
  lemma StripShape(s: String)
    ensures var r := Strip(s);
      r == [] || (!IsSpace(r[0]) && !IsSpace(r[|r| - 1]))
    ensures Strip(s) == [] <==> forall j :: 0 <= j < |s| ==> IsSpace(s[j])
  {
    var t := RStrip(s);
    var r := LStrip(t);
    if r != [] {
      assert r[|r| - 1] == t[|t| - 1];
    }
    if r == [] {
      forall j | 0 <= j < |s| ensures IsSpace(s[j]) {
        if j < |t| { assert IsSpace(t[j]); }
      }
    }
  }

  /** A string that neither starts nor ends with whitespace is its own strip. */
  lemma StripNoop(s: String)
    requires s == [] || (!IsSpace(s[0]) && !IsSpace(s[|s| - 1]))
    ensures Strip(s) == s
  {
    if s != [] {
      assert RStrip(s) == s;
      LStripAt(s, 0);
    }
  }

  /** `s.strip().strip() == s.strip()`. */
  lemma StripIdempotent(s: String)
    ensures Strip(Strip(s)) == Strip(s)
  {
    var r := Strip(s);
    StripShape(s);
    if r != [] {
      assert RStrip(r) == r;
      assert LStrip(r) == r;
    }
  }

  /** `s.rstrip().strip() == s.strip()`. */
  lemma StripAfterRStrip(s: String)
    ensures Strip(RStrip(s)) == Strip(s)
  {
    var t := RStrip(s);
    assert t == [] || !IsSpace(t[|t| - 1]);
    assert RStrip(t) == t;
  }

  /** `str.splitlines()` with the line collected so far in `current`. */
  function SplitLinesFrom(s: String, current: String): (lines: seq<String>)
    requires NoLineBreak(current)
    ensures forall k :: 0 <= k < |lines| ==> NoLineBreak(lines[k])
    decreases |s|
  {
    if s == [] then
      (if current == [] then [] else [current])
    else if IsLineBreak(s[0]) then
      var rest := if s[0] == '\r' && |s| > 1 && s[1] == '\n' then s[2..] else s[1..];
      [current] + SplitLinesFrom(rest, [])
    else
      SplitLinesFrom(s[1..], current + [s[0]])
  }

  /** `str.splitlines()`: a trailing line break does not open an empty last line,
      and `\r\n` counts as one break. */
  function SplitLines(s: String): (lines: seq<String>)
    ensures forall k :: 0 <= k < |lines| ==> NoLineBreak(lines[k])
  {
    SplitLinesFrom(s, [])
  }

  /** A text without line breaks is one line, or no line at all when empty. */
  lemma {:induction false} SplitSingleLine(s: String, current: String)
    requires NoLineBreak(s) && NoLineBreak(current)
    ensures SplitLinesFrom(s, current) == if current + s == [] then [] else [current + s]
    decreases |s|
  {
    if s != [] {
      assert !IsLineBreak(s[0]);
      SplitSingleLine(s[1..], current + [s[0]]);
      assert current + [s[0]] + s[1..] == current + s;
      assert SplitLinesFrom(s, current) == SplitLinesFrom(s[1..], current + [s[0]]);
    } else {
      assert current + s == current;
    }
  }

  /** Splitting a text that begins with the break-free `s` continues the
      current line with `s`. */
  lemma {:induction false} SplitAcross(s: String, current: String, rest: String)
    requires NoLineBreak(s) && NoLineBreak(current)
    ensures SplitLinesFrom(s + rest, current) == SplitLinesFrom(rest, current + s)
    decreases |s|
  {
    if s == [] {
      assert s + rest == rest;
      assert current + s == current;
    } else {
      assert (s + rest)[0] == s[0] && !IsLineBreak(s[0]);
      assert (s + rest)[1..] == s[1..] + rest;
      SplitAcross(s[1..], current + [s[0]], rest);
      assert current + [s[0]] + s[1..] == current + s;
    }
  }

  /** The first line ends at the first break `c`; the rest of the text is
      split on its own. */
  lemma SplitLinesBreak(a: String, c: char, b: String)
    requires NoLineBreak(a) && IsLineBreak(c)
    requires !(c == '\r' && b != [] && b[0] == '\n')
    ensures SplitLines(a + [c] + b) == [a] + SplitLines(b)
  {
    SplitAcross(a, [], [c] + b);
    assert a + [c] + b == a + ([c] + b);
    assert [] + a == a;
    assert ([c] + b)[1..] == b;
  }

  /** `\r\n` ends a line as one break. */
  lemma SplitLinesCrLf(a: String, b: String)
    requires NoLineBreak(a)
    ensures SplitLines(a + "\r\n" + b) == [a] + SplitLines(b)
  {
    SplitAcross(a, [], "\r\n" + b);
    assert a + "\r\n" + b == a + ("\r\n" + b);
    assert [] + a == a;
    assert ("\r\n" + b)[2..] == b;
  }

  /** A break at the very end opens no extra, empty line. */
  lemma SplitTrailingBreak(a: String, c: char)
    requires NoLineBreak(a) && IsLineBreak(c)
    ensures SplitLines(a + [c]) == [a]
  {
    SplitLinesBreak(a, c, []);
    assert a + [c] + [] == a + [c];
  }
}
