/** `parse_markdown`: the markdown notes become one paragraph description per
    line that is neither blank nor a `---` rule. Each line is classified on its
    own; the first of heading, bullet and plain text that applies decides. */
module Parser {
  import opened Text
  import opened Mentions

  datatype Option<T> = None | Some(value: T)

  /** The named paragraph styles the parser produces. */
  datatype NamedStyle = NormalText | Heading1 | Heading2 | Heading3

  /** `ParagraphSpec`: the styling wanted for one paragraph. */
  datatype ParagraphSpec = ParagraphSpec(
    text: String,
    namedStyle: NamedStyle,
    bullet: bool,
    checkbox: bool,
    indentLevel: int,
    isFooter: bool,
    mentionSpans: seq<Span>)

  /** `f"HEADING_{level}"`. */
  function HeadingStyle(level: int): NamedStyle
    requires 1 <= level <= 3
  {
    if level == 1 then Heading1 else if level == 2 then Heading2 else Heading3
  }

  predicate IsHash(c: char) {
    c == '#'
  }

  /** `re.match(r"^(#{1,6})\s+(.*)", line)` succeeds with `n` hashes in its
      first group, followed by the `w` whitespace characters that the greedy
      `\s+` takes; the title group is then `line[n + w..]`. */
  predicate HeadingMatch(line: String, n: nat, w: nat) {
    1 <= n <= 6 && 1 <= w && n + w <= |line|
    && (forall j :: 0 <= j < n ==> line[j] == '#')
    && (forall j :: n <= j < n + w ==> IsSpace(line[j]))
    && (n + w == |line| || !IsSpace(line[n + w]))
  }

  /** `re.match(r"^(\s*)([-*])\s+(.*)", line)` succeeds with `w` whitespace
      characters in its first group, the marker at `w`, and the `m` whitespace
      characters that the greedy `\s+` takes after it; the remainder group is
      then `line[w + 1 + m..]`. */
  predicate BulletMatch(line: String, w: nat, m: nat) {
    1 <= m && w + 1 + m <= |line|
    && (forall j :: 0 <= j < w ==> IsSpace(line[j]))
    && (line[w] == '-' || line[w] == '*')
    && (forall j :: w + 1 <= j < w + 1 + m ==> IsSpace(line[j]))
    && (w + 1 + m == |line| || !IsSpace(line[w + 1 + m]))
  }

  datatype HeadingGroups = HeadingGroups(hashes: String, title: String)

  datatype BulletGroups = BulletGroups(indent: String, marker: char, remainder: String)

  /** The heading pattern as an explicit matcher. `(.*)` stops at a newline,
      and the lines it is applied to contain none. */
  function MatchHeading(line: String): (g: Option<HeadingGroups>)
    requires NoNewline(line)
    ensures g.Some? ==> 1 <= |g.value.hashes|
  {
    var n := Run(line, 0, IsHash);
    if 1 <= n <= 6 && n < |line| && IsSpace(line[n]) then
      var w := Run(line, n, IsSpace);
      Some(HeadingGroups(line[..n], line[n + w..]))
    else
      None
  }

  /** The matcher succeeds exactly when the heading pattern matches, and then
      with the pattern's groups: it finds the match when there is one ... */
  lemma MatchHeadingComplete(line: String, n: nat, w: nat)
    requires NoNewline(line)
    requires HeadingMatch(line, n, w)
    ensures MatchHeading(line) == Some(HeadingGroups(line[..n], line[n + w..]))
  {
    assert Run(line, 0, IsHash) == n by {
      assert !IsHash(line[n]);
    }
  }

  /** ... and succeeds only when there is one. */
  lemma MatchHeadingSound(line: String)
    requires NoNewline(line)
    requires MatchHeading(line).Some?
    ensures exists n: nat, w: nat :: HeadingMatch(line, n, w) && MatchHeading(line).value == HeadingGroups(line[..n], line[n + w..])
  {
    var n := Run(line, 0, IsHash);
    var w := Run(line, n, IsSpace);
    assert HeadingMatch(line, n, w);
  }

  /** The bullet pattern as an explicit matcher. */
  function MatchBullet(line: String): (g: Option<BulletGroups>)
    requires NoNewline(line)
    ensures g.Some? ==> g.value.marker == '-' || g.value.marker == '*'
  {
    var w := Run(line, 0, IsSpace);
    if w + 1 < |line| && (line[w] == '-' || line[w] == '*') && IsSpace(line[w + 1]) then
      var m := Run(line, w + 1, IsSpace);
      Some(BulletGroups(line[..w], line[w], line[w + 1 + m..]))
    else
      None
  }

  /** The bullet matcher finds the match when there is one ... */
  lemma MatchBulletComplete(line: String, w: nat, m: nat)
    requires NoNewline(line)
    requires BulletMatch(line, w, m)
    ensures MatchBullet(line) == Some(BulletGroups(line[..w], line[w], line[w + 1 + m..]))
  {
    assert Run(line, 0, IsSpace) == w by {
      assert !IsSpace(line[w]);
    }
  }

  /** ... and succeeds only when there is one. */
  lemma MatchBulletSound(line: String)
    requires NoNewline(line)
    requires MatchBullet(line).Some?
    ensures exists w: nat, m: nat :: BulletMatch(line, w, m) && MatchBullet(line).value == BulletGroups(line[..w], line[w], line[w + 1 + m..])
  {
    var w := Run(line, 0, IsSpace);
    var m := Run(line, w + 1, IsSpace);
    assert BulletMatch(line, w, m);
  }

  /** What every paragraph the parser makes satisfies: its mention spans are
      maximal `@\w+` matches of its text, in order; the indent level is never
      negative and is zero off a bullet; bullets and headings are never footers,
      and headings carry no bullet and no mentions. */
  predicate WellFormed(p: ParagraphSpec) {
    (forall k :: 0 <= k < |p.mentionSpans| ==> IsMentionSpan(p.text, p.mentionSpans[k]))
    && Ordered(p.mentionSpans)
    && 0 <= p.indentLevel
    && (!p.bullet ==> p.indentLevel == 0 && !p.checkbox)
    && (p.bullet ==> !p.isFooter && p.namedStyle == NormalText)
    && (p.namedStyle != NormalText ==> !p.bullet && !p.isFooter && p.mentionSpans == [])
  }

  /** The paragraph of a heading line: the stripped title at level
      `min(len(hashes), 3)`. */
  function HeadingParagraph(g: HeadingGroups): (p: ParagraphSpec)
    requires 1 <= |g.hashes|
    ensures WellFormed(p) && p.namedStyle != NormalText
  {
    var level := if |g.hashes| < 3 then |g.hashes| else 3;
    ParagraphSpec(Strip(g.title), HeadingStyle(level), false, false, 0, false, [])
  }

  /** The paragraph of a bullet line; a remainder starting with `[ ]` is a
      checkbox item and loses those three characters. */
  function BulletParagraph(g: BulletGroups): (p: ParagraphSpec)
    ensures WellFormed(p) && p.bullet
  {
    var checkbox := StartsWith(g.remainder, "[ ]");
    var content := if checkbox then Strip(g.remainder[3..]) else g.remainder;
    var cleanText := Strip(content);
    ParagraphSpec(cleanText, NormalText, true, checkbox, |g.indent| / 2, false, ExtractMentions(cleanText))
  }

  /** `line.lower().startswith(("meeting recorded", "duration"))`; see
      `StartsWithLoweredIsLowerStartsWith`. */
  predicate IsFooterLine(line: String) {
    StartsWithLowered(line, "meeting recorded") || StartsWithLowered(line, "duration")
  }

  /** The footer test ignores case: two lines that lower-case alike are both
      footers or both not. */
  lemma FooterIgnoresCase(s: String, t: String)
    requires Lower(s) == Lower(t)
    ensures IsFooterLine(s) <==> IsFooterLine(t)
  {
    StartsWithLoweredIsLowerStartsWith(s, "meeting recorded");
    StartsWithLoweredIsLowerStartsWith(t, "meeting recorded");
    StartsWithLoweredIsLowerStartsWith(s, "duration");
    StartsWithLoweredIsLowerStartsWith(t, "duration");
  }

  /** The paragraph of any other line: the line itself, right-stripped. */
  function PlainParagraph(line: String): (p: ParagraphSpec)
    ensures WellFormed(p) && !p.bullet && p.namedStyle == NormalText
  {
    ParagraphSpec(line, NormalText, false, false, 0, IsFooterLine(line), ExtractMentions(line))
  }

  /** A line as `splitlines()` yields it: no newline inside. */
  type Line = s: String | NoNewline(s)

  /** What one line contributes: nothing for a blank or rule line, otherwise
      the paragraph of the first rule that applies. */
  function LineParagraph(raw: Line): Option<ParagraphSpec> {
    var line := RStrip(raw);
    if line == [] then None
    else if Strip(line) == "---" then None
    else match MatchHeading(line)
      case Some(h) => Some(HeadingParagraph(h))
      case None =>
        match MatchBullet(line)
        case Some(b) => Some(BulletParagraph(b))
        case None => Some(PlainParagraph(line))
  }

  /** A line is dropped exactly when it is all whitespace or strips to `---`;
      every paragraph a line yields is well formed. */
  lemma LineParagraphShape(raw: Line)
    ensures LineParagraph(raw).None? <==> (forall j :: 0 <= j < |raw| ==> IsSpace(raw[j])) || Strip(raw) == "---"
    ensures LineParagraph(raw).Some? ==> WellFormed(LineParagraph(raw).value)
  {
    LineDropped(raw);
    RStripEmpty(raw);
    StripAfterRStrip(raw);
  }

  lemma LineDropped(raw: Line)
    ensures LineParagraph(raw).None? <==> RStrip(raw) == [] || Strip(RStrip(raw)) == "---"
    ensures LineParagraph(raw).Some? ==> WellFormed(LineParagraph(raw).value)
  {
    var line := RStrip(raw);
    if line != [] && Strip(line) != "---" {
      var heading := MatchHeading(line);
      var bullet := MatchBullet(line);
      if heading.Some? {
        UnfoldHeadingLine(raw, heading.value);
      } else if bullet.Some? {
        UnfoldBulletLine(raw, bullet.value);
      } else {
        UnfoldPlainLine(raw);
      }
    }
  }

  /** The three kinds of kept line, unfolded one at a time. */
  lemma UnfoldHeadingLine(raw: Line, g: HeadingGroups)
    requires RStrip(raw) != [] && Strip(RStrip(raw)) != "---"
    requires MatchHeading(RStrip(raw)) == Some(g)
    ensures LineParagraph(raw) == Some(HeadingParagraph(g))
  {
  }

  lemma UnfoldBulletLine(raw: Line, g: BulletGroups)
    requires RStrip(raw) != [] && Strip(RStrip(raw)) != "---"
    requires MatchHeading(RStrip(raw)).None? && MatchBullet(RStrip(raw)) == Some(g)
    ensures LineParagraph(raw) == Some(BulletParagraph(g))
  {
  }

  lemma UnfoldPlainLine(raw: Line)
    requires RStrip(raw) != [] && Strip(RStrip(raw)) != "---"
    requires MatchHeading(RStrip(raw)).None? && MatchBullet(RStrip(raw)).None?
    ensures LineParagraph(raw) == Some(PlainParagraph(RStrip(raw)))
  {
  }

  /** A right-stripped line starting with a non-blank character other than
      `-` (such as a heading's `#`) is not a rule. */
  lemma NotRuleAt0(line: String)
    requires line != [] && RStrip(line) == line
    requires !IsSpace(line[0]) && line[0] != '-'
    ensures Strip(line) != "---"
  {
    LStripAt(line, 0);
  }

  /** A right-stripped line whose first non-blank character at `w` is
      followed by a blank one is not a rule. */
  lemma NotRuleAt(line: String, w: nat)
    requires w + 1 < |line| && RStrip(line) == line
    requires forall j :: 0 <= j < w ==> IsSpace(line[j])
    requires !IsSpace(line[w]) && IsSpace(line[w + 1])
    ensures Strip(line) != "---"
  {
    LStripAt(line, w);
    assert Strip(line)[1] == line[w + 1];
  }

  /** A line the heading pattern matches (after right-stripping) becomes a
      heading at level `min(n, 3)` whose text is the rest of the line after
      the hashes and the blank run, never empty; it has no bullet, checkbox,
      indent, footer flag or mentions. The heading test comes first, so
      nothing else about the line matters. */
  lemma HeadingLine(raw: Line, n: nat, w: nat)
    requires HeadingMatch(RStrip(raw), n, w)
    ensures var line := RStrip(raw);
      n + w < |line| && Strip(line[n + w..]) == line[n + w..] &&
      LineParagraph(raw) == Some(ParagraphSpec(line[n + w..], HeadingStyle(if n < 3 then n else 3), false, false, 0, false, []))
  {
    var line := RStrip(raw);
    var title := line[n + w..];
    var g := HeadingGroups(line[..n], title);
    HeadingTitleIsStripped(raw, n, w);
    assert HeadingParagraph(g) == ParagraphSpec(title, HeadingStyle(if n < 3 then n else 3), false, false, 0, false, []);
    HeadingLineGroups(raw, n, w);
  }

  lemma HeadingLineGroups(raw: Line, n: nat, w: nat)
    requires HeadingMatch(RStrip(raw), n, w)
    ensures var line := RStrip(raw);
      LineParagraph(raw) == Some(HeadingParagraph(HeadingGroups(line[..n], line[n + w..])))
  {
    var line := RStrip(raw);
    assert RStrip(line) == line;
    HeadingMatchIsKept(line, n, w);
    UnfoldHeadingLine(raw, HeadingGroups(line[..n], line[n + w..]));
  }

  /** A right-stripped line the heading pattern matches is neither blank nor
      a rule, and the heading matcher returns its groups. */
  lemma HeadingMatchIsKept(line: String, n: nat, w: nat)
    requires RStrip(line) == line
    requires HeadingMatch(line, n, w)
    ensures line != [] && Strip(line) != "---"
    ensures NoNewline(line) ==> MatchHeading(line) == Some(HeadingGroups(line[..n], line[n + w..]))
  {
    NotRuleAt0(line);
    if NoNewline(line) {
      MatchHeadingComplete(line, n, w);
    }
  }

  /** The title of a matched, right-stripped heading line is not empty and
      is its own strip. */
  lemma HeadingTitleIsStripped(raw: Line, n: nat, w: nat)
    requires HeadingMatch(RStrip(raw), n, w)
    ensures var line := RStrip(raw);
      n + w < |line| && Strip(line[n + w..]) == line[n + w..]
  {
    var line := RStrip(raw);
    assert !IsSpace(line[|line| - 1]);
    assert IsSpace(line[n + w - 1]);
    var title := line[n + w..];
    assert title[|title| - 1] == line[|line| - 1];
    StripNoop(title);
  }

  /** The text of a matched bullet line: stripping the remainder changes
      nothing, and stripping twice is stripping once. */
  lemma BulletTextIsStripped(raw: Line, w: nat, m: nat)
    requires BulletMatch(RStrip(raw), w, m)
    ensures var rest := RStrip(raw)[w + 1 + m..];
      Strip(rest) == rest && (|rest| >= 3 ==> Strip(Strip(rest[3..])) == Strip(rest[3..]))
  {
    var line := RStrip(raw);
    var rest := line[w + 1 + m..];
    assert !IsSpace(line[|line| - 1]);
    assert rest[|rest| - 1] == line[|line| - 1];
    StripNoop(rest);
    if |rest| >= 3 {
      StripIdempotent(rest[3..]);
    }
  }

  lemma BulletParagraphText(g: BulletGroups)
    requires Strip(g.remainder) == g.remainder
    requires |g.remainder| >= 3 ==> Strip(Strip(g.remainder[3..])) == Strip(g.remainder[3..])
    ensures var checkbox := StartsWith(g.remainder, "[ ]");
      var text := if checkbox then Strip(g.remainder[3..]) else g.remainder;
      BulletParagraph(g) == ParagraphSpec(text, NormalText, true, checkbox, |g.indent| / 2, false, ExtractMentions(text))
  {
  }

  /** A line the bullet pattern matches becomes a bullet at indent level
      `w / 2` for `w` leading whitespace characters, never a footer; it is a
      checkbox exactly when the remainder starts with `[ ]`, and its text is the
      remainder without that marker, stripped. Mentions are those of that text. */
  lemma BulletLine(raw: Line, w: nat, m: nat)
    requires BulletMatch(RStrip(raw), w, m)
    ensures var rest := RStrip(raw)[w + 1 + m..];
      var checkbox := StartsWith(rest, "[ ]");
      var text := if checkbox then Strip(rest[3..]) else rest;
      Strip(text) == text &&
      LineParagraph(raw) == Some(ParagraphSpec(text, NormalText, true, checkbox, w / 2, false, ExtractMentions(text)))
  {
    var line := RStrip(raw);
    var rest := line[w + 1 + m..];
    var checkbox := StartsWith(rest, "[ ]");
    var text := if checkbox then Strip(rest[3..]) else rest;
    var g := BulletGroups(line[..w], line[w], rest);
    BulletTextIsStripped(raw, w, m);
    BulletParagraphText(g);
    BulletLineGroups(raw, w, m);
  }

  lemma BulletLineGroups(raw: Line, w: nat, m: nat)
    requires BulletMatch(RStrip(raw), w, m)
    ensures var line := RStrip(raw);
      LineParagraph(raw) == Some(BulletParagraph(BulletGroups(line[..w], line[w], line[w + 1 + m..])))
  {
    var line := RStrip(raw);
    assert RStrip(line) == line;
    BulletMatchIsKept(line, w, m);
    UnfoldBulletLine(raw, BulletGroups(line[..w], line[w], line[w + 1 + m..]));
  }

  /** A right-stripped line the bullet pattern matches is neither blank, nor
      a rule, nor a heading, and the bullet matcher returns its groups. */
  lemma BulletMatchIsKept(line: String, w: nat, m: nat)
    requires RStrip(line) == line
    requires BulletMatch(line, w, m)
    ensures line != [] && Strip(line) != "---"
    ensures NoNewline(line) ==> MatchHeading(line).None? && MatchBullet(line) == Some(BulletGroups(line[..w], line[w], line[w + 1 + m..]))
  {
    NotRuleAt(line, w);
    if NoNewline(line) {
      assert MatchHeading(line).None? by {
        assert !IsHash(line[0]);
      }
      MatchBulletComplete(line, w, m);
    }
  }

  /** Any other non-blank line that is not a rule is kept as it is after
      right-stripping (leading whitespace included), as normal text without
      bullet, checkbox or indent; it is a footer exactly when it starts, in any
      letter case, with "meeting recorded" or "duration". */
  lemma PlainLine(raw: Line)
    requires Strip(raw) != [] && Strip(raw) != "---"
    requires forall n: nat, w: nat :: !HeadingMatch(RStrip(raw), n, w)
    requires forall w: nat, m: nat :: !BulletMatch(RStrip(raw), w, m)
    ensures var line := RStrip(raw);
      LineParagraph(raw) == Some(ParagraphSpec(line, NormalText, false, false, 0, IsFooterLine(line), ExtractMentions(line)))
  {
    var line := RStrip(raw);
    StripAfterRStrip(raw);
    assert line != [];
    if MatchHeading(line).Some? {
      MatchHeadingSound(line);
    }
    if MatchBullet(line).Some? {
      MatchBulletSound(line);
    }
    UnfoldPlainLine(raw);
  }

  /** The value of `o` as a sequence of at most one element. */
  function Values<T>(o: Option<T>): seq<T> {
    if o.Some? then [o.value] else []
  }

  /** What `f` yields for each line, in line order, skipping lines for which it
      yields nothing. */
  function Collect<T>(f: Line -> Option<T>, lines: seq<Line>): (vs: seq<T>)
    ensures |vs| <= |lines|
  {
    if lines == [] then []
    else Collect(f, lines[..|lines| - 1]) + Values(f(lines[|lines| - 1]))
  }

  /** Collecting one more line appends what that line yields. */
  lemma CollectSnoc<T>(f: Line -> Option<T>, lines: seq<Line>, i: nat)
    requires i < |lines|
    ensures Collect(f, lines[..i + 1]) == Collect(f, lines[..i]) + Values(f(lines[i]))
  {
    assert lines[..i + 1][..i] == lines[..i];
  }

  lemma {:induction false} CollectAppend<T>(f: Line -> Option<T>, a: seq<Line>, b: seq<Line>)
    ensures Collect(f, a + b) == Collect(f, a) + Collect(f, b)
    decreases |b|
  {
    if b == [] {
      assert a + b == a;
    } else {
      assert (a + b)[..|a + b| - 1] == a + b[..|b| - 1];
      CollectAppend(f, a, b[..|b| - 1]);
    }
  }

  /** What line `i` yields lands right after what the lines before it yield. */
  lemma CollectAt<T>(f: Line -> Option<T>, lines: seq<Line>, i: nat)
    requires i < |lines| && f(lines[i]).Some?
    ensures |Collect(f, lines[..i])| < |Collect(f, lines)|
    ensures Collect(f, lines)[|Collect(f, lines[..i])|] == f(lines[i]).value
  {
    assert lines == lines[..i + 1] + lines[i + 1..];
    CollectAppend(f, lines[..i + 1], lines[i + 1..]);
    CollectSnoc(f, lines, i);
  }

  /** Whatever `f` guarantees of each value it yields holds of all the
      collected values. */
  lemma {:induction false} CollectAll<T>(f: Line -> Option<T>, P: T -> bool, lines: seq<Line>)
    requires forall l: Line :: f(l).Some? ==> P(f(l).value)
    ensures forall k :: 0 <= k < |Collect(f, lines)| ==> P(Collect(f, lines)[k])
    decreases |lines|
  {
    if lines != [] {
      CollectAll(f, P, lines[..|lines| - 1]);
    }
  }

  /** Nothing is collected exactly when no line yields anything. */
  lemma {:induction false} CollectEmpty<T>(f: Line -> Option<T>, lines: seq<Line>)
    ensures Collect(f, lines) == [] <==> forall k :: 0 <= k < |lines| ==> f(lines[k]).None?
    decreases |lines|
  {
    if lines != [] {
      var i := |lines| - 1;
      CollectEmpty(f, lines[..i]);
      CollectSnoc(f, lines, i);
      assert lines[..i + 1] == lines;
      if forall k :: 0 <= k < |lines| ==> f(lines[k]).None? {
        assert forall k :: 0 <= k < i ==> f(lines[..i][k]).None?;
      } else {
        var k :| 0 <= k < |lines| && f(lines[k]).Some?;
        if k < i {
          assert f(lines[..i][k]).Some?;
        }
      }
    }
  }

  /** The paragraphs of a sequence of lines, in line order. */
  function ParseLines(lines: seq<Line>): seq<ParagraphSpec> {
    Collect(LineParagraph, lines)
  }

  /** Lines are parsed independently: the paragraphs of two blocks of lines are
      those of the first block followed by those of the second. */
  lemma ParseAppend(a: seq<Line>, b: seq<Line>)
    ensures ParseLines(a + b) == ParseLines(a) + ParseLines(b)
  {
    CollectAppend(LineParagraph, a, b);
  }

  /** Parsing one more line appends what that line yields. */
  lemma ParseSnoc(lines: seq<Line>, i: nat)
    requires i < |lines|
    ensures ParseLines(lines[..i + 1]) == ParseLines(lines[..i]) + Values(LineParagraph(lines[i]))
  {
    CollectSnoc(LineParagraph, lines, i);
  }

  /** Every kept line gives exactly one paragraph, and in line order: the
      paragraph of line `i` comes right after those of the lines before it,
      while a dropped line adds none. */
  lemma ParagraphOfLine(lines: seq<Line>, i: nat)
    requires i < |lines|
    ensures LineParagraph(lines[i]).None? ==> ParseLines(lines[..i + 1]) == ParseLines(lines[..i])
    ensures LineParagraph(lines[i]).Some? ==>
      |ParseLines(lines[..i])| < |ParseLines(lines)| &&
      ParseLines(lines)[|ParseLines(lines[..i])|] == LineParagraph(lines[i]).value
  {
    ParseSnoc(lines, i);
    if LineParagraph(lines[i]).Some? {
      CollectAt(LineParagraph, lines, i);
    }
  }

  /** A parse yields no paragraph exactly when every line is blank or a rule;
      in particular no text yields none. */
  lemma NothingParsed(lines: seq<Line>)
    ensures ParseLines(lines) == [] <==>
      forall k :: 0 <= k < |lines| ==> (forall j :: 0 <= j < |lines[k]| ==> IsSpace(lines[k][j])) || Strip(lines[k]) == "---"
  {
    CollectEmpty(LineParagraph, lines);
    forall k | 0 <= k < |lines| {
      LineParagraphShape(lines[k]);
    }
  }

  /** Every paragraph of a parse is well formed. */
  lemma ParsedWellFormed(lines: seq<Line>)
    ensures forall k :: 0 <= k < |ParseLines(lines)| ==> WellFormed(ParseLines(lines)[k])
  {
    forall l: Line | LineParagraph(l).Some? ensures WellFormed(LineParagraph(l).value) {
      LineParagraphShape(l);
    }
    CollectAll(LineParagraph, WellFormed, lines);
  }

  /** The lines of a text, which hold no newline. */
  function Lines(markdownText: String): (lines: seq<Line>)
    ensures |lines| == |SplitLines(markdownText)|
    ensures forall k :: 0 <= k < |lines| ==> lines[k] == SplitLines(markdownText)[k]
  {
    var lines := SplitLines(markdownText);
    assert forall k, j :: 0 <= k < |lines| && 0 <= j < |lines[k]| ==> !IsLineBreak(lines[k][j]);
    lines
  }

  /** `parse_markdown` as a function of the whole text. */
  function Parse(markdownText: String): seq<ParagraphSpec> {
    ParseLines(Lines(markdownText))
  }

  /** `parse_markdown`: a loop over the lines that skips blank and rule lines
      and appends the paragraph of every other line. */
  method ParseMarkdown(markdownText: String) returns (paragraphs: seq<ParagraphSpec>)
    ensures paragraphs == Parse(markdownText)
  {
    var lines := Lines(markdownText);
    paragraphs := [];
    for i := 0 to |lines|
      invariant paragraphs == ParseLines(lines[..i])
    {
      ParseSnoc(lines, i);
      var line := RStrip(lines[i]);
      if line == [] {
        continue;
      }
      if Strip(line) == "---" {
        continue;
      }
      var heading := MatchHeading(line);
      if heading.Some? {
        UnfoldHeadingLine(lines[i], heading.value);
        paragraphs := paragraphs + [HeadingParagraph(heading.value)];
        continue;
      }
      var bullet := MatchBullet(line);
      if bullet.Some? {
        UnfoldBulletLine(lines[i], bullet.value);
        paragraphs := paragraphs + [BulletParagraph(bullet.value)];
        continue;
      }
      UnfoldPlainLine(lines[i]);
      paragraphs := paragraphs + [PlainParagraph(line)];
    }
    assert lines[..|lines|] == lines;
  }
}
