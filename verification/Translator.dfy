/** The request builder of `populate_document`: the Google Docs batch-update
    requests that write the parsed paragraphs into an empty document and
    style them. Requests are values; the remote `batchUpdate` call that sends
    them is not part of this model. */
module Translator {
  import opened Text
  import opened Mentions
  import opened Parser

  /** `INDENT_WIDTH_PT`: points of indentation per indent level. */
  const IndentWidthPt := 18

  /** A half-open `[start, end)` range of document indices. */
  datatype Range = Range(start: int, end: int)

  datatype BulletPreset = BulletCheckbox | BulletDiscCircleSquare

  /** One batch-update request. The fixed colours, the italic and bold flags
      and the `PT` unit of the source's dictionaries are implied by the tag. */
  datatype Request =
    | InsertText(index: int, text: String)
    | UpdateNamedStyle(range: Range, namedStyle: NamedStyle)
    | UpdateIndent(range: Range, magnitude: int)
    | CreateBullets(range: Range, preset: BulletPreset)
    | FooterStyle(range: Range)
    | MentionStyle(range: Range)

  /** The document length the paragraphs take: each text plus its newline. */
  function TotalLength(ps: seq<ParagraphSpec>): nat {
    if ps == [] then 0
    else TotalLength(ps[..|ps| - 1]) + |ps[|ps| - 1].text| + 1
  }

  /** The index at which paragraph `i` is inserted: the document body starts
      at index 1 and every earlier paragraph pushes it on. */
  function Offset(ps: seq<ParagraphSpec>, i: nat): int
    requires i <= |ps|
  {
    1 + TotalLength(ps[..i])
  }

  /** The range paragraph `i` occupies, its newline included. */
  function ParagraphRange(ps: seq<ParagraphSpec>, i: nat): Range
    requires i < |ps|
  {
    Range(Offset(ps, i), Offset(ps, i + 1))
  }

  /** `paragraph_ranges` once the first loop is done. */
  function ParagraphRanges(ps: seq<ParagraphSpec>): (rs: seq<Range>)
    ensures |rs| == |ps|
  {
    seq(|ps|, i requires 0 <= i < |ps| => ParagraphRange(ps, i))
  }

  /** The first loop's requests: each paragraph's text and newline, inserted
      at its offset. */
  function InsertionPass(ps: seq<ParagraphSpec>): (reqs: seq<Request>)
    ensures |reqs| == |ps|
  {
    seq(|ps|, i requires 0 <= i < |ps| => InsertText(Offset(ps, i), ps[i].text + "\n"))
  }

  function Preset(p: ParagraphSpec): BulletPreset {
    if p.checkbox then BulletCheckbox else BulletDiscCircleSquare
  }

  /** A mention span, shifted by the start of its paragraph. */
  function MentionRange(sp: Span, start: int): Range {
    Range(start + sp.start, start + sp.end)
  }

  /** One bold, coloured text style per mention span, shifted by the
      paragraph's start. */
  function MentionRequests(spans: seq<Span>, start: int): (reqs: seq<Request>)
    ensures |reqs| == |spans|
  {
    seq(|spans|, k requires 0 <= k < |spans| => MentionStyle(MentionRange(spans[k], start)))
  }

  /** The named-style update, for a heading. */
  function NamedStylePart(p: ParagraphSpec, rg: Range): seq<Request> {
    if p.namedStyle != NormalText then [UpdateNamedStyle(rg, p.namedStyle)] else []
  }

  /** For a bullet: the indent update when the indent is not zero, then the
      bullet creation. */
  function BulletPart(p: ParagraphSpec, rg: Range): seq<Request> {
    if p.bullet then
      (if p.indentLevel * IndentWidthPt != 0 then [UpdateIndent(rg, p.indentLevel * IndentWidthPt)] else [])
      + [CreateBullets(rg, Preset(p))]
    else []
  }

  /** The grey italic style of a footer, over its text without the newline. */
  function FooterPart(p: ParagraphSpec, rg: Range): seq<Request> {
    if p.isFooter then [FooterStyle(Range(rg.start, rg.start + |p.text|))] else []
  }

  /** What the second loop emits for one paragraph over its range `rg`, in the
      source's order: named style, indent, bullets, footer style, mentions. */
  function StyleRequests(p: ParagraphSpec, rg: Range): seq<Request> {
    NamedStylePart(p, rg) + BulletPart(p, rg) + FooterPart(p, rg) + MentionRequests(p.mentionSpans, rg.start)
  }

  /** The concatenation `f(0) + f(1) + … + f(n - 1)`. */
  function Flatten<T>(f: nat -> seq<T>, n: nat): seq<T> {
    if n == 0 then [] else Flatten(f, n - 1) + f(n - 1)
  }

  /** A property of every element of every part holds of every element of
      the concatenation. */
  lemma {:induction false} FlattenAll<T>(f: nat -> seq<T>, n: nat, P: T -> bool)
    requires forall i, k :: 0 <= i < n && 0 <= k < |f(i)| ==> P(f(i)[k])
    ensures forall k :: 0 <= k < |Flatten(f, n)| ==> P(Flatten(f, n)[k])
  {
    if n > 0 {
      FlattenAll(f, n - 1, P);
      var prev, last := Flatten(f, n - 1), f(n - 1);
      assert Flatten(f, n) == prev + last;
      forall k | 0 <= k < |Flatten(f, n)| ensures P(Flatten(f, n)[k]) {
        if k < |prev| {
          assert Flatten(f, n)[k] == prev[k];
        } else {
          assert Flatten(f, n)[k] == last[k - |prev|];
        }
      }
    }
  }

  /** A property of every element of `a` and of `b` holds of every element
      of `a + b`. */
  lemma AppendAll<T>(a: seq<T>, b: seq<T>, P: T -> bool)
    requires forall k :: 0 <= k < |a| ==> P(a[k])
    requires forall k :: 0 <= k < |b| ==> P(b[k])
    ensures forall k :: 0 <= k < |a + b| ==> P((a + b)[k])
  {
    forall k | 0 <= k < |a + b| ensures P((a + b)[k]) {
      if k < |a| {
        assert (a + b)[k] == a[k];
      } else {
        assert (a + b)[k] == b[k - |a|];
      }
    }
  }

  /** A property of every element of `b` holds of every element of `a + b`
      past `a`. */
  lemma AppendTail<T>(a: seq<T>, b: seq<T>, P: T -> bool)
    requires forall k :: 0 <= k < |b| ==> P(b[k])
    ensures forall k :: |a| <= k < |a + b| ==> P((a + b)[k])
  {
    forall k | |a| <= k < |a + b| ensures P((a + b)[k]) {
      assert (a + b)[k] == b[k - |a|];
    }
  }

  /** Paragraph `i`'s styling requests, over its range. */
  function Styling(ps: seq<ParagraphSpec>): nat -> seq<Request> {
    (i: nat) => if i < |ps| then StyleRequests(ps[i], ParagraphRange(ps, i)) else []
  }

  /** The second loop's requests for the first `n` paragraphs. */
  function StylingPass(ps: seq<ParagraphSpec>, n: nat): seq<Request> {
    Flatten(Styling(ps), n)
  }

  /** Styling one more paragraph appends its requests. */
  lemma StylingPassSnoc(ps: seq<ParagraphSpec>, i: nat)
    requires i < |ps|
    ensures StylingPass(ps, i + 1) == StylingPass(ps, i) + StyleRequests(ps[i], ParagraphRange(ps, i))
  {
    assert Styling(ps)(i) == StyleRequests(ps[i], ParagraphRange(ps, i));
  }

  /** Every request `populate_document` sends, in order. */
  function BuildRequests(ps: seq<ParagraphSpec>): seq<Request> {
    InsertionPass(ps) + StylingPass(ps, |ps|)
  }

  /** Adding one paragraph adds its text and newline to the total length. */
  lemma TotalLengthSnoc(ps: seq<ParagraphSpec>, i: nat)
    requires i < |ps|
    ensures TotalLength(ps[..i + 1]) == TotalLength(ps[..i]) + |ps[i].text| + 1
  {
    assert ps[..i + 1][..i] == ps[..i];
  }

  /** Offsets never decrease along the paragraphs. */
  lemma {:induction false} OffsetMonotone(ps: seq<ParagraphSpec>, i: nat, j: nat)
    requires i <= j <= |ps|
    ensures Offset(ps, i) + (j - i) <= Offset(ps, j)
    decreases j - i
  {
    if i < j {
      OffsetMonotone(ps, i, j - 1);
      TotalLengthSnoc(ps, j - 1);
    }
  }

  lemma Assoc<T>(a: seq<T>, b: seq<T>, c: seq<T>)
    ensures a + b + c == a + (b + c)
  {
  }

  /** The body of the styling loop for one paragraph and its range: the
      requests it appends, in the order it appends them. */
  method ParagraphStyleRequests(spec: ParagraphSpec, range: Range) returns (reqs: seq<Request>)
    ensures reqs == StyleRequests(spec, range)
  {
    reqs := [];
    ghost var n, b, f := NamedStylePart(spec, range), BulletPart(spec, range), FooterPart(spec, range);
    ghost var m := MentionRequests(spec.mentionSpans, range.start);
    if spec.namedStyle != NormalText {
      reqs := reqs + [UpdateNamedStyle(range, spec.namedStyle)];
    }
    assert reqs == n;
    if spec.bullet {
      ghost var named := reqs;
      var indent := spec.indentLevel * IndentWidthPt;
      if indent != 0 {
        reqs := reqs + [UpdateIndent(range, indent)];
      }
      var bulletPreset := if spec.checkbox then BulletCheckbox else BulletDiscCircleSquare;
      reqs := reqs + [CreateBullets(range, bulletPreset)];
      if indent != 0 {
        Assoc(named, [UpdateIndent(range, indent)], [CreateBullets(range, bulletPreset)]);
      }
    }
    assert reqs == n + b;
    if spec.isFooter {
      reqs := reqs + [FooterStyle(Range(range.start, range.start + |spec.text|))];
    }
    assert reqs == n + b + f;
    ghost var fixed := reqs;
    for k := 0 to |spec.mentionSpans|
      invariant reqs == fixed + m[..k]
    {
      var span := spec.mentionSpans[k];
      reqs := reqs + [MentionStyle(Range(range.start + span.start, range.start + span.end))];
      assert m[..k + 1] == m[..k] + [m[k]];
      Assoc(fixed, m[..k], [m[k]]);
    }
    assert m[..|spec.mentionSpans|] == m;
  }

  /** The first `|ps|` requests insert the paragraphs in order, paragraph `i`
      with its newline at `1 + Σ_{j<i} (|text_j| + 1)`, which is where its
      range starts; no later request inserts text. */
  lemma InsertionsFirst(ps: seq<ParagraphSpec>)
    ensures |ps| <= |BuildRequests(ps)|
    ensures forall i :: 0 <= i < |ps| ==>
      BuildRequests(ps)[i] == InsertText(1 + TotalLength(ps[..i]), ps[i].text + "\n")
      && BuildRequests(ps)[i].index == ParagraphRanges(ps)[i].start
    ensures forall k :: |ps| <= k < |BuildRequests(ps)| ==> !BuildRequests(ps)[k].InsertText?
  {
    var ins: seq<Request> := InsertionPass(ps);
    var sty: seq<Request> := StylingPass(ps, |ps|);
    assert BuildRequests(ps) == ins + sty;
    StylingHasNoInsert(ps, |ps|);
    forall i | 0 <= i < |ps|
      ensures BuildRequests(ps)[i] == InsertText(1 + TotalLength(ps[..i]), ps[i].text + "\n")
    {
      assert BuildRequests(ps)[i] == ins[i];
    }
    AppendTail(ins, sty, (r: Request) => !r.InsertText?);
  }

  lemma StylingHasNoInsert(ps: seq<ParagraphSpec>, n: nat)
    ensures forall k :: 0 <= k < |StylingPass(ps, n)| ==> !StylingPass(ps, n)[k].InsertText?
  {
    forall i | 0 <= i < n && i < |ps| {
      StyleHasNoInsert(ps[i], ParagraphRange(ps, i));
    }
    FlattenAll(Styling(ps), n, (r: Request) => !r.InsertText?);
  }

  lemma StyleHasNoInsert(p: ParagraphSpec, rg: Range)
    ensures forall k :: 0 <= k < |StyleRequests(p, rg)| ==> !StyleRequests(p, rg)[k].InsertText?
  {
  }

  /** The recorded ranges tile the document: the first starts at index 1,
      each is one longer than its paragraph's text, each ends where the next
      starts, they never overlap, and the last ends at the final cursor,
      `1 + Σ (|text_j| + 1)`. */
  lemma RangesTile(ps: seq<ParagraphSpec>)
    ensures var rs := ParagraphRanges(ps);
      (|ps| > 0 ==> rs[0].start == 1 && rs[|ps| - 1].end == 1 + TotalLength(ps))
      && (forall i :: 0 <= i < |ps| ==> rs[i].end - rs[i].start == |ps[i].text| + 1)
      && (forall i :: 0 <= i < |ps| - 1 ==> rs[i].end == rs[i + 1].start)
      && (forall i, j :: 0 <= i < j < |ps| ==> rs[i].end <= rs[j].start)
  {
    RangesEnds(ps);
    RangeLengths(ps);
    RangesDisjoint(ps);
  }

  lemma RangesEnds(ps: seq<ParagraphSpec>)
    ensures |ps| > 0 ==> ParagraphRanges(ps)[0].start == 1 && ParagraphRanges(ps)[|ps| - 1].end == 1 + TotalLength(ps)
  {
    if |ps| > 0 {
      assert ParagraphRanges(ps)[0] == ParagraphRange(ps, 0);
      assert ps[..0] == [];
      assert ParagraphRanges(ps)[|ps| - 1] == ParagraphRange(ps, |ps| - 1);
      assert ps[..|ps|] == ps;
    }
  }

  lemma RangeLengths(ps: seq<ParagraphSpec>)
    ensures forall i :: 0 <= i < |ps| ==> ParagraphRanges(ps)[i].end - ParagraphRanges(ps)[i].start == |ps[i].text| + 1
  {
    forall i | 0 <= i < |ps|
      ensures ParagraphRanges(ps)[i].end - ParagraphRanges(ps)[i].start == |ps[i].text| + 1
    {
      assert ParagraphRanges(ps)[i] == ParagraphRange(ps, i);
      TotalLengthSnoc(ps, i);
    }
  }

  lemma RangesDisjoint(ps: seq<ParagraphSpec>)
    ensures forall i, j :: 0 <= i < j < |ps| ==> ParagraphRanges(ps)[i].end <= ParagraphRanges(ps)[j].start
  {
    forall i, j | 0 <= i < j < |ps|
      ensures ParagraphRanges(ps)[i].end <= ParagraphRanges(ps)[j].start
    {
      assert ParagraphRanges(ps)[i] == ParagraphRange(ps, i);
      assert ParagraphRanges(ps)[j] == ParagraphRange(ps, j);
      OffsetMonotone(ps, i + 1, j);
    }
  }

  /** Every index of the document body `[1, 1 + Σ (|text_j| + 1))` lies in
      the range of some paragraph. */
  lemma RangesCover(ps: seq<ParagraphSpec>, x: int)
    requires 1 <= x < 1 + TotalLength(ps)
    ensures exists i :: 0 <= i < |ps| && ParagraphRanges(ps)[i].start <= x < ParagraphRanges(ps)[i].end
  {
    assert ps[..|ps|] == ps;
    var i := CoveringRange(ps, |ps|, x);
    assert ParagraphRanges(ps)[i] == ParagraphRange(ps, i);
  }

  lemma {:induction false} CoveringRange(ps: seq<ParagraphSpec>, n: nat, x: int) returns (i: nat)
    requires n <= |ps| && 1 <= x < Offset(ps, n)
    ensures i < n && Offset(ps, i) <= x < Offset(ps, i + 1)
  {
    assert ps[..0] == [];
    if n == 0 {
      assert false;
    } else if x >= Offset(ps, n - 1) {
      i := n - 1;
    } else {
      i := CoveringRange(ps, n - 1, x);
    }
  }

  /** The order in which the styling loop emits a paragraph's requests. */
  function Rank(r: Request): nat {
    match r
    case InsertText(_, _) => 0
    case UpdateNamedStyle(_, _) => 1
    case UpdateIndent(_, _) => 2
    case CreateBullets(_, _) => 3
    case FooterStyle(_) => 4
    case MentionStyle(_) => 5
  }

  predicate RanksBetween(reqs: seq<Request>, lo: nat, hi: nat) {
    forall k :: 0 <= k < |reqs| ==> lo <= Rank(reqs[k]) <= hi
  }

  predicate RankSorted(reqs: seq<Request>) {
    forall k, l :: 0 <= k < l < |reqs| ==> Rank(reqs[k]) <= Rank(reqs[l])
  }

  lemma SortedAppend(a: seq<Request>, b: seq<Request>, lo: nat, mid: nat, hi: nat)
    requires lo <= mid <= hi
    requires RankSorted(a) && RanksBetween(a, lo, mid)
    requires RankSorted(b) && RanksBetween(b, mid, hi)
    ensures RankSorted(a + b) && RanksBetween(a + b, lo, hi)
  {
    forall k | 0 <= k < |a + b| ensures lo <= Rank((a + b)[k]) <= hi {
      if k < |a| {
        assert (a + b)[k] == a[k];
      } else {
        assert (a + b)[k] == b[k - |a|];
      }
    }
    forall k, l | 0 <= k < l < |a + b| ensures Rank((a + b)[k]) <= Rank((a + b)[l]) {
      if l < |a| {
        assert (a + b)[k] == a[k] && (a + b)[l] == a[l];
      } else if k < |a| {
        assert (a + b)[k] == a[k] && (a + b)[l] == b[l - |a|];
      } else {
        assert (a + b)[k] == b[k - |a|] && (a + b)[l] == b[l - |a|];
      }
    }
  }

  /** A paragraph's styling requests come in the source's fixed order: named
      style, indent, bullets, footer style, then mentions. */
  lemma StyleOrder(p: ParagraphSpec, rg: Range)
    ensures RankSorted(StyleRequests(p, rg)) && RanksBetween(StyleRequests(p, rg), 1, 5)
  {
    var n, b, f := NamedStylePart(p, rg), BulletPart(p, rg), FooterPart(p, rg);
    var m := MentionRequests(p.mentionSpans, rg.start);
    assert RankSorted(b) && RanksBetween(b, 2, 3) by {
      if p.bullet && p.indentLevel * IndentWidthPt != 0 {
        SortedAppend([UpdateIndent(rg, p.indentLevel * IndentWidthPt)], [CreateBullets(rg, Preset(p))], 2, 2, 3);
      }
    }
    SortedAppend(n, b, 1, 1, 3);
    SortedAppend(n + b, f, 1, 3, 4);
    SortedAppend(n + b + f, m, 1, 4, 5);
  }

  /** How many of `reqs` have rank `r`. */
  function CountRank(reqs: seq<Request>, r: nat): nat {
    if reqs == [] then 0
    else CountRank(reqs[..|reqs| - 1], r) + (if Rank(reqs[|reqs| - 1]) == r then 1 else 0)
  }

  lemma {:induction false} CountRankAppend(a: seq<Request>, b: seq<Request>, r: nat)
    ensures CountRank(a + b, r) == CountRank(a, r) + CountRank(b, r)
    decreases |b|
  {
    if b == [] {
      assert a + b == a;
    } else {
      assert (a + b)[..|a + b| - 1] == a + b[..|b| - 1];
      CountRankAppend(a, b[..|b| - 1], r);
    }
  }

  lemma {:induction false} CountRankOutside(reqs: seq<Request>, r: nat, lo: nat, hi: nat)
    requires RanksBetween(reqs, lo, hi) && !(lo <= r <= hi)
    ensures CountRank(reqs, r) == 0
    decreases |reqs|
  {
    if reqs != [] {
      CountRankOutside(reqs[..|reqs| - 1], r, lo, hi);
    }
  }

  lemma {:induction false} CountRankAll(reqs: seq<Request>, r: nat)
    requires RanksBetween(reqs, r, r)
    ensures CountRank(reqs, r) == |reqs|
    decreases |reqs|
  {
    if reqs != [] {
      CountRankAll(reqs[..|reqs| - 1], r);
    }
  }

  /** Which styling requests a paragraph gets, and how many of each: a named
      style update exactly for a heading; for a bullet an indent update exactly
      when `indent_level * 18` is not zero and exactly one bullet creation;
      one footer style exactly for a footer; one style per mention span. */
  lemma StyleCounts(p: ParagraphSpec, rg: Range)
    ensures var reqs := StyleRequests(p, rg);
      CountRank(reqs, 1) == (if p.namedStyle != NormalText then 1 else 0)
      && CountRank(reqs, 2) == (if p.bullet && p.indentLevel * IndentWidthPt != 0 then 1 else 0)
      && CountRank(reqs, 3) == (if p.bullet then 1 else 0)
      && CountRank(reqs, 4) == (if p.isFooter then 1 else 0)
      && CountRank(reqs, 5) == |p.mentionSpans|
      && CountRank(reqs, 0) == 0
  {
    StyleCountAt(p, rg, 0);
    StyleCountAt(p, rg, 1);
    StyleCountAt(p, rg, 2);
    StyleCountAt(p, rg, 3);
    StyleCountAt(p, rg, 4);
    StyleCountAt(p, rg, 5);
  }

  lemma CountRankSingle(x: Request, r: nat)
    ensures CountRank([x], r) == if Rank(x) == r then 1 else 0
  {
    assert [x][..0] == [];
  }

  /** The requests of rank `r` in a paragraph's styling, part by part. */
  lemma StyleCountAt(p: ParagraphSpec, rg: Range, r: nat)
    ensures CountRank(StyleRequests(p, rg), r) ==
      (if p.namedStyle != NormalText && r == 1 then 1 else 0)
      + (if p.bullet && p.indentLevel * IndentWidthPt != 0 && r == 2 then 1 else 0)
      + (if p.bullet && r == 3 then 1 else 0)
      + (if p.isFooter && r == 4 then 1 else 0)
      + (if r == 5 then |p.mentionSpans| else 0)
  {
    var n, b, f := NamedStylePart(p, rg), BulletPart(p, rg), FooterPart(p, rg);
    var m := MentionRequests(p.mentionSpans, rg.start);
    CountRankAppend(n + b + f, m, r);
    CountRankAppend(n + b, f, r);
    CountRankAppend(n, b, r);
    NamedPartCount(p, rg, r);
    BulletPartCount(p, rg, r);
    FooterPartCount(p, rg, r);
    MentionCount(p.mentionSpans, rg.start, r);
  }

  lemma NamedPartCount(p: ParagraphSpec, rg: Range, r: nat)
    ensures CountRank(NamedStylePart(p, rg), r) == if p.namedStyle != NormalText && r == 1 then 1 else 0
  {
    if p.namedStyle != NormalText {
      CountRankSingle(UpdateNamedStyle(rg, p.namedStyle), r);
    }
  }

  lemma FooterPartCount(p: ParagraphSpec, rg: Range, r: nat)
    ensures CountRank(FooterPart(p, rg), r) == if p.isFooter && r == 4 then 1 else 0
  {
    if p.isFooter {
      CountRankSingle(FooterStyle(Range(rg.start, rg.start + |p.text|)), r);
    }
  }

  lemma MentionCount(spans: seq<Span>, start: int, r: nat)
    ensures CountRank(MentionRequests(spans, start), r) == if r == 5 then |spans| else 0
  {
    var m := MentionRequests(spans, start);
    assert RanksBetween(m, 5, 5);
    if r == 5 {
      CountRankAll(m, 5);
    } else {
      CountRankOutside(m, r, 5, 5);
    }
  }

  lemma BulletPartCount(p: ParagraphSpec, rg: Range, r: nat)
    ensures CountRank(BulletPart(p, rg), r) ==
      (if p.bullet && p.indentLevel * IndentWidthPt != 0 && r == 2 then 1 else 0) + (if p.bullet && r == 3 then 1 else 0)
  {
    if !p.bullet {
      assert BulletPart(p, rg) == [];
      return;
    }
    var create := CreateBullets(rg, Preset(p));
    CountRankSingle(create, r);
    if p.indentLevel * IndentWidthPt != 0 {
      var indent := UpdateIndent(rg, p.indentLevel * IndentWidthPt);
      CountRankSingle(indent, r);
      CountRankAppend([indent], [create], r);
    } else {
      assert BulletPart(p, rg) == [create];
    }
  }

  /** What a styling request of paragraph `p` over its range `rg` carries:
      the named style, the indent magnitude `indent_level * 18` and the
      bullet preset (a checkbox exactly for a checkbox item) apply to the
      whole range; the footer style covers the text without its newline; a
      mention style covers one of the mention spans shifted by the start. */
  predicate Carries(p: ParagraphSpec, rg: Range, r: Request) {
    match r
    case InsertText(_, _) => false
    case UpdateNamedStyle(range, style) => range == rg && style == p.namedStyle
    case UpdateIndent(range, magnitude) => range == rg && magnitude == p.indentLevel * IndentWidthPt
    case CreateBullets(range, preset) => range == rg && (preset == BulletCheckbox <==> p.checkbox)
    case FooterStyle(range) => range == Range(rg.start, rg.start + |p.text|)
    case MentionStyle(range) =>
      exists j :: 0 <= j < |p.mentionSpans| && range == MentionRange(p.mentionSpans[j], rg.start)
  }

  /** Every styling request of a paragraph carries what its kind calls for. */
  lemma StylePayloads(p: ParagraphSpec, rg: Range)
    ensures var reqs := StyleRequests(p, rg);
      forall k :: 0 <= k < |reqs| ==> Carries(p, rg, reqs[k])
  {
    var n, b, f := NamedStylePart(p, rg), BulletPart(p, rg), FooterPart(p, rg);
    var m := MentionRequests(p.mentionSpans, rg.start);
    var carried := (r: Request) => Carries(p, rg, r);
    assert forall k :: 0 <= k < |n| ==> carried(n[k]);
    assert forall k :: 0 <= k < |b| ==> carried(b[k]);
    assert forall k :: 0 <= k < |f| ==> carried(f[k]);
    forall k | 0 <= k < |m| ensures carried(m[k]) {
      assert m[k] == MentionStyle(MentionRange(p.mentionSpans[k], rg.start));
    }
    AppendAll(n, b, carried);
    AppendAll(n + b, f, carried);
    AppendAll(n + b + f, m, carried);
  }

  /** The mention styles come last, in the order of the spans. */
  lemma MentionsLast(p: ParagraphSpec, rg: Range)
    ensures var reqs := StyleRequests(p, rg);
      |p.mentionSpans| <= |reqs|
      && forall j :: 0 <= j < |p.mentionSpans| ==>
        reqs[|reqs| - |p.mentionSpans| + j] == MentionStyle(MentionRange(p.mentionSpans[j], rg.start))
  {
    var head := NamedStylePart(p, rg) + BulletPart(p, rg) + FooterPart(p, rg);
    var m := MentionRequests(p.mentionSpans, rg.start);
    assert StyleRequests(p, rg) == head + m;
    forall j | 0 <= j < |p.mentionSpans|
      ensures (head + m)[|head| + j] == MentionStyle(MentionRange(p.mentionSpans[j], rg.start))
    {
      assert (head + m)[|head| + j] == m[j];
    }
  }

  /** The number of styling requests the source's rules give one paragraph. */
  function StyleCount(p: ParagraphSpec): nat {
    (if p.namedStyle != NormalText then 1 else 0)
    + (if p.bullet then 1 + (if p.indentLevel * IndentWidthPt != 0 then 1 else 0) else 0)
    + (if p.isFooter then 1 else 0)
    + |p.mentionSpans|
  }

  function StyleCountSum(ps: seq<ParagraphSpec>): nat {
    if ps == [] then 0 else StyleCountSum(ps[..|ps| - 1]) + StyleCount(ps[|ps| - 1])
  }

  /** A paragraph's requests, counted by kind, add up to all of them. */
  lemma {:induction false} CountByRank(reqs: seq<Request>)
    requires RanksBetween(reqs, 1, 5)
    ensures |reqs| == CountRank(reqs, 1) + CountRank(reqs, 2) + CountRank(reqs, 3) + CountRank(reqs, 4) + CountRank(reqs, 5)
    decreases |reqs|
  {
    if reqs != [] {
      CountByRank(reqs[..|reqs| - 1]);
    }
  }

  /** The total number of requests is one insertion per paragraph plus, per
      paragraph, `[heading] + [bullet] * (1 + [indent != 0]) + [footer] +
      |mentions|`. */
  lemma RequestCount(ps: seq<ParagraphSpec>)
    ensures |BuildRequests(ps)| == |ps| + StyleCountSum(ps)
  {
    assert ps[..|ps|] == ps;
    StylingPassLength(ps, |ps|);
  }

  lemma {:induction false} StylingPassLength(ps: seq<ParagraphSpec>, n: nat)
    requires n <= |ps|
    ensures |StylingPass(ps, n)| == StyleCountSum(ps[..n])
  {
    if n > 0 {
      StylingPassLength(ps, n - 1);
      assert ps[..n][..n - 1] == ps[..n - 1];
      var reqs := StyleRequests(ps[n - 1], ParagraphRange(ps, n - 1));
      StylingPassSnoc(ps, n - 1);
      StyleOrder(ps[n - 1], ParagraphRange(ps, n - 1));
      StyleCounts(ps[n - 1], ParagraphRange(ps, n - 1));
      CountByRank(reqs);
    }
  }

  /** The range a styling request applies to. */
  function RangeOf(r: Request): Range
    requires !r.InsertText?
  {
    r.range
  }

  predicate Within(inner: Range, outer: Range) {
    outer.start <= inner.start <= inner.end <= outer.end
  }

  /** For a well-formed paragraph over a range one longer than its text, every
      styling request stays inside that range, and the footer and mention
      styles stay inside its text, before the newline. */
  lemma StyleWithinParagraph(p: ParagraphSpec, rg: Range)
    requires WellFormed(p) && rg.end == rg.start + |p.text| + 1
    ensures var reqs := StyleRequests(p, rg);
      forall k :: 0 <= k < |reqs| ==>
        !reqs[k].InsertText? && Within(RangeOf(reqs[k]), rg)
        && (reqs[k].FooterStyle? || reqs[k].MentionStyle? ==> Within(RangeOf(reqs[k]), Range(rg.start, rg.start + |p.text|)))
  {
    var reqs := StyleRequests(p, rg);
    StylePayloads(p, rg);
    forall k | 0 <= k < |reqs|
      ensures !reqs[k].InsertText? && Within(RangeOf(reqs[k]), rg)
        && (reqs[k].FooterStyle? || reqs[k].MentionStyle? ==> Within(RangeOf(reqs[k]), Range(rg.start, rg.start + |p.text|)))
    {
      CarriedWithin(p, rg, reqs[k]);
    }
  }

  lemma CarriedWithin(p: ParagraphSpec, rg: Range, r: Request)
    requires WellFormed(p) && rg.end == rg.start + |p.text| + 1 && Carries(p, rg, r)
    ensures !r.InsertText? && Within(RangeOf(r), rg)
    ensures r.FooterStyle? || r.MentionStyle? ==> Within(RangeOf(r), Range(rg.start, rg.start + |p.text|))
  {
    if r.MentionStyle? {
      var j :| 0 <= j < |p.mentionSpans| && r.range == MentionRange(p.mentionSpans[j], rg.start);
      assert IsMentionSpan(p.text, p.mentionSpans[j]);
    }
  }

  /** `r` styles a range inside the range of one of the paragraphs. */
  predicate InParagraph(ps: seq<ParagraphSpec>, r: Request) {
    !r.InsertText? && exists i :: 0 <= i < |ps| && Within(RangeOf(r), ParagraphRange(ps, i))
  }

  /** `r` styles a range inside one of the paragraphs and inside the
      document body `[1, 1 + Σ (|text_j| + 1))`. */
  predicate InDocument(ps: seq<ParagraphSpec>, r: Request) {
    InParagraph(ps, r) && Within(RangeOf(r), Range(1, 1 + TotalLength(ps)))
  }

  /** Every request after the insertions styles a range inside the range of
      one of the paragraphs, and so inside the document body. */
  predicate StylingWithin(ps: seq<ParagraphSpec>) {
    var reqs := BuildRequests(ps);
    forall k :: |ps| <= k < |reqs| ==> InDocument(ps, reqs[k])
  }

  /** A document made of well-formed paragraphs is styled within its
      paragraphs. */
  lemma StylingWithinDocument(ps: seq<ParagraphSpec>)
    requires forall i :: 0 <= i < |ps| ==> WellFormed(ps[i])
    ensures StylingWithin(ps)
  {
    forall i | 0 <= i < |ps| {
      ParagraphStylesWithin(ps, i);
    }
    FlattenAll(Styling(ps), |ps|, (r: Request) => InDocument(ps, r));
    AppendTail(InsertionPass(ps), StylingPass(ps, |ps|), (r: Request) => InDocument(ps, r));
  }

  /** The styling of paragraph `i` stays inside its own range. */
  lemma ParagraphStylesWithin(ps: seq<ParagraphSpec>, i: nat)
    requires i < |ps| && WellFormed(ps[i])
    ensures forall k :: 0 <= k < |Styling(ps)(i)| ==> InDocument(ps, Styling(ps)(i)[k])
  {
    var rg := ParagraphRange(ps, i);
    TotalLengthSnoc(ps, i);
    StyleWithinParagraph(ps[i], rg);
    var reqs := StyleRequests(ps[i], rg);
    assert Styling(ps)(i) == reqs;
    forall k | 0 <= k < |reqs| ensures InDocument(ps, reqs[k]) {
      InRange(ps, reqs[k], i);
    }
  }

  /** A range inside paragraph `i`'s range is inside the document body. */
  lemma InRange(ps: seq<ParagraphSpec>, r: Request, i: nat)
    requires i < |ps| && !r.InsertText? && Within(RangeOf(r), ParagraphRange(ps, i))
    ensures InDocument(ps, r)
  {
    OffsetMonotone(ps, 0, i);
    OffsetMonotone(ps, i + 1, |ps|);
    assert ps[..0] == [] && ps[..|ps|] == ps;
  }

  /** The insertion loop of `populate_document`: a cursor starting at index
      1 advances by each paragraph's length with its newline, and every
      paragraph's insertion is recorded together with its range. */
  method InsertParagraphs(paragraphs: seq<ParagraphSpec>) returns (requests: seq<Request>, paragraphRanges: seq<Range>)
    ensures requests == InsertionPass(paragraphs)
    ensures paragraphRanges == ParagraphRanges(paragraphs)
  {
    requests := [];
    var cursor := 1;
    paragraphRanges := [];
    for i := 0 to |paragraphs|
      invariant cursor == Offset(paragraphs, i)
      invariant requests == InsertionPass(paragraphs)[..i]
      invariant paragraphRanges == ParagraphRanges(paragraphs)[..i]
    {
      var text := paragraphs[i].text + "\n";
      var textLength := |text|;
      requests := requests + [InsertText(cursor, text)];
      TotalLengthSnoc(paragraphs, i);
      paragraphRanges := paragraphRanges + [Range(cursor, cursor + textLength)];
      cursor := cursor + textLength;
    }
    assert requests == InsertionPass(paragraphs)[..|paragraphs|];
    assert paragraphRanges == ParagraphRanges(paragraphs)[..|paragraphs|];
  }

  /** The styling loop of `populate_document`: walks paragraphs and their
      ranges together and appends each paragraph's style requests to the
      requests built so far. */
  method AppendStyling(paragraphs: seq<ParagraphSpec>, paragraphRanges: seq<Range>, built: seq<Request>)
    returns (requests: seq<Request>)
    requires paragraphRanges == ParagraphRanges(paragraphs)
    ensures requests == built + StylingPass(paragraphs, |paragraphs|)
  {
    requests := built;
    for i := 0 to |paragraphs|
      invariant requests == built + StylingPass(paragraphs, i)
    {
      var styled := ParagraphStyleRequests(paragraphs[i], paragraphRanges[i]);
      StylingStep(paragraphs, i, built, requests, styled);
      requests := requests + styled;
    }
  }

  /** One turn of the styling loop: appending paragraph `i`'s requests
      extends the styling pass by one paragraph. */
  lemma StylingStep(ps: seq<ParagraphSpec>, i: nat, built: seq<Request>, requests: seq<Request>, styled: seq<Request>)
    requires i < |ps|
    requires requests == built + StylingPass(ps, i)
    requires styled == StyleRequests(ps[i], ParagraphRanges(ps)[i])
    ensures requests + styled == built + StylingPass(ps, i + 1)
  {
    StylingPassSnoc(ps, i);
    Assoc(built, StylingPass(ps, i), styled);
  }

  /** `populate_document` without the final call: the insertion loop, then
      the styling loop. */
  method PopulateRequests(paragraphs: seq<ParagraphSpec>) returns (requests: seq<Request>)
    ensures requests == BuildRequests(paragraphs)
  {
    var paragraphRanges;
    requests, paragraphRanges := InsertParagraphs(paragraphs);
    requests := AppendStyling(paragraphs, paragraphRanges, requests);
  }

  /** `convert_notes_to_doc` without its remote calls: parse the notes, then
      build the requests for the parsed paragraphs. */
  method ConvertNotesToRequests(markdownText: String) returns (requests: seq<Request>)
    ensures requests == BuildRequests(Parse(markdownText))
  {
    var paragraphs := ParseMarkdown(markdownText);
    requests := PopulateRequests(paragraphs);
  }

  /** For converted notes, every request after the insertions styles a range
      inside the paragraph it belongs to and inside the document body. */
  lemma ConvertedStylingWithin(markdownText: String)
    ensures StylingWithin(Parse(markdownText))
  {
    ParsedWellFormed(Lines(markdownText));
    StylingWithinDocument(Parse(markdownText));
  }
}
