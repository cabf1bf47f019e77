/** Extraction of `@name` mentions: the spans of the matches of the pattern
    `@\w+`, found left to right as `finditer` finds them. */
module Mentions {
  import opened Text

  /** A half-open `(start, end)` pair of offsets into a text. */
  datatype Span = Span(start: int, end: int)

  /** `@` followed by a word character: a position where `@\w+` matches. */
  predicate IsMentionStart(text: String, p: int) {
    0 <= p && p + 1 < |text| && text[p] == '@' && IsWordChar(text[p + 1])
  }

  /** `sp` covers one maximal match of `@\w+` in `text`. */
  predicate IsMentionSpan(text: String, sp: Span) {
    IsMentionStart(text, sp.start) && sp.start + 2 <= sp.end <= |text|
    && (forall j :: sp.start + 1 <= j < sp.end ==> IsWordChar(text[j]))
    && (sp.end == |text| || !IsWordChar(text[sp.end]))
  }

  /** Strictly increasing, non-overlapping spans. */
  predicate Ordered(spans: seq<Span>) {
    forall k :: 0 <= k < |spans| - 1 ==> spans[k].end <= spans[k + 1].start
  }

  /** The matches of `@\w+` found by a scan that starts at `pos`. */
  function ScanMentions(text: String, pos: nat): (spans: seq<Span>)
    requires pos <= |text|
    ensures forall k :: 0 <= k < |spans| ==> IsMentionSpan(text, spans[k]) && pos <= spans[k].start
    ensures Ordered(spans)
    decreases |text| - pos
  {
    if pos == |text| then []
    else if IsMentionStart(text, pos) then
      var e := pos + 1 + Run(text, pos + 1, IsWordChar);
      [Span(pos, e)] + ScanMentions(text, e)
    else
      ScanMentions(text, pos + 1)
  }

  /** `[(m.start(), m.end()) for m in MENTION_PATTERN.finditer(text)]`: every
      span is a maximal `@\w+` match inside `text`, and they come in order. */
  function ExtractMentions(text: String): (spans: seq<Span>)
    ensures forall k :: 0 <= k < |spans| ==> IsMentionSpan(text, spans[k])
    ensures Ordered(spans)
  {
    ScanMentions(text, 0)
  }

  /** A scan from `pos` misses no mention that starts at or after `pos`. */
  lemma {:induction false} ScanComplete(text: String, pos: nat, p: int)
    requires pos <= |text|
    requires pos <= p && IsMentionStart(text, p)
    ensures exists k :: 0 <= k < |ScanMentions(text, pos)| && ScanMentions(text, pos)[k].start == p
    decreases |text| - pos
  {
    var spans := ScanMentions(text, pos);
    if IsMentionStart(text, pos) {
      var e := pos + 1 + Run(text, pos + 1, IsWordChar);
      assert spans == [Span(pos, e)] + ScanMentions(text, e);
      if p == pos {
        assert spans[0].start == p;
      } else if p >= e {
        ScanComplete(text, e, p);
        var k :| 0 <= k < |ScanMentions(text, e)| && ScanMentions(text, e)[k].start == p;
        assert spans[k + 1].start == p;
      }
    } else {
      ScanComplete(text, pos + 1, p);
    }
  }

  /** The spans start exactly at the positions where `@\w+` matches: none is
      invented and none is missed. */
  lemma MentionStarts(text: String, p: int)
    ensures IsMentionStart(text, p) <==>
      exists k :: 0 <= k < |ExtractMentions(text)| && ExtractMentions(text)[k].start == p
  {
    if IsMentionStart(text, p) {
      ScanComplete(text, 0, p);
      var k :| 0 <= k < |ScanMentions(text, 0)| && ScanMentions(text, 0)[k].start == p;
      assert ExtractMentions(text)[k].start == p;
    }
  }
}
