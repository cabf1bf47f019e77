# Meeting notes to Google Docs requests, modelled in Dafny

The meeting-notes converter reads markdown notes and writes them into a Google
Doc. It works in two steps, and this project models both.

1. `parse_markdown` turns the text into one paragraph description
   (`ParagraphSpec`) per line. A line that is blank or `---` gives no
   paragraph. Otherwise the first rule that applies decides the kind:
   - a heading: one to six `#` characters, then whitespace. The level is
     clamped to 3.
   - a bullet: an optional indent, `-` or `*`, then whitespace. A leading
     `[ ]` makes a checkbox item.
   - plain text. It is a footer when it starts with "meeting recorded" or
     "duration".

   Bullets and plain text carry the spans of their `@name` mentions.
2. `populate_document` builds the batch-update requests for those paragraphs
   in two loops:
   - an insertion loop. It inserts every paragraph's text and a newline at a
     running cursor that starts at index 1, and records each paragraph's
     range.
   - a styling loop. For each paragraph it emits, in a fixed order, a
     named-style update, an indent update, a bullet creation, a footer style,
     and one style per mention.

The project has four modules:
- `Text.dfy`: the string operations the code relies on. These are
  `str.isspace`, `rstrip`/`strip`, `startswith`, `lower` and `splitlines`.
- `Mentions.dfy`: `_extract_mentions`, a left-to-right scan for `@\w+`.
- `Parser.dfy`:
  - the two regular expressions, as explicit matchers proved against
    predicates that state the match relation;
  - the classification of one line (`LineParagraph`);
  - the specification of a whole parse (`ParseLines`, `Parse`);
  - the `parse_markdown` loop as a method proved against that specification.
- `Translator.dfy`:
  - the requests as a datatype;
  - the specification of everything `populate_document` sends
    (`BuildRequests`);
  - both loops as methods proved against that specification;
  - lemmas on the offsets, ranges, order, counts and payloads of the
    requests.

## Model

| member | source | states |
|---|---|---|
| Text.RStrip | src/meeting_notes_converter.py:91 | `rstrip()` keeps a prefix of the line. Everything it drops is whitespace. What it keeps does not end in whitespace. A line without newline stays without one. |
| Text.RStripEmpty | src/meeting_notes_converter.py:91-93 | A line is skipped as empty after right-stripping exactly when all of its characters are whitespace. |
| Text.LStrip | src/meeting_notes_converter.py:97 | `lstrip()` keeps a suffix. Everything it drops is whitespace. What it keeps does not start with whitespace. |
| Text.StripShape | src/meeting_notes_converter.py:97 | A stripped string neither starts nor ends with whitespace. It is empty exactly when the input is all whitespace. |
| Text.StripIdempotent | src/meeting_notes_converter.py:118-119 | Stripping twice, as the checkbox branch does, gives the same text as stripping once. |
| Text.StripAfterRStrip | src/meeting_notes_converter.py:91-97 | Testing `line.strip()` after `rstrip()` is testing the strip of the raw line. |
| Text.Lower | src/meeting_notes_converter.py:136 | Lower-casing keeps the length, maps each character on its own, and leaves no upper-case ASCII letter. |
| Text.LowerIdempotent | src/meeting_notes_converter.py:136 | Lower-casing an already lower-cased line changes nothing. |
| Text.StartsWithLoweredIsLowerStartsWith | src/meeting_notes_converter.py:136 | The footer test, done character by character, agrees with `line.lower().startswith(prefix)`. |
| Text.SplitLines | src/meeting_notes_converter.py:90 | No line that `splitlines()` yields contains a line-break character. |
| Text.SplitSingleLine | src/meeting_notes_converter.py:90 | A text without line breaks is one line, or no line when empty. |
| Text.SplitAcross | src/meeting_notes_converter.py:90 | Break-free text at the front of the input continues the line being read. |
| Text.SplitLinesBreak | src/meeting_notes_converter.py:90 | The first line is the text before the first break, and the text after that break is split on its own. A `\r` followed by `\n` is excluded here. |
| Text.SplitLinesCrLf | src/meeting_notes_converter.py:90 | A `\r\n` pair ends the first line as one break, not two. With `SplitSingleLine` and `SplitLinesBreak` this fixes the output of `splitlines()` for every text. |
| Text.SplitTrailingBreak | src/meeting_notes_converter.py:90 | A break at the very end of the text opens no extra, empty line. |
| Mentions.ScanMentions | src/meeting_notes_converter.py:22 | Scanning from a position yields maximal `@\w+` matches at or after it, ordered and non-overlapping. |
| Mentions.ExtractMentions | src/meeting_notes_converter.py:143-144 | Each span `(s, e)` has `text[s] == '@'` and word characters on `[s+1, e)`, with `e >= s + 2`. No word character is at `e`. The spans increase and do not overlap. |
| Mentions.MentionStarts | src/meeting_notes_converter.py:143-144 | A span starts at `p` if and only if `@\w+` matches at `p`. No match is invented and none is missed. |
| Parser.MatchHeading | src/meeting_notes_converter.py:100 | The heading matcher yields at least one hash when it succeeds. |
| Parser.MatchHeadingComplete | src/meeting_notes_converter.py:100-102 | When `^(#{1,6})\s+(.*)` matches with `n` hashes and `w` blanks, the matcher returns exactly those groups. |
| Parser.MatchHeadingSound | src/meeting_notes_converter.py:100-102 | The heading matcher succeeds only when the pattern matches, and then with the pattern's groups. |
| Parser.MatchBullet | src/meeting_notes_converter.py:111 | The bullet matcher's marker is `-` or `*`. |
| Parser.MatchBulletComplete | src/meeting_notes_converter.py:111-113 | When `^(\s*)([-*])\s+(.*)` matches, the matcher returns exactly its groups. |
| Parser.MatchBulletSound | src/meeting_notes_converter.py:111-113 | The bullet matcher succeeds only when the pattern matches, and then with its groups. |
| Parser.HeadingParagraph | src/meeting_notes_converter.py:102-107 | A heading paragraph is well formed and has a heading style. |
| Parser.BulletParagraph | src/meeting_notes_converter.py:113-128 | A bullet paragraph is well formed and is a bullet. |
| Parser.PlainParagraph | src/meeting_notes_converter.py:131-137 | A plain paragraph is well formed, normal text and no bullet. |
| Parser.FooterIgnoresCase | src/meeting_notes_converter.py:136 | The footer test ignores case: two lines that lower-case alike are both footers or both not. |
| Parser.LineParagraphShape | src/meeting_notes_converter.py:91-98 | A line gives no paragraph exactly when it is all whitespace or strips to `---`. Every paragraph it gives is well formed. |
| Parser.LineDropped | src/meeting_notes_converter.py:91-98 | The same, stated on the right-stripped line that the code tests. |
| Parser.HeadingLine | src/meeting_notes_converter.py:100-109 | A line matching the heading pattern with `n` hashes and `w` blanks becomes one paragraph. Its text is the rest of the line, non-empty and already stripped. Its style is `HEADING_min(n,3)`. It has no bullet, checkbox, indent, footer flag or mentions. |
| Parser.BulletLine | src/meeting_notes_converter.py:111-129 | A line matching the bullet pattern with `w` leading blanks becomes one bullet with indent level `w / 2`, and it is never a footer. It is a checkbox exactly when the remainder starts with `[ ]`. Its text is the remainder without that marker, stripped. Its mentions are those of that text. |
| Parser.PlainLine | src/meeting_notes_converter.py:131-138 | A kept line that matches neither pattern becomes normal text: the right-stripped line, leading whitespace included, with no bullet, checkbox or indent. It is a footer exactly when it starts, in any case, with "meeting recorded" or "duration". |
| Parser.CollectAll | src/meeting_notes_converter.py:89-140 | What each line's paragraph satisfies, every paragraph of the list satisfies. |
| Parser.CollectEmpty | src/meeting_notes_converter.py:89-140 | The list is empty exactly when no line gives a paragraph. |
| Parser.ParseAppend | src/meeting_notes_converter.py:89-140 | Lines are parsed independently. The paragraphs of two blocks of lines are those of the first block followed by those of the second. |
| Parser.ParagraphOfLine | src/meeting_notes_converter.py:89-140 | A dropped line adds nothing. A kept line adds exactly one paragraph, placed right after the paragraphs of the lines before it. |
| Parser.NothingParsed | src/meeting_notes_converter.py:89-98 | The parse is empty exactly when every line is blank or a `---` rule, so empty notes give no paragraph. |
| Parser.ParsedWellFormed | src/meeting_notes_converter.py:84-140 | Every parsed paragraph is well formed: its mentions are ordered maximal matches in its text, and its indent is zero off a bullet. Bullets and headings are never footers. Headings have no mentions. |
| Parser.ParseMarkdown | src/meeting_notes_converter.py:84-140 | The `parse_markdown` loop, with its `continue` dispatch, returns the specified parse of the text. |
| Translator.MentionRequests | src/meeting_notes_converter.py:255-279 | There is one mention request per span. |
| Translator.InsertParagraphs | src/meeting_notes_converter.py:175-191 | The insertion loop, with its running cursor, emits the specified insertions and records the specified ranges. |
| Translator.ParagraphStyleRequests | src/meeting_notes_converter.py:193-279 | The body of the styling loop emits, for one paragraph and its range, the specified styling requests in the source's order. |
| Translator.StylingPassSnoc | src/meeting_notes_converter.py:193-279 | Each turn of the styling loop appends exactly the requests of the next paragraph over its recorded range. |
| Translator.AppendStyling | src/meeting_notes_converter.py:193-279 | The styling loop, walking paragraphs and their ranges together, appends the styling requests of every paragraph in order after the requests built so far. |
| Translator.PopulateRequests | src/meeting_notes_converter.py:175-279 | Both loops of `populate_document` together emit the specified request list. |
| Translator.InsertionsFirst | src/meeting_notes_converter.py:179-191 | The first `n` requests insert the paragraphs in order. Paragraph `i` with its newline goes at `1 + Σ_{j<i}(|text_j|+1)`, the start of its range. No later request inserts text. |
| Translator.RangesTile | src/meeting_notes_converter.py:176-191 | The first range starts at 1 and each range is one longer than its text. Each range ends where the next starts, and no two overlap. The last ends at the final cursor `1 + Σ(|text_j|+1)`. |
| Translator.RangesCover | src/meeting_notes_converter.py:176-191 | Every index of the body `[1, 1 + Σ(|text_j|+1))` lies in some paragraph's range. |
| Translator.OffsetMonotone | src/meeting_notes_converter.py:191 | The cursor grows by at least one per paragraph. |
| Translator.StyleOrder | src/meeting_notes_converter.py:193-279 | A paragraph's styling requests come in the fixed order: named style, indent, bullets, footer, mentions. |
| Translator.StyleCounts | src/meeting_notes_converter.py:194-279 | Per paragraph there is one named-style update exactly for a heading. A bullet gets one indent update exactly when `indent_level * 18` is non-zero, and exactly one bullet creation. A footer gets one footer style. There is one mention style per span. |
| Translator.StylePayloads | src/meeting_notes_converter.py:194-262 | Each styling request carries the paragraph's data over the right range. The named style, the indent `indent_level * 18` and the preset cover the whole paragraph range, and the preset is a checkbox exactly for a checkbox item. The footer covers `[start, start+|text|)`. A mention covers a span shifted by `start`. |
| Translator.MentionsLast | src/meeting_notes_converter.py:255-279 | The mention styles are a paragraph's last requests, in span order. |
| Translator.RequestCount | src/meeting_notes_converter.py:175-279 | The request count is `n + Σ([heading] + [bullet]·(1+[indent≠0]) + [footer] + |mentions|)`. |
| Translator.StyleWithinParagraph | src/meeting_notes_converter.py:236-279 | For a well-formed paragraph, every styling request lies in its range. The footer and mention styles lie within its text, before the newline. |
| Translator.StylingWithinDocument | src/meeting_notes_converter.py:193-279 | For well-formed paragraphs, every request after the insertions lies inside some paragraph's range and inside the document body. |
| Translator.ConvertNotesToRequests | src/meeting_notes_converter.py:303-306 | Converting notes sends the specified requests for the parsed paragraphs. |
| Translator.ConvertedStylingWithin | src/meeting_notes_converter.py:304-306 | For any notes, every styling request the conversion sends stays inside its paragraph and the document body. |

## Left out

- Colab authentication, building the API client, reading the notes file and the command line (`authenticate_with_colab`, `build_docs_service`, `load_markdown_notes`, `_main_cli`). These are I/O and external services.
- `create_document` and the final `batchUpdate(...).execute()` of `populate_document`, with their `HttpError` to `RuntimeError` wrapping. These are remote calls. `ConvertNotesToRequests` keeps only "parse, then build the requests", and the document id is not modelled.
- The colour floats (0.4 grey, 0.15/0.15/0.6 blue), the italic and bold flags, the `"PT"` unit and the `fields` masks. These are fixed per request kind, so each kind is a datatype constructor and the constants are implied by the tag.
- The index unit. The Docs service counts UTF-16 code units, while the code (and this model) counts characters. The model does not claim agreement with the service.
- `named_style` is an enumeration of the four values the parser produces. The `str` field accepts any string.
- Mentions.ExtractMentions: `\w` is restricted to ASCII letters, digits and `_`. Python's Unicode word characters beyond ASCII are not modelled.
- Text.Lower: only ASCII letters are lowered. For the footer test this gives the same answer as Python's full `lower()`. Only two non-ASCII characters lower to something starting with ASCII:
  - `İ` (U+0130) lowers to `i` plus a combining dot. In both prefixes `i` is followed by a letter, not by that dot, so the test fails at that character either way.
  - the Kelvin sign lowers to `k`, which neither prefix contains.

  Every other character either is ASCII already or lowers to a non-ASCII character. That character matches no character of the prefixes, in Python as in the model.
- Parser.MatchHeading, Parser.MatchBullet: these require a line without newline, which is what `splitlines()` yields. The pattern's `.*` would stop at a newline.
- Seven or more `#` never match the heading pattern (at most six `#`, then whitespace), so a line such as `####### Deep` is plain text; `MatchHeadingComplete`/`MatchHeadingSound` tie the matcher to exactly that pattern.
- `populate_document` takes any `Sequence` of paragraphs. The model takes a `seq`, and the indices are unbounded integers.
