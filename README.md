# MarkdownViewer, modelled in Dafny

MarkdownViewer is a macOS Markdown viewer. It renders a Markdown file to HTML with a table for
its front matter and an outline of its headings. Inline comments are stored in the Markdown
file itself, as HTML comment markers around the text they annotate. This project models the
logic behind that and proves what it promises:

- **Front matter** (`parseFrontMatter`, `contentStartIndex`, `renderFrontMatter`). A leading
  block of `key: value` lines between two `---` lines is split into pairs, the body text and
  the UTF-8 byte offset where the body starts. The pairs are rendered as an escaped HTML table.
- **The comment engine.** A comment is a `MarkdownComment` (`COM-n` id, two timestamps, a
  body). It is encoded by `CommentCodec` as a JSON payload with a base64 body and written as
  `<!-- MV-COMMENT-START {…} -->` … `<!-- MV-COMMENT-END COM-n -->` around the selected text.
  A header line above the first comment marks the file. The model covers
  `parseComments`, `nextCommentID`, `ensureCommentHeader`, `insertCommentMarkers`,
  `updatingCommentPayload`, `removingCommentMarkers` and `indexForUTF8Offset`. It also covers
  the offset shift of `addComment` and the find requests of `DocumentState`. The regular
  expressions are replaced by explicit scanner functions for the same patterns.
- **The renderer** (`MarkdownRenderer`). It walks a parsed Markdown tree, given here as a
  datatype, and appends HTML. It collects an outline entry per titled heading and names
  heading anchors with `HeadingSlugger`. Text is wrapped in spans that carry its byte offsets
  in the file, through `SourceMapper`. Raw HTML passes only when it is a comment marker.
- **Settings stores.** `ExternalEditorSettings` holds the "Open in …" editor and its keyboard
  shortcut, saved to and loaded from the user defaults (a map). `AppearanceSettings` holds the
  system/light/dark mode, which `cycle` moves through and which is persisted as its raw value.

The headline results are these:
- codec round trips (`CommentCodec.DecodeEncode`, `Base64.DecodeEncode`, `Utf8.DecodeEncode`);
- on a text in which no comment marker begins (the comment header and other HTML are
  allowed), parse, update and remove right after `addComment` give back exactly the new
  comment, the updated insertion, and the text with the header
  (`Document.AddedCommentParses`, `AddedCommentUpdates`, `AddedCommentRemoves`, built on
  `CommentAnchoring.ParseAfterInsert`, `UpdateAfterInsert`, `RemoveAfterInsert`);
- `addComment` wraps the selected text, untouched, between the new markers
  (`Document.AddedCommentWrapsSelection`);
- the outline lists exactly the titled headings in document order (`Renderer.RenderOutline`);
- slugs are well formed (`Slugs.SlugOfWellFormed`);
- the source map is correct (`SourceMap.OffsetInText`);
- saving and then loading the editor settings restores them (`EditorSettings.LoadSaved`).

Modules, one file each:
- `wrappers.dfy` (Option), `text.dfy`, `utf8.dfy`, `base64.dfy` and `html.dfy` hold the
  Foundation behaviour the code relies on.
- `codec.dfy`: `numericID` and `CommentCodec`.
- `markers.dfy`: the scanner and the comment operations.
- `anchoring.dfy`: the lemmas about inserted comments.
- `frontmatter.dfy`, `outline.dfy` and `document.dfy`: the rest of `DocumentState`.
- `sourcemap.dfy`, `slug.dfy` and `renderer.dfy`: the renderer.
- `paths.dfy`, `settings.dfy` and `appearance.dfy`: the stores.

Modelling choices:
- Text is a sequence of Unicode scalar values, and byte offsets are UTF-8 lengths of prefixes.
- A `Date` is a whole number of milliseconds. Its ISO-8601 text is modelled as the decimal
  number of whole seconds. That keeps what the round trip depends on: exact read-back at
  whole-second precision.
- The clock (`Date()`) and `UUID()` become a `now` parameter and a counter of issued tokens.
- The user defaults become a map.
- A file URL is modelled by its path.

## Model

| member | source | states |
|---|---|---|
| Text.Trim | MarkdownViewer/DocumentState.swift:142-143 | what trimming keeps is no longer than the text |
| Text.TrimShape | MarkdownViewer/DocumentState.swift:142-143 | trimming keeps one contiguous slice of the text and drops only blank characters |
| Text.TrimEnds | MarkdownViewer/DocumentState.swift:142-143 | what trimming keeps neither starts nor ends with a blank |
| Text.TrimEmpty | MarkdownViewer/DocumentState.swift:478-479 | a text trims to nothing exactly when every character is blank |
| Text.IndexOf | MarkdownViewer/DocumentState.swift:141 | `firstIndex(of:)` finds the first occurrence of the character, or reports that there is none |
| Text.IndexOfFrom | MarkdownViewer/DocumentState.swift:166 | the first occurrence at or after a position, as a position in the whole text, or none when there is none |
| Text.IndexOfFromIs | MarkdownViewer/DocumentState.swift:166 | a character at `p` with none of it between the start and `p` is what the search finds |
| Text.IndexOfFromSlice | MarkdownViewer/DocumentState.swift:166 | searching the rest of the text finds the same occurrence as searching from the position |
| Text.IndexOfLineFeed | MarkdownViewer/DocumentState.swift:166 | `firstIndex(of: "\n")` comparing Characters: the first line feed not preceded by a carriage return, or none |
| Text.IndexOfLineFeedIs | MarkdownViewer/DocumentState.swift:166 | a lone line feed at `p` with none between the start and `p` is what the Character search finds |
| Text.LineFeedAgrees | MarkdownViewer/DocumentState.swift:166 | on text without "\r\n" the Character search and the scalar search find the same line feed |
| Text.Split | MarkdownViewer/DocumentState.swift:128 | `components(separatedBy:)` gives at least one piece and no piece holds the separator |
| Text.JoinSplit | MarkdownViewer/DocumentState.swift:150 | joining the pieces of a split with the separator gives back the text |
| Text.SplitOmittingEmpty | MarkdownViewer/DocumentState.swift:30 | `split(separator:)` gives only non-empty pieces without the separator |
| Text.SplitOmittingEmptyConcat | MarkdownViewer/DocumentState.swift:30 | the pieces of `split(separator:)`, run together, are the text with every separator removed |
| Text.ConcatSplit | MarkdownViewer/DocumentState.swift:30 | the pieces of `components(separatedBy:)`, run together, are the text with every separator removed |
| Text.Lowercased | MarkdownViewer/Stores/ExternalEditorSettings.swift:93 | no upper-case ASCII letter is left, the length is kept, and every character is the original one up to case |
| Text.LowercasedIdempotent | MarkdownViewer/Stores/ExternalEditorSettings.swift:93 | lowercasing a lowercased text changes nothing |
| Text.Uppercased | MarkdownViewer/Stores/ExternalEditorSettings.swift:47 | no lower-case ASCII letter is left, the length is kept, and every character is the original one up to case |
| Text.UppercasedIdempotent | MarkdownViewer/Stores/ExternalEditorSettings.swift:47 | uppercasing an uppercased text changes nothing |
| Text.DigitsValueOfDigits | MarkdownViewer/DocumentState.swift:303 | the decimal digits of a number read back as that number |
| Text.ParseInt | MarkdownViewer/DocumentState.swift:31 | `Int(_:)` yields only values within the 64-bit range |
| Text.ParseSignedDecimal | MarkdownViewer/DocumentState.swift:303 | the interpolated text of any integer parses back to it |
| Text.ParseIntDecimal | MarkdownViewer/DocumentState.swift:31 | `Int(_:)` reads back the text of every 64-bit integer |
| Utf8.Utf8Len | MarkdownViewer/DocumentState.swift:152 | a text has at least as many UTF-8 bytes as characters |
| Utf8.Utf8LenAppend | MarkdownViewer/DocumentState.swift:152 | byte length is additive over concatenation |
| Utf8.Utf8LenPrefixMonotone | MarkdownViewer/DocumentState.swift:319-321 | a longer prefix has strictly more bytes, so character order and byte order agree |
| Utf8.Encode | MarkdownViewer/DocumentState.swift:52 | the encoding of a text has exactly its UTF-8 length |
| Utf8.EncodeAppend | MarkdownViewer/DocumentState.swift:52 | encoding is additive over concatenation |
| Utf8.EncodeSuffix | MarkdownViewer/DocumentState.swift:152 | the bytes of a suffix are the text's bytes after those of the prefix before it |
| Utf8.DecodeEncodeChar | MarkdownViewer/DocumentState.swift:66-67 | each scalar value decodes from its own encoding, using exactly its byte count |
| Utf8.DecodeEncode | MarkdownViewer/DocumentState.swift:66-67 | decoding the UTF-8 bytes of any text gives the text back |
| Utf8.Boundary | MarkdownViewer/DocumentState.swift:391-397 | a found position has a prefix of exactly the requested byte length |
| Utf8.BoundaryComplete | MarkdownViewer/DocumentState.swift:391-397 | every position whose prefix has that byte length is found |
| Utf8.IndexForUtf8Offset | MarkdownViewer/DocumentState.swift:391-397 | `indexForUTF8Offset`: a position whose prefix is `offset` bytes long, and none exactly when no such position exists (negative, past the end, or inside a character) |
| Base64.SymbolValueOfSymbol | MarkdownViewer/DocumentState.swift:52 | every six-bit value reads back from its alphabet symbol |
| Base64.Encode | MarkdownViewer/DocumentState.swift:52 | the encoding has four symbols per started group of three bytes, and is empty only for no bytes |
| Base64.DecodeFullGroup | MarkdownViewer/DocumentState.swift:66 | a group of four symbols decodes to the three bytes it was written from |
| Base64.DecodeOneByte | MarkdownViewer/DocumentState.swift:66 | a single byte survives encoding with two padding symbols |
| Base64.DecodeTwoBytes | MarkdownViewer/DocumentState.swift:66 | two bytes survive encoding with one padding symbol |
| Base64.DecodeEncode | MarkdownViewer/DocumentState.swift:52-66 | `Data(base64Encoded:)` of `base64EncodedString()` gives back the same bytes |
| Base64.EncodeHasNoBrace | MarkdownViewer/DocumentState.swift:52 | no encoded body contains `}`, so it cannot end the payload object early |
| Html.ReplacingWithAppend | MarkdownViewer/DocumentState.swift:204-207 | one replacement pass is additive over concatenation |
| Html.ReplacingWithRemoves | MarkdownViewer/DocumentState.swift:204-207 | after a pass its target is gone unless the replacement holds it |
| Html.EscapeOneChar | MarkdownViewer/DocumentState.swift:202-208 | the four passes turn one character into its entity or leave it alone |
| Html.EscapeAppend | MarkdownViewer/DocumentState.swift:202-208 | escaping is additive over concatenation |
| Html.EscapeIsPerChar | MarkdownViewer/DocumentState.swift:202-208 | the four successive passes equal escaping each character on its own: the entities written by later passes are never escaped again |
| Html.EscapeHasNoMarkup | MarkdownViewer/MarkdownRenderer.swift:219-225 | escaped text holds no `<`, `>` or `"` |
| Html.UnescapeEach | MarkdownViewer/DocumentState.swift:202-208 | the per-character escape reads back |
| Html.UnescapeEscape | MarkdownViewer/DocumentState.swift:202-208 | escaping loses nothing: unescaping gives the original text back |
| CommentCodec.NumericID | MarkdownViewer/DocumentState.swift:29-35 | `numericID` is 0 unless the id has two pieces around `-` and the second parses as a 64-bit integer, so it is in 0 .. Int64.max |
| CommentCodec.NumericIDOfCommentID | MarkdownViewer/DocumentState.swift:29-35 | an id `COM-n` has numeric id n for every n from 1 to Int64.max |
| CommentCodec.EscapeChar | MarkdownViewer/DocumentState.swift:54 | a character is written as itself exactly when it is not `"`, `\`, `/` or a control character; otherwise as an escape that starts with a backslash; no control character is ever written |
| CommentCodec.ReadEscapedChar | MarkdownViewer/DocumentState.swift:58-60 | the decoder reads back one character from its JSON escape |
| CommentCodec.ReadStringOfEscaped | MarkdownViewer/DocumentState.swift:54-60 | a JSON string literal reads back as the text it was written from, with what follows its closing quote left over |
| CommentCodec.DecodeEncodePayload | MarkdownViewer/DocumentState.swift:54-60 | the four-field payload object reads back from its JSON encoding |
| CommentCodec.DecodeOfEncodedPayload | MarkdownViewer/DocumentState.swift:58-71 | decoding an encoded payload gives what its fields make, and none exactly on a bad date, bad base64 or a body that is not UTF-8 |
| CommentCodec.ParseFormatDate | MarkdownViewer/DocumentState.swift:50-51 | a timestamp text reads back as the timestamp truncated to the whole second |
| CommentCodec.DecodeEncode | MarkdownViewer/DocumentState.swift:46-71 | `decode(encode(c))` gives back id and body unchanged and both timestamps at whole-second precision |
| CommentCodec.EncodedBraces | MarkdownViewer/DocumentState.swift:46-56 | an encoded comment is one JSON object whose only `}` is its last character, when the id has none |
| CommentMarkers.SkipSpaces | MarkdownViewer/DocumentState.swift:279 | the end of the maximal run of `\s` characters |
| CommentMarkers.ClosingBrace | MarkdownViewer/DocumentState.swift:279 | the lazy `{.*?}\s*-->`: the first `}` followed by optional spaces and `-->`, or none when there is none |
| CommentMarkers.StartMarkerAt | MarkdownViewer/DocumentState.swift:279 | a start-marker match tried at a position starts there and lies inside the text, with its group inside the match |
| CommentMarkers.StartMarkers | MarkdownViewer/DocumentState.swift:283-284 | `matches(in:)`: the start-marker matches from left to right, ordered and not overlapping |
| CommentMarkers.Decoded | MarkdownViewer/DocumentState.swift:287-296 | the decoded comments are at most one per match |
| CommentMarkers.DecodedStep | MarkdownViewer/DocumentState.swift:292-295 | one more match adds its comment exactly when its payload decodes |
| CommentMarkers.InsertBySorted | MarkdownViewer/DocumentState.swift:298 | inserting into a sorted list keeps it sorted and adds exactly the one element |
| CommentMarkers.SortBySorted | MarkdownViewer/DocumentState.swift:298 | the sort orders by numeric id and is a permutation of its input |
| CommentMarkers.ParseComments | MarkdownViewer/DocumentState.swift:278-299 | `parseComments`: the decodable start markers' comments, sorted by numeric id, a permutation of the decoded comments |
| CommentMarkers.MaxNumericID | MarkdownViewer/DocumentState.swift:302 | the largest numeric id, attained by some comment, or 0 for none |
| CommentMarkers.MaxNumericIDPermutation | MarkdownViewer/DocumentState.swift:302 | the largest numeric id is the same for any order of the same comments, so the sorted list gives the same next id |
| CommentMarkers.NextCommentID | MarkdownViewer/DocumentState.swift:301-304 | `nextCommentID` has numeric id max existing + 1 (1 for no comments), so it exceeds every existing numeric id and is at least 1, and the id is `COM-` followed by its decimal digits |
| CommentMarkers.EnsureCommentHeader | MarkdownViewer/DocumentState.swift:306-316 | the reported insertion offset is the one given |
| CommentMarkers.EnsureCommentHeaderInserts | MarkdownViewer/DocumentState.swift:306-316 | a no-op when the header prefix occurs or the offset is not a character position; otherwise the header and a blank line go in at that position, and the reported byte count is exactly the growth |
| CommentMarkers.EnsureCommentHeaderSplices | MarkdownViewer/DocumentState.swift:306-316 | the result is the text with the header spliced in at the offset's position, or nothing spliced and 0 reported |
| CommentMarkers.HeaderStartsWithPrefix | MarkdownViewer/DocumentState.swift:4-7 | the header line begins with the prefix that is searched for |
| CommentMarkers.HeaderOnce | MarkdownViewer/DocumentState.swift:306-309 | after the header is ensured the prefix occurs, so ensuring it again changes nothing |
| CommentMarkers.InsertCommentMarkers | MarkdownViewer/DocumentState.swift:318-331 | some exactly when both offsets are character positions and start <= end; then the text before, the start marker, the untouched middle, the end marker and the text after |
| CommentMarkers.Payloads | MarkdownViewer/DocumentState.swift:344-346 | one decoded payload, or none, per match |
| CommentMarkers.PayloadAt | MarkdownViewer/DocumentState.swift:344-346 | each entry is the decoding of that match's `{…}` group |
| CommentMarkers.LastWithID | MarkdownViewer/DocumentState.swift:342-348 | the last payload with the id: it has the id, no later one does, and none means no payload has it |
| CommentMarkers.FindLastWithID | MarkdownViewer/DocumentState.swift:368-378 | the reversed loop stops at the last payload with the id |
| CommentMarkers.UpdatingCommentPayload | MarkdownViewer/DocumentState.swift:333-356 | `updatingCommentPayload`: the last start marker with the id replaced by one carrying the same id and creation time, the new time and body; none when no marker has the id |
| CommentMarkers.IdThenClose | MarkdownViewer/DocumentState.swift:381 | the id, optional spaces and `-->` end after the position where they start |
| CommentMarkers.EndMarkerAt | MarkdownViewer/DocumentState.swift:381 | an end-marker match tried at a position ends after it, inside the text |
| CommentMarkers.RemovingCommentMarkers | MarkdownViewer/DocumentState.swift:358-389 | `removingCommentMarkers`: the last start marker with the id cut out, then every end marker with the id; none when no start marker has the id |
| CommentAnchoring.Anchored | MarkdownViewer/DocumentState.swift:330 | a text with markers inserted grows by exactly the two markers |
| CommentAnchoring.StartMarkersSkip | MarkdownViewer/DocumentState.swift:279-284 | a stretch of text in which no comment marker begins holds no start-marker match |
| CommentAnchoring.StripSkips | MarkdownViewer/DocumentState.swift:381-387 | stripping end markers copies a stretch in which no comment marker begins unchanged |
| CommentAnchoring.MatchOpens | MarkdownViewer/DocumentState.swift:279 | a match of either marker pattern begins with `<!--`, optional white space and `MV-COMMENT-` |
| CommentAnchoring.HeaderKeepsMarkerFree | MarkdownViewer/DocumentState.swift:306-316 | inserting the comment header keeps a text free of comment markers: after its `<!--` comes `MarkdownViewer`, not `MV-COMMENT-` |
| CommentAnchoring.CommentIDAnchorable | MarkdownViewer/DocumentState.swift:301-304 | every id of the form `COM-` and a decimal number is found literally by the end pattern and cannot close a payload early |
| CommentAnchoring.ClosingBraceSkips | MarkdownViewer/DocumentState.swift:279 | the lazy group skips text without `}` |
| CommentAnchoring.StartMarkerFound | MarkdownViewer/DocumentState.swift:325 | the start marker the engine writes is matched by the start pattern, with the payload as its group |
| CommentAnchoring.EndMarkerFound | MarkdownViewer/DocumentState.swift:326 | the end marker the engine writes is matched by the end pattern for its id |
| CommentAnchoring.EndMarkerNotStart | MarkdownViewer/DocumentState.swift:279 | an end marker is never taken for a start marker |
| CommentAnchoring.EncodedObject | MarkdownViewer/DocumentState.swift:46-56 | an encoded comment is a payload object the lazy group captures whole |
| CommentAnchoring.AnchoredScan | MarkdownViewer/DocumentState.swift:279-284 | in a text in which no comment marker begins, with markers inserted, the scanner finds exactly the one start marker, capturing its payload |
| CommentAnchoring.AnchoredDecodes | MarkdownViewer/DocumentState.swift:278-299 | parsing such a text gives exactly the inserted comment, timestamps at whole seconds |
| CommentAnchoring.InsertedIsAnchored | MarkdownViewer/DocumentState.swift:318-331 | what `insertCommentMarkers` returns is the text with the two markers at the offsets' positions |
| CommentAnchoring.ParseAfterInsert | MarkdownViewer/DocumentState.swift:278-331 | parsing right after an insertion reads back exactly the inserted comment |
| CommentAnchoring.StripAnchoredRest | MarkdownViewer/DocumentState.swift:381-388 | stripping the end markers of the id removes exactly the inserted one |
| CommentAnchoring.RemoveAnchored | MarkdownViewer/DocumentState.swift:358-389 | removing the comment from a text with its markers gives the text without them |
| CommentAnchoring.RemoveAfterInsert | MarkdownViewer/DocumentState.swift:358-389 | removing a comment right after inserting it gives back the original text |
| CommentAnchoring.UpdateAnchored | MarkdownViewer/DocumentState.swift:342-353 | updating rewrites only the start marker's payload, keeping id and creation time |
| CommentAnchoring.UpdateAfterInsert | MarkdownViewer/DocumentState.swift:333-356 | updating right after inserting equals inserting the updated comment: same id, creation time kept, text between the markers untouched |
| FrontMatter.Entry | MarkdownViewer/DocumentState.swift:141-147 | a line without a colon gives nothing; otherwise it is split at its first colon with key and value trimmed, and a blank key gives nothing |
| FrontMatter.Entries | MarkdownViewer/DocumentState.swift:133-148 | at most one pair per line, and every key is non-empty |
| FrontMatter.EntriesAppend | MarkdownViewer/DocumentState.swift:136-147 | lines contribute independently and in order |
| FrontMatter.FenceIndex | MarkdownViewer/DocumentState.swift:136-140 | the first `---` line, or none when there is none |
| FrontMatter.SkipLines | MarkdownViewer/DocumentState.swift:161-173 | the loop of `contentStartIndex` with a search for the line feeds at which the lines are split (see Findings): the position stays inside the text, and `SkipLinesJoin` states where it is |
| FrontMatter.SkipLinesAsWritten | MarkdownViewer/DocumentState.swift:161-173 | the loop as written, whose `firstIndex(of: "\n")` passes only line feeds that are Characters of their own: the position stays inside the text |
| FrontMatter.SkipLinesAsWrittenStep | MarkdownViewer/DocumentState.swift:165-170 | one pass of the loop as written: past the next lone line feed, one line fewer to pass |
| FrontMatter.SkipLinesAgree | MarkdownViewer/DocumentState.swift:161-173 | on text without "\r\n" the loop as written reaches the same position as `SkipLines` |
| FrontMatter.CrLfSkipLines | MarkdownViewer/DocumentState.swift:161-173 | on a block whose line ends in "\r\n", `SkipLines` passes three line feeds and lands where the body starts |
| FrontMatter.CrLfAsWritten | MarkdownViewer/DocumentState.swift:161-173 | on the same block the loop as written passes over the line feed of the "\r\n" and ends at the end of the file |
| FrontMatter.CrLfContentOffset | MarkdownViewer/DocumentState.swift:150-173 | on the same block the content is the body and the offset is where the body starts, while the loop as written reports the end of the file |
| FrontMatter.ContentStartIndex | MarkdownViewer/DocumentState.swift:161-173 | the `while` loop of `contentStartIndex`, with the corrected line-feed search (see Findings): it ends at the position reached by passing `endIndex` line feeds, or at the end |
| FrontMatter.NextNewline | MarkdownViewer/DocumentState.swift:166-170 | one pass of the corrected loop (see Findings): the next line feed from the current position, counting the one inside a "\r\n", as a position in the whole text, with none before it, and the loop goes on past it with one line fewer to pass; none, and the loop ends at the end of the text |
| FrontMatter.SkipLinesStep | MarkdownViewer/DocumentState.swift:165-170 | passing one newline and then the rest equals passing them all |
| FrontMatter.SkipLinesEnd | MarkdownViewer/DocumentState.swift:166-168 | without another newline the loop ends at the end of the text |
| FrontMatter.SkipLinesJoin | MarkdownViewer/DocumentState.swift:150-173 | the position after n newlines is where the text of the remaining lines begins, so `content` and the offset agree |
| FrontMatter.SplitPastLine | MarkdownViewer/DocumentState.swift:128 | the lines from a point are the line up to the next newline, then the lines after it |
| FrontMatter.Block | MarkdownViewer/DocumentState.swift:133-148 | the index after the closing fence is at most one past the lines |
| FrontMatter.EntriesNext | MarkdownViewer/DocumentState.swift:136-147 | one more line appends its pair, if it has one, after those of the lines before it |
| FrontMatter.ScanBlock | MarkdownViewer/DocumentState.swift:133-148 | the `for` loop of `parseFrontMatter` computes the pairs and `endIndex` of the block |
| FrontMatter.ParseFrontMatter | MarkdownViewer/DocumentState.swift:127-159 | `parseFrontMatter` computes the pairs, the content and both offsets |
| FrontMatter.FrontMatterAbsent | MarkdownViewer/DocumentState.swift:127-131 | without a first `---` line or without a closing one, the content is the whole text and both offsets are 0; pairs are still collected in the second case |
| FrontMatter.FrontMatterClosed | MarkdownViewer/DocumentState.swift:150-158 | with a closing fence, the pairs come from the lines between the fences, the content is the file from byte `contentStartOffset` on, and that offset is the UTF-8 length of the block with its newlines and equals `frontMatterEndOffset` |
| FrontMatter.Capitalized | MarkdownViewer/DocumentState.swift:183 | `capitalized` keeps the length; a letter that starts a word (the first, or one after white space) is upper case and every other letter lower case |
| FrontMatter.ContentAfterLines | MarkdownViewer/DocumentState.swift:150-158 | the text after the first `n` lines is their join, its bytes are the file's bytes from the offset on, and the offset is the byte length of those lines with the newline after them |
| FrontMatter.RenderFrontMatter | MarkdownViewer/DocumentState.swift:175-188 | `renderFrontMatter`: empty without pairs, else the table opening, one row per pair in order, and the closing |
| FrontMatter.AppendEach | MarkdownViewer/DocumentState.swift:182-185 | the loop appends the text of every pair in order |
| FrontMatter.ConcatMapAppend | MarkdownViewer/DocumentState.swift:182-185 | rows are rendered independently and in order |
| FrontMatter.ConcatMapAt | MarkdownViewer/DocumentState.swift:182-185 | each row sits right after the rows before it |
| FrontMatter.RowCells | MarkdownViewer/DocumentState.swift:184 | each cell holds its text escaped, which reads back as the displayed key and the value |
| Outline.H1Count | MarkdownViewer/DocumentState.swift:191 | the number of level-1 entries is at most the number of entries |
| Outline.H1CountAppend | MarkdownViewer/DocumentState.swift:191 | counting level-1 entries is additive |
| Outline.PromoteAllAppend | MarkdownViewer/DocumentState.swift:194-199 | the `compactMap` works entry by entry, in order |
| Outline.PromoteAllNoH1 | MarkdownViewer/DocumentState.swift:194-199 | without level-1 entries every entry is kept and promoted, in order |
| Outline.NormalizedOutlineSingleH1 | MarkdownViewer/DocumentState.swift:190-200 | with exactly one level-1 entry it is dropped and every other entry keeps its order, title and anchor, with level `max(1, l - 1)` |
| Outline.NormalizedOutlineOtherwise | MarkdownViewer/DocumentState.swift:191-192 | with no level-1 entry or more than one, the outline is unchanged |
| Document.IndexOfPrefix | MarkdownViewer/DocumentState.swift:391-397 | a byte offset that is the length of a prefix resolves to that prefix's position |
| Document.ShiftAcross | MarkdownViewer/DocumentState.swift:219-228 | an offset at or after the insertion point, moved by the inserted byte count, lands on the same character |
| Document.ShiftKeepsPosition | MarkdownViewer/DocumentState.swift:219-228 | after the header is ensured, the shifted offset is the position of the same text as before |
| Document.SelectionAfterHeader | MarkdownViewer/DocumentState.swift:219-228 | a selection at or after the insertion point covers the same text once both ends are shifted |
| Document.NextComment | MarkdownViewer/DocumentState.swift:230-233 | none exactly when the largest existing numeric id is Int64.max; otherwise the new comment's numeric id is the largest existing one plus 1 (so 1 for a text without comments) and exceeds every existing one, its id is `COM-` and digits, and its body and both times are the given ones |
| Document.AddedCommentWrapsSelection | MarkdownViewer/DocumentState.swift:210-242 | `addComment` on a selection after the insertion point succeeds and puts the selected text, untouched, between the new comment's start and end markers |
| Document.MarkersAroundSelection | MarkdownViewer/DocumentState.swift:235-242 | with the header in, the markers go around the selection's text |
| Document.AddedCommentParses | MarkdownViewer/DocumentState.swift:278-299 | right after `addComment` on a text in which no comment marker begins, parsing gives exactly the new comment, with the next id and both times at whole seconds |
| Document.AddedCommentRemoves | MarkdownViewer/DocumentState.swift:358-389 | right after `addComment`, removing the new comment gives back the text with the header, as it was before the markers went in |
| Document.AddedCommentUpdates | MarkdownViewer/DocumentState.swift:333-356 | right after `addComment`, updating the new comment equals inserting a comment with the same id and creation time, the new body and the new time |
| Document.AddedCommentUnfolds | MarkdownViewer/DocumentState.swift:230-242 | `addComment` inserts the markers of the next comment into the header-ensured text at the shifted offsets |
| Document.MarkersAround | MarkdownViewer/DocumentState.swift:318-331 | markers inserted at two character positions wrap the text between them |
| Document.AddComment | MarkdownViewer/DocumentState.swift:210-242 | the text-to-text part of `addComment`: no change for an empty or reversed range, else the front matter end, the header, the offset shift, the next id and the markers |
| Document.NewComment | MarkdownViewer/DocumentState.swift:230-233 | the comment computed from the parsed comments is `NextComment`'s: none exactly at the Int64.max id, else numeric id max + 1 with the given body and times |
| Document.RequestFor | MarkdownViewer/DocumentState.swift:477-484 | `requestFind`: the trimmed query with the given direction and reset, or, for a blank query, the clearing request (forward, reset) |
| Document.BlankQueryClears | MarkdownViewer/DocumentState.swift:478-481 | a query gives the clearing request exactly when it is blank |
| Document.DocumentState.constructor | MarkdownViewer/DocumentState.swift:82-85 | a new state has the find bar hidden, an empty query and no request |
| Document.DocumentState.NewToken | MarkdownViewer/DocumentState.swift:480 | `UUID()` hands out a token never handed out before and changes nothing else |
| Document.DocumentState.RequestFind | MarkdownViewer/DocumentState.swift:477-484 | the request becomes the one `requestFind` builds, with a fresh token; nothing else changes |
| Document.DocumentState.ShowFindBar | MarkdownViewer/DocumentState.swift:417-424 | the bar is shown with a fresh focus token and the query kept; if it was shown the request is kept and one token is drawn, if it was hidden a forward reset search is requested with a second token |
| Document.DocumentState.HideFindBar | MarkdownViewer/DocumentState.swift:426-429 | the bar is hidden and a clearing request with one fresh token is made; the query and the focus token are kept |
| Document.DocumentState.UpdateFindResults | MarkdownViewer/DocumentState.swift:431-433 | a forward search from the start is requested |
| Document.DocumentState.FindNext | MarkdownViewer/DocumentState.swift:435-437 | a forward search without reset is requested with one fresh token; the bar, the query and the focus token are kept |
| Document.DocumentState.FindPrevious | MarkdownViewer/DocumentState.swift:439-441 | a backward search without reset is requested with one fresh token; the bar, the query and the focus token are kept |
| Document.DocumentState.ClearFindHighlights | MarkdownViewer/DocumentState.swift:486-488 | the clearing request with one fresh token; the bar, the query and the focus token are kept |
| SourceMap.LineStarts | MarkdownViewer/MarkdownRenderer.swift:11-21 | the table starts with 0 |
| SourceMap.NewSourceMapper | MarkdownViewer/MarkdownRenderer.swift:11-21 | the loop over the UTF-8 bytes builds the line-start table |
| SourceMap.LineStartsLength | MarkdownViewer/MarkdownRenderer.swift:14-19 | the table has one more entry than the text has newline bytes |
| SourceMap.LineStartsOrdered | MarkdownViewer/MarkdownRenderer.swift:14-19 | the entries increase strictly, lie within the text, and each after the first directly follows a newline byte |
| SourceMap.LineStartsComplete | MarkdownViewer/MarkdownRenderer.swift:14-19 | every newline byte is followed by an entry |
| SourceMap.LineStartsCount | MarkdownViewer/MarkdownRenderer.swift:11-21 | entry k is preceded by exactly k newline bytes |
| SourceMap.Offset | MarkdownViewer/MarkdownRenderer.swift:23-28 | `offset(for:)` is none exactly when the line is below 1 or past the table, else the line start plus `max(0, column - 1)` |
| SourceMap.OffsetInText | MarkdownViewer/MarkdownRenderer.swift:23-28 | for a text's mapper, a location resolves exactly when its line is a line of the text, and lands `column - 1` bytes after the start of that line |
| Slugs.Slugify | MarkdownViewer/MarkdownRenderer.swift:45-70 | the `slugify` loop computes the slug of the title |
| Slugs.Mask | MarkdownViewer/MarkdownRenderer.swift:50-67 | masking keeps the length |
| Slugs.ScanWordsKept | MarkdownViewer/MarkdownRenderer.swift:58-63 | a kept character extends the last word or starts a new one after a single hyphen |
| Slugs.ScanWordsDropped | MarkdownViewer/MarkdownRenderer.swift:51-54 | any other scalar only makes a hyphen owed |
| Slugs.ScanWords | MarkdownViewer/MarkdownRenderer.swift:50-67 | the loop's result is the runs of ASCII letters and digits joined by single hyphens |
| Slugs.SlugOfWords | MarkdownViewer/MarkdownRenderer.swift:45-70 | the slug is the words of the trimmed, lowercased title joined by hyphens |
| Slugs.ScanWellFormed | MarkdownViewer/MarkdownRenderer.swift:50-67 | the loop's result holds only `a-z`, `0-9` and `-`, with no hyphen at either end or twice in a row |
| Slugs.SlugOfWellFormed | MarkdownViewer/MarkdownRenderer.swift:45-70 | every slug is well formed in that sense |
| Slugs.AnchorKey | MarkdownViewer/MarkdownRenderer.swift:35-36 | the key is never empty: an empty slug becomes `section` |
| Slugs.NumberedDistinct | MarkdownViewer/MarkdownRenderer.swift:39-42 | two repeats of one key never receive the same anchor |
| Slugs.TitleKept | MarkdownViewer/MarkdownRenderer.swift:45-46 | a lowercase title of letters, digits and inner spaces is scanned as it is |
| Slugs.NumberedCollides | MarkdownViewer/MarkdownRenderer.swift:34-43 | keys are not checked against numbered anchors already handed out: the titles `a`, `a` and `a 1` all end up with `a-1` twice |
| Slugs.ScanOneSpaceOne | MarkdownViewer/MarkdownRenderer.swift:50-67 | the title `a 1` becomes `a-1` |
| Slugs.HeadingSlugger.constructor | MarkdownViewer/MarkdownRenderer.swift:32 | a new slugger has counted no key |
| Slugs.HeadingSlugger.Slug | MarkdownViewer/MarkdownRenderer.swift:34-43 | `slug(for:)` counts the title's key once more, leaves every other count alone, and returns the key for its first use and `key-n` for repeat n |
| Renderer.SpanOffsets | MarkdownViewer/MarkdownRenderer.swift:201-209 | a text node gets offsets exactly when it has a range, a mapper, and both ends resolve; each is shifted by the base |
| Renderer.TitlesAppend | MarkdownViewer/MarkdownRenderer.swift:106 | the titles of an outline are taken entry by entry |
| Renderer.GrowsTrans | MarkdownViewer/MarkdownRenderer.swift:100-197 | successive parts of one walk compose |
| Renderer.EmitGrows | MarkdownViewer/MarkdownRenderer.swift:100-197 | appending HTML leaves the outline and counts alone |
| Renderer.HeadingStartGrows | MarkdownViewer/MarkdownRenderer.swift:103-108 | a heading's slug is counted and its entry added only for a non-empty title |
| Renderer.WalkNode | MarkdownViewer/MarkdownRenderer.swift:100-197 | visiting a node only appends HTML and outline entries, adds exactly the node's headings to the outline, and no slug count decreases |
| Renderer.WalkLeaf | MarkdownViewer/MarkdownRenderer.swift:115-191 | the same for the kinds without children to visit |
| Renderer.WalkHeading | MarkdownViewer/MarkdownRenderer.swift:102-110 | the same for a heading and its children |
| Renderer.TextGrows | MarkdownViewer/MarkdownRenderer.swift:199-213 | `appendText` only appends HTML |
| Renderer.WalkWrapped | MarkdownViewer/MarkdownRenderer.swift:111-152 | the same for an element wrapping its children |
| Renderer.WalkAll | MarkdownViewer/MarkdownRenderer.swift:94-96 | the same for a sequence of nodes, in order |
| Renderer.WalkCells | MarkdownViewer/MarkdownRenderer.swift:163-167 | the same for the cells of a row |
| Renderer.WalkRows | MarkdownViewer/MarkdownRenderer.swift:170-178 | the same for the body rows of a table |
| Renderer.WalkTable | MarkdownViewer/MarkdownRenderer.swift:159-179 | the same for a table: head cells first, then body rows |
| Renderer.RenderOutline | MarkdownViewer/MarkdownRenderer.swift:90-110 | `render`'s outline lists every heading with a non-empty trimmed title with its level, in document order, and nothing else |
| Renderer.HeadingOpens | MarkdownViewer/MarkdownRenderer.swift:102-110 | a heading always takes a slug and opens with `<hN id="slug">`; for a non-empty title its outline item comes next |
| Renderer.TextSpan | MarkdownViewer/MarkdownRenderer.swift:199-213 | text is written escaped (no markup, reads back) inside a span with both file offsets when both ends resolve, bare otherwise |
| Renderer.SpanInSource | MarkdownViewer/MarkdownRenderer.swift:199-213 | for a renderer made from a source, text is wrapped exactly when both range ends are on lines of the source |
| Renderer.StartMarkerRendered | MarkdownViewer/MarkdownRenderer.swift:215-217 | the start markers the comment engine writes pass the raw-HTML filter |
| Renderer.EndMarkerRendered | MarkdownViewer/MarkdownRenderer.swift:215-217 | so do the end markers |
| Renderer.HeaderRendered | MarkdownViewer/MarkdownRenderer.swift:215-217 | so does the comment header |
| Renderer.RawDropped | MarkdownViewer/MarkdownRenderer.swift:184-191 | raw HTML without a marker or the header contributes nothing |
| Renderer.MarkdownRenderer.FromSource | MarkdownViewer/MarkdownRenderer.swift:80-83 | `init(source:sourceOffsetBase:)` builds the mapper of the source and starts empty |
| Renderer.MarkdownRenderer.constructor | MarkdownViewer/MarkdownRenderer.swift:85-88 | `init()` has no mapper and base 0 |
| Renderer.MarkdownRenderer.Render | MarkdownViewer/MarkdownRenderer.swift:90-98 | `render` resets the state, so its result depends on the document alone, and leaves `result` and `outline` holding it |
| Renderer.MarkdownRenderer.VisitChildren | MarkdownViewer/MarkdownRenderer.swift:109 | the children are visited in order |
| Renderer.MarkdownRenderer.VisitCells | MarkdownViewer/MarkdownRenderer.swift:163-167 | the cells of a row are visited in order |
| Renderer.MarkdownRenderer.VisitRows | MarkdownViewer/MarkdownRenderer.swift:170-178 | the body rows are visited in order |
| Renderer.MarkdownRenderer.VisitWrapped | MarkdownViewer/MarkdownRenderer.swift:111-114 | an element's tags surround its visited children |
| Renderer.MarkdownRenderer.AppendText | MarkdownViewer/MarkdownRenderer.swift:199-213 | `appendText` updates the state as the text rule says |
| Renderer.MarkdownRenderer.VisitHeading | MarkdownViewer/MarkdownRenderer.swift:102-110 | a heading updates the state as the heading rule says |
| Renderer.MarkdownRenderer.OpenHeading | MarkdownViewer/MarkdownRenderer.swift:103-108 | the slug, outline entry and opening tag of a heading |
| Renderer.MarkdownRenderer.VisitTable | MarkdownViewer/MarkdownRenderer.swift:159-179 | a table updates the state as the table rule says |
| Renderer.MarkdownRenderer.Visit | MarkdownViewer/MarkdownRenderer.swift:100-197 | `visit` updates the state as the walk's rule for the node says |
| Renderer.MarkdownRenderer.VisitLeaf | MarkdownViewer/MarkdownRenderer.swift:115-191 | the kinds without children to visit |
| EditorSettings.MenuItemTitleGeneric | MarkdownViewer/Stores/ExternalEditorSettings.swift:20-25 | the title is `Open in External Editor` exactly when no editor is set or the editor is called that |
| EditorSettings.DisplayName | MarkdownViewer/Stores/ExternalEditorSettings.swift:119-122 | `displayName(for:)` is never empty |
| EditorSettings.DisplayNameOfApp | MarkdownViewer/Stores/ExternalEditorSettings.swift:119-122 | an application `dir/name.app` is shown as `name` |
| EditorSettings.DisplayNameFallback | MarkdownViewer/Stores/ExternalEditorSettings.swift:119-122 | only the empty path falls back to `External Editor`; otherwise the last component without its extension |
| EditorSettings.ShortcutIdentityDistinguishes | MarkdownViewer/Stores/ExternalEditorSettings.swift:37-39 | two identities are equal exactly when key and modifiers are |
| EditorSettings.ClearedShortcutIdentity | MarkdownViewer/Stores/ExternalEditorSettings.swift:99-105 | a cleared shortcut is identified as `-0` |
| EditorSettings.KeyboardShortcutOf | MarkdownViewer/Stores/ExternalEditorSettings.swift:27-35 | `keyboardShortcut` is none exactly when the key is empty, else uses its lowercased first character |
| EditorSettings.ShortcutModifiers | MarkdownViewer/Stores/ExternalEditorSettings.swift:29-33 | each modifier of the shortcut is present exactly when its flag is set |
| EditorSettings.GlyphsOrdered | MarkdownViewer/Stores/ExternalEditorSettings.swift:41-49 | each glyph appears exactly when its modifier is set, in the order control, option, shift, command |
| EditorSettings.DisplayStringEndsWithKey | MarkdownViewer/Stores/ExternalEditorSettings.swift:41-49 | the display string is the glyphs followed by the whole key uppercased |
| EditorSettings.DisplayStringExamples | MarkdownViewer/Stores/ExternalEditorSettings.swift:41-49 | Command-Shift-O shows as `⇧⌘O`, a plain f as `F` |
| EditorSettings.KeysDistinct | MarkdownViewer/Stores/ExternalEditorSettings.swift:61-64 | the four defaults keys are pairwise distinct |
| EditorSettings.SavedKeepsOthers | MarkdownViewer/Stores/ExternalEditorSettings.swift:124-134 | saving leaves every other key of the defaults alone |
| EditorSettings.LoadSaved | MarkdownViewer/Stores/ExternalEditorSettings.swift:124-151 | loading what was saved restores the settings, except that a cleared key comes back as `e` while the modifiers stay 0 |
| EditorSettings.ExternalEditorSettings.constructor | MarkdownViewer/Stores/ExternalEditorSettings.swift:71-73 | `init` loads the store over the defaults and saves nothing |
| EditorSettings.ExternalEditorSettings.Save | MarkdownViewer/Stores/ExternalEditorSettings.swift:124-134 | `save` writes the four values, and nothing while loading |
| EditorSettings.ExternalEditorSettings.DidSet | MarkdownViewer/Stores/ExternalEditorSettings.swift:7-18 | a property observer saves unless loading or batching |
| EditorSettings.ExternalEditorSettings.SetEditorAppURL | MarkdownViewer/Stores/ExternalEditorSettings.swift:7-9 | assigning the URL changes only it and saves unless loading or batching |
| EditorSettings.ExternalEditorSettings.SetEditorDisplayName | MarkdownViewer/Stores/ExternalEditorSettings.swift:10-12 | the same for the display name |
| EditorSettings.ExternalEditorSettings.SetShortcutKey | MarkdownViewer/Stores/ExternalEditorSettings.swift:13-15 | the same for the key |
| EditorSettings.ExternalEditorSettings.SetShortcutModifiers | MarkdownViewer/Stores/ExternalEditorSettings.swift:16-18 | the same for the modifiers |
| EditorSettings.ExternalEditorSettings.SetEditor | MarkdownViewer/Stores/ExternalEditorSettings.swift:75-81 | URL and display name change together, then exactly one save |
| EditorSettings.ExternalEditorSettings.ClearEditor | MarkdownViewer/Stores/ExternalEditorSettings.swift:83-89 | no URL and the generic name, then exactly one save |
| EditorSettings.ExternalEditorSettings.SetShortcut | MarkdownViewer/Stores/ExternalEditorSettings.swift:91-97 | the lowercased key and the raw modifiers, then exactly one save |
| EditorSettings.ExternalEditorSettings.ClearShortcut | MarkdownViewer/Stores/ExternalEditorSettings.swift:99-105 | empty key and modifiers 0, then exactly one save |
| EditorSettings.ExternalEditorSettings.Load | MarkdownViewer/Stores/ExternalEditorSettings.swift:136-151 | `load` applies the stored values (a non-empty key only) and saves nothing |
| Paths.LastIndex | MarkdownViewer/Stores/ExternalEditorSettings.swift:120 | the last occurrence of a character, or none |
| Paths.LastIndexAfter | MarkdownViewer/Stores/ExternalEditorSettings.swift:120 | the last slash before a slash-free tail is found |
| Paths.TrimTrailingSlashes | MarkdownViewer/Stores/ExternalEditorSettings.swift:120 | a prefix that does not end in a slash, with only slashes dropped |
| Paths.LastPathComponent | MarkdownViewer/Stores/ExternalEditorSettings.swift:120 | `lastPathComponent` holds no slash (except the root itself) and is non-empty for a non-empty path |
| Paths.DeletingPathExtension | MarkdownViewer/Stores/ExternalEditorSettings.swift:120 | `deletingPathExtension` is a prefix of the name, non-empty for a non-empty name |
| Paths.LastComponentOfPath | MarkdownViewer/Stores/ExternalEditorSettings.swift:120 | the last component of `dir/leaf` is `leaf` |
| Paths.ExtensionOfName | MarkdownViewer/Stores/ExternalEditorSettings.swift:120 | a name loses exactly its `.ext` |
| Paths.NameOfPath | MarkdownViewer/Stores/ExternalEditorSettings.swift:119-122 | the name of `dir/name.ext` comes back out of the path |
| Appearance.ModeOf | MarkdownViewer/Stores/AppearanceSettings.swift:3-7 | `AppearanceMode(rawValue:)` is some exactly for 0, 1 and 2, with that raw value |
| Appearance.RawValueRoundTrip | MarkdownViewer/Stores/AppearanceSettings.swift:3-7 | every mode reads back from its raw value |
| Appearance.InitialMode | MarkdownViewer/Stores/AppearanceSettings.swift:23-26 | `init` starts in the stored mode, and in system for any other number |
| Appearance.CycleOrder | MarkdownViewer/Stores/AppearanceSettings.swift:33-39 | `cycle` visits all three modes and is back after three steps |
| Appearance.PresentationDistinct | MarkdownViewer/Stores/AppearanceSettings.swift:41-55 | different modes have different icons and labels |
| Appearance.AppAppearance | MarkdownViewer/Stores/AppearanceSettings.swift:57-67 | the application follows the system exactly in system mode |
| Appearance.PersistedModeRestores | MarkdownViewer/Stores/AppearanceSettings.swift:12-26 | the mode persisted by a change is the mode a later launch starts in |
| Appearance.AppearanceSettings.constructor | MarkdownViewer/Stores/AppearanceSettings.swift:22-31 | `init` reads the stored mode without writing the defaults |
| Appearance.AppearanceSettings.ApplyAppearance | MarkdownViewer/Stores/AppearanceSettings.swift:57-67 | the app's appearance follows the mode, and nothing happens without an app |
| Appearance.AppearanceSettings.SetMode | MarkdownViewer/Stores/AppearanceSettings.swift:12-18 | a change persists the raw value and applies it, except while loading |
| Appearance.AppearanceSettings.Cycle | MarkdownViewer/Stores/AppearanceSettings.swift:33-39 | `cycle` moves to the next mode, persists it and applies it |

## Findings

| source | as written | input that shows it | evidently intended | confidence | as-written member | corrected member |
|---|---|---|---|---|---|---|
| MarkdownViewer/DocumentState.swift:161-173 | `contentStartIndex` looks for `"\n"` with `firstIndex(of:)`, which compares Characters and so passes over the line feed of a `"\r\n"`, while line 128 splits the lines at every line feed | `"---\na: b\r\n---\nbody"`: the content is `body`, which starts at byte 14, but the loop reports byte 18, the end of the file | the offset where the content starts, after the line feeds at which the lines were split | not executed | FrontMatter.CrLfContentOffset | FrontMatter.SkipLinesJoin |

## Left out

- File I/O (`String(contentsOf:)` and `write` in `loadFile`, `addComment`, `updateComment`,
  `deleteComment`), `reload`, `HTMLTemplate.wrap`, `recentFilesStore` and the `DispatchSource`
  file monitoring are not modelled. The edit operations are text-to-text functions and
  methods without the disk round trip.
- Zoom (`zoomIn`, `zoomOut`, `resetZoom`) is left out because it is floating-point arithmetic
  on `CGFloat`.
- The Markdown parser (`Document(parsing:)`) is not modelled. The renderer takes the parsed
  tree as a `Renderer.Node` value.
- The timestamp text is not ISO-8601. `ISO8601DateFormatter` is modelled as whole seconds in
  decimal, with the same whole-second truncation on the way back.
- `JSONEncoder`/`JSONDecoder` are modelled for the one object layout the encoder writes: keys
  in declaration order, no whitespace, and `"`, `\`, `/`, the named control escapes and
  `\u00XX` for the other controls. The decoder accepts only that layout and no other
  valid JSON (reordered keys, whitespace, `\u` escapes above U+001F).
- Character positions are Unicode scalar boundaries. Swift's `String.Index` positions are
  grapheme-cluster boundaries, so an offset inside a cluster of several scalars resolves here
  where `samePosition(in:)` would give nil. The UTF-16 `NSRange` bookkeeping of the update
  and remove operations is treated as plain positions in the text.
- Case mapping (`lowercased`, `uppercased`, `capitalized`) is ASCII only. Other characters
  are left unchanged.
- `Renderer.PlainText` is written after swift-markdown's `plainText` for the inline kinds
  only. Block nodes inside a heading contribute nothing to its title.
- `MarkdownRenderer` writes link destinations and image sources unescaped (lines 131 and
  136). The model does the same and proves nothing about them.
- `URL.lastPathComponent` and `deletingPathExtension` are modelled on a plain path string.
  Percent-encoding and Foundation's special cases beyond trailing slashes and the root are
  not modelled.
- `UserDefaults` type coercion is not modelled. A stored value is either a string or an
  integer, and `integer(forKey:)` gives 0 for anything that is not an integer.
- `EditorSettings.ExternalEditorSettings.constructor`: requires `LoadableModifiers`. Converting
  a negative stored modifier value to `UInt` traps in the source, so that case is excluded
  rather than modelled.
- `EditorSettings.ExternalEditorSettings.Load`: requires `LoadableModifiers`, for the same
  reason.
- `Appearance.AppearanceSettings.constructor`: does not model the `applyAppearance()` that
  `init` defers to the main queue. It leaves the application's appearance as it was.
- `Document.AddComment`: returns no text when the largest existing numeric id is Int64.max.
  The source's `maxID + 1` traps there instead.
- `CommentMarkers.NextCommentID`: requires every numeric id to be below Int64.max. The source
  traps on the increment otherwise.
- `CommentMarkers.FindLastWithID`: walks payloads that are all decoded first. The source
  decodes each one lazily during its reversed loop, which gives the same result.
- `CommentAnchoring.ParseAfterInsert`, `UpdateAfterInsert` and `RemoveAfterInsert` (and
  `Document.AddedCommentParses`, `AddedCommentUpdates`, `AddedCommentRemoves`) require a text
  in which no comment marker begins yet. A text that already holds comments is not covered,
  because the other comments' markers would then appear in the results too. The ids must be
  anchorable, which every id `nextCommentID` issues is (`CommentAnchoring.CommentIDAnchorable`).
  The operations themselves are modelled for every text and id.
- `FrontMatter.SkipLinesJoin` is proved for the search that finds every line feed, the
  corrected `contentStartIndex`. On a front-matter line ending in "\r\n" the source's loop
  reports another offset (see Findings). `FrontMatter.SkipLinesAgree` shows that the two agree
  on text without "\r\n".
- `FrontMatter.ContentStartIndex` runs the corrected loop, equal to `FrontMatter.SkipLines`, not
  the source's loop (`FrontMatter.SkipLinesAsWritten`); the two differ when a front-matter line
  ends in "\r\n" (see Findings).
- `FrontMatter.NextNewline` stops at every line feed, including the one of a "\r\n", which the
  source's Character-level `firstIndex(of: "\n")` passes over (see Findings).
- `FrontMatter.ParseFrontMatter` computes its offsets with the corrected loop, so they differ
  from the source's when a front-matter line ends in "\r\n" (see Findings).
- `FrontMatter.FrontMatterClosed` states the offset of the corrected loop, which differs from
  the source's when a front-matter line ends in "\r\n" (see Findings).
- `FrontMatter.Entry` and `Text.IndexOf` find the first colon by comparing scalar values.
  Swift compares Characters, so a colon followed by a combining mark is not found at line 141
  but is found here.
- `FrontMatter.Capitalized`: words are delimited by white space, as Foundation documents
  `capitalized`. CFStringCapitalize also starts a word after punctuation or a digit
  (`last-modified` shows as `Last-Modified`), which the model does not.
- `CommentMarkers.StartMarkers`: the model assumes the start-marker pattern compiles. ICU may
  reject its unescaped `{`. In that case `parseComments` returns no comments and the update
  and remove operations return nil, which the model does not show.
