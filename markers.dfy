/**
 * The comment anchoring engine of `DocumentState`: the start and end markers embedded in the
 * Markdown text, the scanner that finds them (in place of the regular expressions), and the
 * text-to-text operations that parse, insert, update and remove comments.
 */
module CommentMarkers {
  import opened Wrappers
  import opened Text
  import Utf8
  import opened CommentCodec

  const HeaderPrefix: string := "<" + "!-- Markdown" + "Viewer comments:"
  const HeaderNote: string := " Do not remove MV-COMMENT markers." + " They anchor inline comments. -->"
  const HeaderLine: string := HeaderPrefix + HeaderNote

  /** What `ensureCommentHeader` inserts: the header line and a blank line. */
  const Header: string := HeaderLine + "\n\n"

  const StartLead: string := "<!-- MV-COMMENT-START "
  const EndLead: string := "<!-- MV-COMMENT-END "
  const Tail: string := " -->"

  /** The start marker around an encoded payload. */
  function StartMarker(payload: string): string {
    StartLead + payload + Tail
  }

  /** The end marker: only the id. */
  function EndMarker(id: string): string {
    EndLead + id + Tail
  }

  // ---------------------------------------------------------------------------------
  // The marker scanner

  /** The regular expression class `\s` (ICU): tab, newline, form feed, return and `\p{Z}`. */
  predicate IsRegexSpace(c: char) {
    IsWhitespace(c) || c == '\n' || c == '\U{C}' || c == '\r' || c == '\U{2028}' || c == '\U{2029}'
  }

  /** The end of the run of `\s` characters that starts at `i`. */
  function SkipSpaces(t: string, i: nat): (j: nat)
    requires i <= |t|
    ensures i <= j <= |t|
    ensures j < |t| ==> !IsRegexSpace(t[j])
    ensures forall k | i <= k < j :: IsRegexSpace(t[k])
    decreases |t| - i
  {
    if i < |t| && IsRegexSpace(t[i]) then SkipSpaces(t, i + 1) else i
  }

  /** Where a start marker was found: the whole match and the `{…}` group inside it. */
  datatype Span = Span(start: nat, end: nat, jsonStart: nat, jsonEnd: nat)

  predicate SpanIn(t: string, m: Span) {
    m.start < m.jsonStart < m.jsonEnd <= m.end <= |t|
  }

  /** A `}` at `k` that is followed by optional `\s` and then `-->`. */
  predicate IsClose(t: string, k: nat)
    requires k < |t|
  {
    t[k] == '}' && "-->" <= t[SkipSpaces(t, k + 1)..]
  }

  /** The lazy `{.*?}\s*-->`: the first closing brace at or after `i`. */
  function ClosingBrace(t: string, i: nat): (r: Option<nat>)
    requires i <= |t|
    ensures r.Some? ==> i <= r.value < |t| && IsClose(t, r.value)
    ensures r.Some? ==> forall k | i <= k < r.value :: !IsClose(t, k)
    ensures r.None? ==> forall k | i <= k < |t| :: !IsClose(t, k)
    decreases |t| - i
  {
    if i == |t| then None
    else if IsClose(t, i) then Some(i)
    else ClosingBrace(t, i + 1)
  }

  /** The start-marker pattern `<!--\s*MV-COMMENT-START\s+({.*?})\s*-->` tried at position `p`. */
  function StartMarkerAt(t: string, p: nat): (r: Option<Span>)
    requires p <= |t|
    ensures r.Some? ==> r.value.start == p && SpanIn(t, r.value)
  {
    if !("<!--" <= t[p..]) then None
    else StartMarkerAfterOpen(t, p, SkipSpaces(t, p + 4))
  }

  /** The rest of the pattern once `<!--` and the spaces after it end at `q`. */
  function StartMarkerAfterOpen(t: string, p: nat, q: nat): (r: Option<Span>)
    requires p <= q <= |t|
    ensures r.Some? ==> r.value.start == p && SpanIn(t, r.value)
  {
    if !("MV-COMMENT-START" <= t[q..]) then None
    else StartMarkerGroup(t, p, q, SkipSpaces(t, q + 16))
  }

  /** The `{…}` group, which must follow at least one space after the keyword ending at `q + 16`. */
  function StartMarkerGroup(t: string, p: nat, q: nat, b: nat): (r: Option<Span>)
    requires p <= q && q + 16 <= b <= |t|
    ensures r.Some? ==> r.value.start == p && SpanIn(t, r.value)
  {
    if b == q + 16 || b == |t| || t[b] != '{' then None
    else match ClosingBrace(t, b + 1)
      case None => None
      case Some(k) =>
        var e := SkipSpaces(t, k + 1);
        Some(Span(p, e + 3, b, k + 1))
  }

  /** Ordered, non-overlapping spans inside `t` that start at or after `from`. */
  predicate SpansFrom(t: string, ms: seq<Span>, from: nat) {
    && (forall i | 0 <= i < |ms| :: SpanIn(t, ms[i]) && from <= ms[i].start)
    && (forall i | 0 <= i < |ms| - 1 :: ms[i].end <= ms[i + 1].start)
  }

  /** All matches of the start-marker pattern from `from` on, left to right, as `matches(in:)` finds them. */
  function StartMarkers(t: string, from: nat): (ms: seq<Span>)
    requires from <= |t|
    ensures SpansFrom(t, ms, from)
    decreases |t| - from
  {
    if from == |t| then []
    else match StartMarkerAt(t, from)
      case Some(m) => [m] + StartMarkers(t, m.end)
      case None => StartMarkers(t, from + 1)
  }

  /** The `{…}` text a match captured. */
  function PayloadOf(t: string, m: Span): string
    requires SpanIn(t, m)
  {
    t[m.jsonStart..m.jsonEnd]
  }

  /** The comments whose payloads decode, in the order of their markers. */
  function Decoded(t: string, ms: seq<Span>): (cs: seq<Comment>)
    requires forall i | 0 <= i < |ms| :: SpanIn(t, ms[i])
    ensures |cs| <= |ms|
  {
    if ms == [] then []
    else
      Decoded(t, ms[..|ms| - 1])
      + match Decode(PayloadOf(t, ms[|ms| - 1])) case Some(c) => [c] case None => []
  }

  /** One more marker adds its comment, when its payload decodes. */
  lemma DecodedStep(t: string, ms: seq<Span>, i: nat)
    requires i < |ms| && forall j | 0 <= j < |ms| :: SpanIn(t, ms[j])
    ensures Decoded(t, ms[..i + 1])
            == Decoded(t, ms[..i]) + match Decode(PayloadOf(t, ms[i])) case Some(c) => [c] case None => []
  {
    assert ms[..i + 1][..i] == ms[..i];
  }

  function DecodedComments(t: string): seq<Comment> {
    Decoded(t, StartMarkers(t, 0))
  }

  // ---------------------------------------------------------------------------------
  // parseComments

  function Key(c: Comment): int { NumericID(c.id) }

  /** Ordered by `key`, ascending. */
  predicate SortedBy(cs: seq<Comment>, key: Comment -> int) {
    forall i, j | 0 <= i < j < |cs| :: key(cs[i]) <= key(cs[j])
  }

  /** Places `c` before the first element whose key is not smaller. */
  function InsertBy(c: Comment, cs: seq<Comment>, key: Comment -> int): (r: seq<Comment>)
    ensures |r| == |cs| + 1
  {
    if cs == [] then [c]
    else if key(c) <= key(cs[0]) then [c] + cs
    else [cs[0]] + InsertBy(c, cs[1..], key)
  }

  /** A stable insertion sort: elements with equal keys keep their order. */
  function SortBy(cs: seq<Comment>, key: Comment -> int): (r: seq<Comment>)
    ensures |r| == |cs|
  {
    if cs == [] then [] else InsertBy(cs[0], SortBy(cs[1..], key), key)
  }

  lemma {:induction false} InsertBySorted(c: Comment, cs: seq<Comment>, key: Comment -> int)
    requires SortedBy(cs, key)
    ensures SortedBy(InsertBy(c, cs, key), key)
    ensures multiset(InsertBy(c, cs, key)) == multiset(cs) + multiset{c}
    decreases |cs|
  {
    if cs == [] {
    } else if key(c) <= key(cs[0]) {
      assert InsertBy(c, cs, key) == [c] + cs;
      SortedFront(c, cs, key);
    } else {
      var tail := cs[1..];
      assert InsertBy(c, cs, key) == [cs[0]] + InsertBy(c, tail, key);
      assert cs == [cs[0]] + tail;
      SortedTail(cs[0], tail, key);
      InsertBySorted(c, tail, key);
      SortedAfterHead(cs[0], c, tail, InsertBy(c, tail, key), key);
    }
  }

  /** An element no larger than the first of a sorted sequence goes in front. */
  lemma SortedFront(c: Comment, cs: seq<Comment>, key: Comment -> int)
    requires SortedBy(cs, key) && cs != [] && key(c) <= key(cs[0])
    ensures SortedBy([c] + cs, key) && multiset([c] + cs) == multiset(cs) + multiset{c}
  {
    forall j | 0 <= j < |cs| ensures key(c) <= key(cs[j]) {
      if j > 0 { assert key(cs[0]) <= key(cs[j]); }
    }
    ConsSorted(c, cs, key);
  }

  lemma SortedTail(h: Comment, tail: seq<Comment>, key: Comment -> int)
    requires SortedBy([h] + tail, key)
    ensures SortedBy(tail, key) && forall j | 0 <= j < |tail| :: key(h) <= key(tail[j])
  {
    var cs := [h] + tail;
    forall i, j | 0 <= i < j < |tail| ensures key(tail[i]) <= key(tail[j]) {
      assert tail[i] == cs[i + 1] && tail[j] == cs[j + 1];
    }
    forall j | 0 <= j < |tail| ensures key(h) <= key(tail[j]) {
      assert cs[0] == h && tail[j] == cs[j + 1];
      assert key(cs[0]) <= key(cs[j + 1]);
    }
  }

  /** The head stays in front of the tail with `c` inserted into it. */
  lemma SortedAfterHead(h: Comment, c: Comment, tail: seq<Comment>, rest: seq<Comment>, key: Comment -> int)
    requires key(h) <= key(c) && forall j | 0 <= j < |tail| :: key(h) <= key(tail[j])
    requires SortedBy(rest, key) && multiset(rest) == multiset(tail) + multiset{c}
    ensures SortedBy([h] + rest, key) && multiset([h] + rest) == multiset([h] + tail) + multiset{c}
  {
    BoundedBelow(h, c, tail, rest, key);
    ConsSorted(h, rest, key);
    assert multiset([h] + rest) == multiset{h} + multiset(rest);
    assert multiset([h] + tail) == multiset{h} + multiset(tail);
  }

  /** Every element of a permutation of `cs` and `c` is at least `x` when they all are. */
  lemma BoundedBelow(x: Comment, c: Comment, cs: seq<Comment>, rest: seq<Comment>, key: Comment -> int)
    requires multiset(rest) == multiset(cs) + multiset{c}
    requires key(x) <= key(c) && forall j | 0 <= j < |cs| :: key(x) <= key(cs[j])
    ensures forall j | 0 <= j < |rest| :: key(x) <= key(rest[j])
  {
    forall j | 0 <= j < |rest| ensures key(x) <= key(rest[j]) {
      assert rest[j] in multiset(rest);
      if rest[j] != c {
        assert rest[j] in multiset(cs);
        var k :| 0 <= k < |cs| && cs[k] == rest[j];
      }
    }
  }

  lemma ConsSorted(x: Comment, rest: seq<Comment>, key: Comment -> int)
    requires SortedBy(rest, key) && forall j | 0 <= j < |rest| :: key(x) <= key(rest[j])
    ensures SortedBy([x] + rest, key)
  {
    var r := [x] + rest;
    forall i, j | 0 <= i < j < |r| ensures key(r[i]) <= key(r[j]) {
      assert r[j] == rest[j - 1];
      if i > 0 { assert r[i] == rest[i - 1]; }
    }
  }

  /** The sort orders by the key and keeps every element. */
  lemma {:induction false} SortBySorted(cs: seq<Comment>, key: Comment -> int)
    ensures SortedBy(SortBy(cs, key), key)
    ensures multiset(SortBy(cs, key)) == multiset(cs)
    decreases |cs|
  {
    if cs != [] {
      SortBySorted(cs[1..], key);
      InsertBySorted(cs[0], SortBy(cs[1..], key), key);
      assert cs == [cs[0]] + cs[1..];
    }
  }

  /**
   * `parseComments`: every start marker whose payload decodes, sorted by numeric id; markers
   * that do not decode are skipped.
   */
  method ParseComments(markdown: string) returns (comments: seq<Comment>)
    ensures comments == SortBy(DecodedComments(markdown), Key)
    ensures SortedBy(comments, Key) && multiset(comments) == multiset(DecodedComments(markdown))
  {
    var matches := StartMarkers(markdown, 0);
    var found: seq<Comment> := [];
    var i := 0;
    while i < |matches|
      invariant 0 <= i <= |matches|
      invariant found == Decoded(markdown, matches[..i])
    {
      var json := markdown[matches[i].jsonStart..matches[i].jsonEnd];
      var decoded := Decode(json);
      if decoded.Some? {
        found := found + [decoded.value];
      }
      DecodedStep(markdown, matches, i);
      i := i + 1;
    }
    assert matches[..i] == matches;
    comments := SortBy(found, Key);
    SortBySorted(found, Key);
  }

  // ---------------------------------------------------------------------------------
  // nextCommentID

  /** `comments.map(\.numericID).max() ?? 0`. */
  function MaxNumericID(cs: seq<Comment>): (m: int)
    ensures forall i | 0 <= i < |cs| :: Key(cs[i]) <= m
    ensures cs == [] ==> m == 0
    ensures cs != [] ==> exists i | 0 <= i < |cs| :: Key(cs[i]) == m
  {
    if cs == [] then 0
    else if |cs| == 1 then Key(cs[0])
    else
      var rest := MaxNumericID(cs[1..]);
      assert forall i | 1 <= i < |cs| :: Key(cs[i]) <= rest by {
        forall i | 1 <= i < |cs| ensures Key(cs[i]) <= rest { assert cs[i] == cs[1..][i - 1]; }
      }
      if Key(cs[0]) >= rest then Key(cs[0]) else rest
  }

  /** The largest numeric id does not depend on the order of the comments. */
  lemma MaxNumericIDPermutation(a: seq<Comment>, b: seq<Comment>)
    requires multiset(a) == multiset(b)
    ensures MaxNumericID(a) == MaxNumericID(b)
  {
    if a == [] {
      assert |b| == |multiset(b)| == 0;
    } else {
      assert b != [] by { assert a[0] in multiset(b); }
      MaxAttainedIn(a, b);
      MaxAttainedIn(b, a);
    }
  }

  /** The largest id of `a` is reached by some comment of `b` when `b` holds `a`'s comments. */
  lemma MaxAttainedIn(a: seq<Comment>, b: seq<Comment>)
    requires a != [] && multiset(a) <= multiset(b)
    ensures MaxNumericID(a) <= MaxNumericID(b)
  {
    var i :| 0 <= i < |a| && Key(a[i]) == MaxNumericID(a);
    assert a[i] in multiset(b);
    var j :| 0 <= j < |b| && b[j] == a[i];
  }

  /**
   * `nextCommentID`: "COM-" and one more than the largest numeric id. The increment traps in
   * the source when the largest id is the 64-bit maximum, so that is excluded here.
   */
  function NextCommentID(comments: seq<Comment>): (id: string)
    requires forall i | 0 <= i < |comments| :: Key(comments[i]) < Int64Max
    ensures NumericID(id) == MaxNumericID(comments) + 1
    ensures forall i | 0 <= i < |comments| :: Key(comments[i]) < NumericID(id)
    ensures NumericID(id) >= 1
    ensures |id| > 4 && id[..4] == "COM-" && forall k | 4 <= k < |id| :: id[k] == '-' || IsDigit(id[k])
  {
    NextCommentIDFacts(comments);
    "COM-" + Decimal(MaxNumericID(comments) + 1)
  }

  /** The facts `NextCommentID` promises, about the id it builds. */
  lemma NextCommentIDFacts(comments: seq<Comment>)
    requires forall i | 0 <= i < |comments| :: Key(comments[i]) < Int64Max
    ensures 0 <= MaxNumericID(comments) < Int64Max
    ensures var id := "COM-" + Decimal(MaxNumericID(comments) + 1);
      && NumericID(id) == MaxNumericID(comments) + 1
      && |id| > 4 && id[..4] == "COM-" && forall k | 4 <= k < |id| :: IsDigit(id[k])
  {
    var m := MaxNumericID(comments);
    MaxBelowInt64Max(comments);
    CommentIDShape(m + 1);
  }

  /** The largest id is below Int64.max when every id is. */
  lemma MaxBelowInt64Max(comments: seq<Comment>)
    requires forall i | 0 <= i < |comments| :: Key(comments[i]) < Int64Max
    ensures 0 <= MaxNumericID(comments) < Int64Max
  {
    if comments != [] {
      var i :| 0 <= i < |comments| && Key(comments[i]) == MaxNumericID(comments);
    }
  }

  /** "COM-<n>" reads back as n and is "COM-" followed by decimal digits. */
  lemma CommentIDShape(n: int)
    requires 1 <= n <= Int64Max
    ensures NumericID("COM-" + Decimal(n)) == n
    ensures |"COM-" + Decimal(n)| > 4 && ("COM-" + Decimal(n))[..4] == "COM-"
    ensures forall k | 4 <= k < |"COM-" + Decimal(n)| :: IsDigit(("COM-" + Decimal(n))[k])
  {
    NumericIDOfCommentID(n);
    var d := Decimal(n);
    var id := "COM-" + d;
    assert d == Digits(n);
    assert forall k | 4 <= k < |id| :: id[k] == d[k - 4];
  }

  // ---------------------------------------------------------------------------------
  // ensureCommentHeader

  /** `(markdown, insertedBytes, insertionOffset)`. */
  datatype HeaderResult = HeaderResult(markdown: string, insertedBytes: int, insertionOffset: int)

  /**
   * `ensureCommentHeader`: a no-op when the header prefix already occurs or the offset is not
   * a position in the text; otherwise the header and a blank line are inserted at the offset
   * and their byte count reported.
   */
  function EnsureCommentHeader(markdown: string, insertionOffset: int): (r: HeaderResult)
    ensures r.insertionOffset == insertionOffset
  {
    if Contains(markdown, HeaderPrefix) then HeaderResult(markdown, 0, insertionOffset)
    else match Utf8.IndexForUtf8Offset(markdown, insertionOffset)
      case None => HeaderResult(markdown, 0, insertionOffset)
      case Some(i) => HeaderResult(markdown[..i] + Header + markdown[i..], Utf8.Utf8Len(Header), insertionOffset)
  }

  /**
   * The reported byte count is what the text grew by: nothing when the prefix is already
   * there or the offset is not a character position, else the header at that position.
   */
  lemma EnsureCommentHeaderInserts(markdown: string, insertionOffset: int)
    ensures var r := EnsureCommentHeader(markdown, insertionOffset);
      && r.insertedBytes == Utf8.Utf8Len(r.markdown) - Utf8.Utf8Len(markdown)
      && (Contains(markdown, HeaderPrefix) ==> r.markdown == markdown && r.insertedBytes == 0)
      && (!Contains(markdown, HeaderPrefix) ==>
            match Utf8.IndexForUtf8Offset(markdown, insertionOffset)
            case None => r.markdown == markdown && r.insertedBytes == 0
            case Some(i) => r.markdown == markdown[..i] + Header + markdown[i..]
                            && r.insertedBytes == Utf8.Utf8Len(Header) > 0)
  {
    if !Contains(markdown, HeaderPrefix) && Utf8.IndexForUtf8Offset(markdown, insertionOffset).Some? {
      var i := Utf8.IndexForUtf8Offset(markdown, insertionOffset).value;
      assert markdown == markdown[..i] + markdown[i..];
      Utf8.Utf8LenAppend(markdown[..i], markdown[i..]);
      Utf8.Utf8LenAppend(markdown[..i] + Header, markdown[i..]);
      Utf8.Utf8LenAppend(markdown[..i], Header);
    }
  }

  /**
   * The same facts in the form the offset shift of `addComment` uses: the text is `h`
   * spliced in at position `i`, and `h` is empty unless it went in at the offset.
   */
  lemma EnsureCommentHeaderSplices(markdown: string, insertionOffset: int) returns (i: nat, h: string)
    ensures var r := EnsureCommentHeader(markdown, insertionOffset);
      && i <= |markdown| && r.markdown == markdown[..i] + h + markdown[i..]
      && r.insertedBytes == Utf8.Utf8Len(h)
      && (h == [] <==> r.insertedBytes == 0)
      && (h != [] ==> h == Header && Utf8.Utf8Len(markdown[..i]) == insertionOffset)
  {
    if Contains(markdown, HeaderPrefix) || Utf8.IndexForUtf8Offset(markdown, insertionOffset).None? {
      i, h := 0, [];
      assert markdown[..0] + [] + markdown[0..] == markdown;
    } else {
      i := Utf8.IndexForUtf8Offset(markdown, insertionOffset).value;
      h := Header;
      assert Utf8.Utf8Len(h) > 0 by { assert h[0] == '<'; }
    }
  }

  /** The header starts with the prefix that `ensureCommentHeader` looks for. */
  lemma HeaderStartsWithPrefix()
    ensures |HeaderPrefix| <= |Header| && Header[..|HeaderPrefix|] == HeaderPrefix
  {
    assert Header == HeaderPrefix + (HeaderNote + "\n\n");
  }

  /** A text that starts `b` occurs in any text with `b` in the middle. */
  lemma {:induction false} ContainsMiddle(a: string, b: string, c: string, sub: string)
    requires |sub| <= |b| && b[..|sub|] == sub
    ensures Contains(a + b + c, sub)
  {
    assert (a + b + c)[|a|..|a| + |sub|] == b[..|sub|];
    assert OccursAt(a + b + c, sub, |a|);
  }

  /** Once the header is in, a second `ensureCommentHeader` changes nothing. */
  lemma {:induction false} HeaderOnce(markdown: string, insertionOffset: int)
    ensures var once := EnsureCommentHeader(markdown, insertionOffset);
      Contains(once.markdown, HeaderPrefix) || once.markdown == markdown
    ensures var once := EnsureCommentHeader(markdown, insertionOffset);
      EnsureCommentHeader(once.markdown, insertionOffset).markdown == once.markdown
  {
    if !Contains(markdown, HeaderPrefix) && Utf8.IndexForUtf8Offset(markdown, insertionOffset).Some? {
      var i := Utf8.IndexForUtf8Offset(markdown, insertionOffset).value;
      HeaderStartsWithPrefix();
      ContainsMiddle(markdown[..i], Header, markdown[i..], HeaderPrefix);
    }
  }

  // ---------------------------------------------------------------------------------
  // insertCommentMarkers

  /** The byte offset `offset` falls on a character boundary of `s`. */
  predicate OnBoundary(s: string, offset: int) {
    exists i | 0 <= i <= |s| :: Utf8.Utf8Len(s[..i]) == offset
  }

  /**
   * `insertCommentMarkers`: the start marker at `startOffset`, the end marker at `endOffset`,
   * the text between them untouched; none when an offset is not a character position of the
   * text or the start lies after the end.
   */
  function InsertCommentMarkers(markdown: string, startOffset: int, endOffset: int, comment: Comment)
    : (r: Option<string>)
    ensures r.Some? <==>
              OnBoundary(markdown, startOffset) && OnBoundary(markdown, endOffset) && startOffset <= endOffset
    ensures r.Some? ==>
              var i := Utf8.IndexForUtf8Offset(markdown, startOffset).value;
              var j := Utf8.IndexForUtf8Offset(markdown, endOffset).value;
              && i <= j
              && Utf8.Utf8Len(markdown[..i]) == startOffset && Utf8.Utf8Len(markdown[..j]) == endOffset
              && r.value == markdown[..i] + StartMarker(Encode(comment)) + markdown[i..j] + EndMarker(comment.id) + markdown[j..]
  {
    match (Utf8.IndexForUtf8Offset(markdown, startOffset), Utf8.IndexForUtf8Offset(markdown, endOffset))
    case (Some(i), Some(j)) =>
      if i <= j then
        assert Utf8.Utf8Len(markdown[..i]) <= Utf8.Utf8Len(markdown[..j]) by {
          if i < j { Utf8.Utf8LenPrefixMonotone(markdown, i, j); }
        }
        Some(markdown[..i] + StartMarker(Encode(comment)) + markdown[i..j] + EndMarker(comment.id) + markdown[j..])
      else
        Utf8.Utf8LenPrefixMonotone(markdown, j, i);
        None
    case _ => None
  }

  // ---------------------------------------------------------------------------------
  // updatingCommentPayload and removingCommentMarkers

  /** The decoded payload of every span, none where it does not decode. */
  function Payloads(t: string, ms: seq<Span>): (ds: seq<Option<Comment>>)
    requires forall i | 0 <= i < |ms| :: SpanIn(t, ms[i])
    ensures |ds| == |ms|
  {
    if ms == [] then [] else Payloads(t, ms[..|ms| - 1]) + [Decode(PayloadOf(t, ms[|ms| - 1]))]
  }

  /** The payload at `i` is what decoding the marker's JSON gives. */
  lemma {:induction false} PayloadAt(t: string, ms: seq<Span>, i: nat)
    requires i < |ms| && forall j | 0 <= j < |ms| :: SpanIn(t, ms[j])
    ensures Payloads(t, ms)[i] == Decode(t[ms[i].jsonStart..ms[i].jsonEnd])
    decreases |ms|
  {
    if i < |ms| - 1 {
      PayloadAt(t, ms[..|ms| - 1], i);
    }
  }

  /** A decoded payload with id `id`. */
  predicate HasID(d: Option<Comment>, id: string) {
    d.Some? && d.value.id == id
  }

  /** The index of the last payload among the first `n` with id `id`. */
  function LastWithID(ds: seq<Option<Comment>>, id: string, n: nat): (r: Option<nat>)
    requires n <= |ds|
    ensures r.Some? ==> r.value < n && HasID(ds[r.value], id)
    ensures r.Some? ==> forall k | r.value < k < n :: !HasID(ds[k], id)
    ensures r.None? ==> forall k | 0 <= k < n :: !HasID(ds[k], id)
  {
    if n == 0 then None
    else if HasID(ds[n - 1], id) then Some(n - 1)
    else LastWithID(ds, id, n - 1)
  }

  /** The text with the span `m` replaced by `replacement`. */
  function Splice(t: string, m: Span, replacement: string): string
    requires SpanIn(t, m)
  {
    t[..m.start] + replacement + t[m.end..]
  }

  /** What `updatingCommentPayload` returns. */
  function UpdatedText(markdown: string, id: string, body: string, now: int): Option<string> {
    var ms := StartMarkers(markdown, 0);
    var ds := Payloads(markdown, ms);
    match LastWithID(ds, id, |ds|)
    case None => None
    case Some(k) =>
      var existing := ds[k].value;
      var updated := Comment(existing.id, existing.created, now, body);
      Some(Splice(markdown, ms[k], StartMarker(Encode(updated))))
  }

  /**
   * `updatingCommentPayload`: walks the start markers from the last to the first and rewrites
   * the first one found (the last in the text) whose payload has the id, keeping its id and
   * creation time; none when no marker has the id.
   */
  method UpdatingCommentPayload(markdown: string, id: string, body: string, now: int)
    returns (r: Option<string>)
    ensures r == UpdatedText(markdown, id, body, now)
  {
    var matches := StartMarkers(markdown, 0);
    var payloads := Payloads(markdown, matches);
    var found := FindLastWithID(payloads, id);
    if found.None? {
      return None;
    }
    var m := matches[found.value];
    var existing := payloads[found.value];
    var updated := Comment(existing.value.id, existing.value.created, now, body);
    var replacement := StartMarker(Encode(updated));
    r := Some(markdown[..m.start] + replacement + markdown[m.end..]);
  }

  /**
   * The backward walk of `updatingCommentPayload` and `removingCommentMarkers`: from the last
   * decoded payload to the first, the first that has the id.
   */
  method FindLastWithID(ds: seq<Option<Comment>>, id: string) returns (found: Option<nat>)
    ensures found == LastWithID(ds, id, |ds|)
  {
    var i := |ds|;
    while i > 0
      invariant 0 <= i <= |ds|
      invariant LastWithID(ds, id, i) == LastWithID(ds, id, |ds|)
    {
      i := i - 1;
      if HasID(ds[i], id) {
        return Some(i);
      }
    }
    return None;
  }

  // The end-marker pattern `<!--\s*MV-COMMENT-END\s+<id>\s*-->`, the id matched literally.

  /** The id at `k`, then optional `\s`, then `-->`: the end of the match. */
  function IdThenClose(t: string, k: nat, id: string): (r: Option<nat>)
    requires k <= |t|
    ensures r.Some? ==> k < r.value <= |t|
  {
    if id <= t[k..] then
      var e := SkipSpaces(t, k + |id|);
      if "-->" <= t[e..] then Some(e + 3) else None
    else None
  }

  /** The greedy `\s+` backing off: the id is tried after the longest run first. */
  function IdAfterSpaces(t: string, lo: nat, k: nat, id: string): (r: Option<nat>)
    requires lo < k <= |t|
    ensures r.Some? ==> k < r.value <= |t|
    decreases k
  {
    match IdThenClose(t, k, id)
    case Some(e) => Some(e)
    case None =>
      if k - 1 > lo then
        match IdAfterSpaces(t, lo, k - 1, id)
        case Some(e) => if e > k then Some(e) else None
        case None => None
      else None
  }

  /** The end-marker pattern tried at position `p`: the end of the match. */
  function EndMarkerAt(t: string, p: nat, id: string): (r: Option<nat>)
    requires p <= |t|
    ensures r.Some? ==> p < r.value <= |t|
  {
    if !("<!--" <= t[p..]) then None
    else
      var q := SkipSpaces(t, p + 4);
      if !("MV-COMMENT-END" <= t[q..]) then None
      else
        var w := SkipSpaces(t, q + 14);
        if w == q + 14 then None else IdAfterSpaces(t, q + 14, w, id)
  }

  /** `stringByReplacingMatches(…, withTemplate: "")` with the end-marker pattern, from `from` on. */
  function StripEndMarkers(t: string, id: string, from: nat): string
    requires from <= |t|
    decreases |t| - from
  {
    if from == |t| then []
    else match EndMarkerAt(t, from, id)
      case Some(e) => StripEndMarkers(t, id, e)
      case None => [t[from]] + StripEndMarkers(t, id, from + 1)
  }

  /** What `removingCommentMarkers` returns. */
  function RemovedText(markdown: string, id: string): Option<string> {
    var ms := StartMarkers(markdown, 0);
    var ds := Payloads(markdown, ms);
    match LastWithID(ds, id, |ds|)
    case None => None
    case Some(k) =>
      var without := markdown[..ms[k].start] + markdown[ms[k].end..];
      Some(StripEndMarkers(without, id, 0))
  }

  /**
   * `removingCommentMarkers`: deletes the last start marker whose payload has the id, then
   * every end marker with the id; none when no start marker has the id, even if end
   * markers do.
   */
  method RemovingCommentMarkers(markdown: string, id: string) returns (r: Option<string>)
    ensures r == RemovedText(markdown, id)
  {
    var matches := StartMarkers(markdown, 0);
    var found := FindLastWithID(Payloads(markdown, matches), id);
    if found.None? {
      return None;
    }
    var m := matches[found.value];
    var current := markdown[..m.start] + markdown[m.end..];
    r := Some(StripEndMarkers(current, id, 0));
  }
}
