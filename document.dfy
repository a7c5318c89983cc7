/**
 * The glue of `DocumentState` that is plain logic: where `addComment` puts a new comment once
 * the comment header is in the text, and the find requests the find bar sends to the page.
 */
module Document {
  import opened Wrappers
  import opened Text
  import Utf8
  import opened CommentCodec
  import opened CommentMarkers
  import CommentAnchoring
  import FrontMatter

  // ---------------------------------------------------------------------------------
  // addComment

  /**
   * A caller's byte offset once `ensureCommentHeader` has run: moved past the inserted bytes
   * when it lies at or after the insertion point.
   */
  function ShiftedOffset(offset: int, header: HeaderResult): int {
    if header.insertedBytes > 0 && offset >= header.insertionOffset then offset + header.insertedBytes
    else offset
  }

  /** A byte offset that some prefix has is the position of that prefix. */
  lemma IndexOfPrefix(s: string, k: nat, offset: int)
    requires k <= |s| && Utf8.Utf8Len(s[..k]) == offset
    ensures Utf8.IndexForUtf8Offset(s, offset) == Some(k)
  {
    var r := Utf8.IndexForUtf8Offset(s, offset);
    var v := r.value;
    if v < k {
      Utf8.Utf8LenPrefixMonotone(s, v, k);
    } else if k < v {
      Utf8.Utf8LenPrefixMonotone(s, k, v);
    }
  }

  /**
   * Text `h` goes in at character `i`; an offset at character `k` at or after it moves to
   * `k + |h|`, where the same text follows.
   */
  lemma {:induction false} ShiftAcross(markdown: string, i: nat, h: string, k: nat, insertionOffset: int, offset: int)
    requires i <= |markdown| && Utf8.Utf8Len(markdown[..i]) == insertionOffset
    requires k <= |markdown| && Utf8.Utf8Len(markdown[..k]) == offset && offset >= insertionOffset
    ensures var updated := markdown[..i] + h + markdown[i..];
      && k >= i
      && Utf8.Utf8Len(updated[..k + |h|]) == offset + Utf8.Utf8Len(h)
      && updated[k + |h|..] == markdown[k..]
  {
    var updated := markdown[..i] + h + markdown[i..];
    if k < i {
      Utf8.Utf8LenPrefixMonotone(markdown, k, i);
    }
    assert updated[..k + |h|] == markdown[..i] + h + markdown[i..k];
    assert markdown[..k] == markdown[..i] + markdown[i..k];
    Utf8.Utf8LenAppend(markdown[..i], markdown[i..k]);
    Utf8.Utf8LenAppend(markdown[..i] + h, markdown[i..k]);
    Utf8.Utf8LenAppend(markdown[..i], h);
    assert updated[k + |h|..] == markdown[k..];
  }

  /**
   * `header` is `markdown` with `h` put in at character `i`: what `ensureCommentHeader`
   * returns, with `h` empty when it changes nothing.
   */
  predicate Spliced(markdown: string, header: HeaderResult, i: nat, h: string) {
    && i <= |markdown| && header.markdown == markdown[..i] + h + markdown[i..]
    && header.insertedBytes == Utf8.Utf8Len(h)
    && (h == [] <==> header.insertedBytes == 0)
    && (h != [] ==> Utf8.Utf8Len(markdown[..i]) == header.insertionOffset)
  }

  /**
   * The offset shift of `addComment` keeps a caller's offset at or after the insertion point
   * on the same character: after the shift it is the position `k + |h|` of the updated text,
   * and the text from there on is what followed `k` before.
   */
  lemma ShiftKeepsPosition(markdown: string, header: HeaderResult, i: nat, h: string, offset: int, k: nat)
    requires Spliced(markdown, header, i, h)
    requires k <= |markdown| && Utf8.Utf8Len(markdown[..k]) == offset
    requires header.insertionOffset <= offset
    ensures k + |h| <= |header.markdown|
    ensures Utf8.Utf8Len(header.markdown[..k + |h|]) == ShiftedOffset(offset, header)
    ensures header.markdown[k + |h|..] == markdown[k..]
  {
    if h == [] {
      assert header.markdown == markdown;
    } else {
      ShiftAcross(markdown, i, h, k, header.insertionOffset, offset);
    }
  }

  /** A selection that starts at or after the insertion point covers the same text afterwards. */
  lemma SelectionAfterHeader(markdown: string, header: HeaderResult, i: nat, h: string,
                             ks: nat, ke: nat, startOffset: int, endOffset: int)
    requires Spliced(markdown, header, i, h)
    requires ks <= ke <= |markdown| && header.insertionOffset <= startOffset
    requires Utf8.Utf8Len(markdown[..ks]) == startOffset && Utf8.Utf8Len(markdown[..ke]) == endOffset
    ensures ke + |h| <= |header.markdown|
    ensures Utf8.Utf8Len(header.markdown[..ks + |h|]) == ShiftedOffset(startOffset, header)
    ensures Utf8.Utf8Len(header.markdown[..ke + |h|]) == ShiftedOffset(endOffset, header)
    ensures header.markdown[ks + |h|..ke + |h|] == markdown[ks..ke]
  {
    if ks < ke {
      Utf8.Utf8LenPrefixMonotone(markdown, ks, ke);
    }
    ShiftKeepsPosition(markdown, header, i, h, startOffset, ks);
    ShiftKeepsPosition(markdown, header, i, h, endOffset, ke);
    SliceOfSuffix(header.markdown, markdown, ks + |h|, ks, ke - ks);
  }

  /** Equal suffixes have equal slices at the same distance from where they start. */
  lemma {:induction false} SliceOfSuffix(t: string, m: string, a: nat, b: nat, n: nat)
    requires a <= |t| && b + n <= |m| && t[a..] == m[b..]
    ensures a + n <= |t| && t[a..a + n] == m[b..b + n]
  {
    assert t[a..a + n] == t[a..][..n];
    assert m[b..b + n] == m[b..][..n];
  }

  /**
   * The comment `addComment` creates in a text: an id above every existing one, and the same
   * time for created and updated. None where the source's id increment would overflow.
   */
  function NextComment(text: string, body: string, now: int): (r: Option<Comment>)
    ensures r.None? <==> MaxNumericID(DecodedComments(text)) >= Int64Max
    ensures r.Some? ==> NumericID(r.value.id) == MaxNumericID(DecodedComments(text)) + 1
    ensures r.Some? ==> forall c | c in DecodedComments(text) :: Key(c) < NumericID(r.value.id)
    ensures r.Some? ==> r.value.body == body && r.value.created == now && r.value.updated == now
    ensures r.Some? ==> CommentAnchoring.Anchorable(r.value.id)
  {
    var existing := SortBy(DecodedComments(text), Key);
    if MaxNumericID(existing) >= Int64Max then
      SortBySorted(DecodedComments(text), Key);
      MaxNumericIDPermutation(DecodedComments(text), existing);
      None
    else
      var id := NextCommentID(existing);
      CommentAnchoring.CommentIDAnchorable(id);
      SortBySorted(DecodedComments(text), Key);
      MaxNumericIDPermutation(DecodedComments(text), existing);
      assert forall c | c in DecodedComments(text) :: c in multiset(existing);
      Some(Comment(id, now, now, body))
  }

  /**
   * `addComment` from text to text, with the header going in at `insertionOffset`: none for
   * an empty or reversed range, for an offset that is not a character position, or where
   * the id would overflow; otherwise the text with the header ensured and the new comment's
   * markers around the shifted range.
   */
  function AddedComment(markdown: string, insertionOffset: int, startOffset: int, endOffset: int,
                        body: string, now: int): Option<string>
  {
    if startOffset >= endOffset then None
    else
      var header := EnsureCommentHeader(markdown, insertionOffset);
      match NextComment(header.markdown, body, now)
      case None => None
      case Some(c) =>
        InsertCommentMarkers(header.markdown, ShiftedOffset(startOffset, header), ShiftedOffset(endOffset, header), c)
  }

  /**
   * The selected text ends up between the new comment's start and end markers, untouched,
   * whenever the selection lies after the insertion point (in the body, after the front matter).
   */
  lemma AddedCommentWrapsSelection(markdown: string, insertionOffset: int, startOffset: int, endOffset: int,
                                   body: string, now: int)
    requires insertionOffset <= startOffset < endOffset
    requires Utf8.IndexForUtf8Offset(markdown, startOffset).Some?
    requires Utf8.IndexForUtf8Offset(markdown, endOffset).Some?
    requires NextComment(EnsureCommentHeader(markdown, insertionOffset).markdown, body, now).Some?
    ensures var c := NextComment(EnsureCommentHeader(markdown, insertionOffset).markdown, body, now).value;
      var ks := Utf8.IndexForUtf8Offset(markdown, startOffset).value;
      var ke := Utf8.IndexForUtf8Offset(markdown, endOffset).value;
      var added := AddedComment(markdown, insertionOffset, startOffset, endOffset, body, now);
      && ks <= ke
      && added.Some?
      && Contains(added.value, StartMarker(Encode(c)) + markdown[ks..ke] + EndMarker(c.id))
  {
    var header := EnsureCommentHeader(markdown, insertionOffset);
    var c := NextComment(header.markdown, body, now).value;
    var ks := Utf8.IndexForUtf8Offset(markdown, startOffset).value;
    var ke := Utf8.IndexForUtf8Offset(markdown, endOffset).value;
    if ke < ks {
      Utf8.Utf8LenPrefixMonotone(markdown, ke, ks);
    }
    var i, h := EnsureCommentHeaderSplices(markdown, insertionOffset);
    MarkersAroundSelection(markdown, header, i, h, ks, ke, startOffset, endOffset, c);
    AddedCommentUnfolds(markdown, insertionOffset, startOffset, endOffset, body, now, header, Some(c));
  }

  /** The markers go around the selection's text once the header is in. */
  lemma MarkersAroundSelection(markdown: string, header: HeaderResult, i: nat, h: string,
                               ks: nat, ke: nat, startOffset: int, endOffset: int, c: Comment)
    requires Spliced(markdown, header, i, h)
    requires ks <= ke <= |markdown| && header.insertionOffset <= startOffset
    requires Utf8.Utf8Len(markdown[..ks]) == startOffset && Utf8.Utf8Len(markdown[..ke]) == endOffset
    ensures var r := InsertCommentMarkers(header.markdown, ShiftedOffset(startOffset, header), ShiftedOffset(endOffset, header), c);
      r.Some? && Contains(r.value, StartMarker(Encode(c)) + markdown[ks..ke] + EndMarker(c.id))
  {
    SelectionAfterHeader(markdown, header, i, h, ks, ke, startOffset, endOffset);
    MarkersAround(header.markdown, ShiftedOffset(startOffset, header), ShiftedOffset(endOffset, header),
                  ks + |h|, ke + |h|, c, markdown[ks..ke]);
  }

  lemma AddedCommentUnfolds(markdown: string, insertionOffset: int, startOffset: int, endOffset: int,
                            body: string, now: int, header: HeaderResult, next: Option<Comment>)
    requires startOffset < endOffset && header == EnsureCommentHeader(markdown, insertionOffset)
    requires NextComment(header.markdown, body, now) == next
    ensures next.None? ==> AddedComment(markdown, insertionOffset, startOffset, endOffset, body, now) == None
    ensures next.Some? ==>
              AddedComment(markdown, insertionOffset, startOffset, endOffset, body, now)
              == InsertCommentMarkers(header.markdown, ShiftedOffset(startOffset, header), ShiftedOffset(endOffset, header), next.value)
  {
  }

  /**
   * On a text in which no comment marker begins, `addComment` followed by parsing reads back
   * exactly the new comment, its timestamps at whole seconds.
   */
  lemma {:induction false} AddedCommentParses(markdown: string, insertionOffset: int, startOffset: int, endOffset: int,
                                              body: string, now: int)
    requires CommentAnchoring.MarkerFree(markdown)
    requires AddedComment(markdown, insertionOffset, startOffset, endOffset, body, now).Some?
    ensures var next := NextComment(EnsureCommentHeader(markdown, insertionOffset).markdown, body, now);
      && next.Some?
      && DecodedComments(AddedComment(markdown, insertionOffset, startOffset, endOffset, body, now).value)
         == [Comment(next.value.id, WholeSeconds(now), WholeSeconds(now), body)]
  {
    var header := EnsureCommentHeader(markdown, insertionOffset);
    var c := NextComment(header.markdown, body, now).value;
    AddedCommentUnfolds(markdown, insertionOffset, startOffset, endOffset, body, now, header, Some(c));
    CommentAnchoring.HeaderKeepsMarkerFree(markdown, insertionOffset);
    CommentAnchoring.ParseAfterInsert(header.markdown, ShiftedOffset(startOffset, header), ShiftedOffset(endOffset, header), c);
  }

  /**
   * On a text in which no comment marker begins, removing the comment `addComment` just made
   * gives back the text with the header ensured, and nothing else changed.
   */
  lemma {:induction false} AddedCommentRemoves(markdown: string, insertionOffset: int, startOffset: int, endOffset: int,
                                               body: string, now: int)
    requires CommentAnchoring.MarkerFree(markdown)
    requires AddedComment(markdown, insertionOffset, startOffset, endOffset, body, now).Some?
    ensures var header := EnsureCommentHeader(markdown, insertionOffset);
      var next := NextComment(header.markdown, body, now);
      && next.Some?
      && RemovedText(AddedComment(markdown, insertionOffset, startOffset, endOffset, body, now).value, next.value.id)
         == Some(header.markdown)
  {
    var header := EnsureCommentHeader(markdown, insertionOffset);
    var c := NextComment(header.markdown, body, now).value;
    AddedCommentUnfolds(markdown, insertionOffset, startOffset, endOffset, body, now, header, Some(c));
    CommentAnchoring.HeaderKeepsMarkerFree(markdown, insertionOffset);
    CommentAnchoring.RemoveAfterInsert(header.markdown, ShiftedOffset(startOffset, header), ShiftedOffset(endOffset, header), c);
  }

  /**
   * On a text in which no comment marker begins, updating the comment `addComment` just made
   * is the same as adding the updated comment in its place: same id, same stored creation
   * time, new body and update time, same selection.
   */
  lemma {:induction false} AddedCommentUpdates(markdown: string, insertionOffset: int, startOffset: int, endOffset: int,
                                               body: string, now: int, newBody: string, later: int)
    requires CommentAnchoring.MarkerFree(markdown)
    requires AddedComment(markdown, insertionOffset, startOffset, endOffset, body, now).Some?
    ensures var header := EnsureCommentHeader(markdown, insertionOffset);
      var next := NextComment(header.markdown, body, now);
      && next.Some?
      && UpdatedText(AddedComment(markdown, insertionOffset, startOffset, endOffset, body, now).value,
                     next.value.id, newBody, later)
         == InsertCommentMarkers(header.markdown, ShiftedOffset(startOffset, header), ShiftedOffset(endOffset, header),
                                 Comment(next.value.id, WholeSeconds(now), later, newBody))
  {
    var header := EnsureCommentHeader(markdown, insertionOffset);
    var c := NextComment(header.markdown, body, now).value;
    AddedCommentUnfolds(markdown, insertionOffset, startOffset, endOffset, body, now, header, Some(c));
    CommentAnchoring.HeaderKeepsMarkerFree(markdown, insertionOffset);
    CommentAnchoring.UpdateAfterInsert(header.markdown, ShiftedOffset(startOffset, header), ShiftedOffset(endOffset, header),
                                       c, newBody, later);
  }

  /** Markers inserted at two character positions wrap the text between them. */
  lemma MarkersAround(t: string, startOffset: int, endOffset: int, p: nat, q: nat, c: Comment, selected: string)
    requires p <= q <= |t| && t[p..q] == selected
    requires Utf8.Utf8Len(t[..p]) == startOffset && Utf8.Utf8Len(t[..q]) == endOffset
    ensures var r := InsertCommentMarkers(t, startOffset, endOffset, c);
      r.Some? && Contains(r.value, StartMarker(Encode(c)) + selected + EndMarker(c.id))
  {
    IndexOfPrefix(t, p, startOffset);
    IndexOfPrefix(t, q, endOffset);
    if p < q {
      Utf8.Utf8LenPrefixMonotone(t, p, q);
    }
    assert OnBoundary(t, startOffset) && OnBoundary(t, endOffset);
    var open, close := StartMarker(Encode(c)), EndMarker(c.id);
    var r := InsertCommentMarkers(t, startOffset, endOffset, c).value;
    assert r == t[..p] + open + t[p..q] + close + t[q..];
    Regroup(t[..p], open, t[p..q], close, t[q..]);
    ContainsMiddleOf(t[..p], open + t[p..q] + close, t[q..]);
  }

  lemma Regroup(a: string, b: string, c: string, d: string, e: string)
    ensures a + b + c + d + e == a + (b + c + d) + e
  {
  }

  lemma {:induction false} ContainsMiddleOf(a: string, b: string, c: string)
    ensures Contains(a + b + c, b)
  {
    assert (a + b + c)[|a|..|a| + |b|] == b;
    assert OccursAt(a + b + c, b, |a|);
  }

  /**
   * `addComment` without the disk round trip: the front matter, the header, the offset shift,
   * the existing comments, the next id, then the markers.
   */
  method AddComment(markdown: string, startOffset: int, endOffset: int, body: string, now: int)
    returns (updated: Option<string>)
    ensures updated ==
      AddedComment(markdown, FrontMatter.FrontMatterOf(markdown).frontMatterEndOffset, startOffset, endOffset, body, now)
  {
    if startOffset >= endOffset {
      return None;
    }
    var info := FrontMatter.ParseFrontMatter(markdown);
    var header := EnsureCommentHeader(markdown, info.frontMatterEndOffset);
    var adjustedStart := startOffset;
    var adjustedEnd := endOffset;
    if header.insertedBytes > 0 {
      if startOffset >= header.insertionOffset {
        adjustedStart := adjustedStart + header.insertedBytes;
      }
      if endOffset >= header.insertionOffset {
        adjustedEnd := adjustedEnd + header.insertedBytes;
      }
    }
    assert adjustedStart == ShiftedOffset(startOffset, header) && adjustedEnd == ShiftedOffset(endOffset, header);
    var next := NewComment(header.markdown, body, now);
    if next.None? {
      updated := None;
    } else {
      updated := InsertCommentMarkers(header.markdown, adjustedStart, adjustedEnd, next.value);
    }
    AddedCommentUnfolds(markdown, info.frontMatterEndOffset, startOffset, endOffset, body, now, header, next);
  }

  /** The comment `addComment` creates from the comments already in `text`, none on overflow. */
  method NewComment(text: string, body: string, now: int) returns (next: Option<Comment>)
    ensures next == NextComment(text, body, now)
  {
    var existing := ParseComments(text);
    if MaxNumericID(existing) >= Int64Max {
      return None;
    }
    next := Some(Comment(NextCommentID(existing), now, now, body));
  }

  // ---------------------------------------------------------------------------------
  // The find bar

  datatype FindDirection = Forward | Backward

  /** What the page is asked to search; `token` stands for the fresh `UUID` of each request. */
  datatype FindRequest = FindRequest(query: string, direction: FindDirection, token: nat, reset: bool)

  /** The request that clears the highlights. */
  function ClearRequest(token: nat): FindRequest {
    FindRequest("", Forward, token, true)
  }

  /** What `requestFind` sends: the trimmed query, or the clearing request for a blank one. */
  function RequestFor(findQuery: string, direction: FindDirection, reset: bool, token: nat): (r: FindRequest)
    ensures r.query == Trim(findQuery, WhitespacesAndNewlines) && r.token == token
    ensures r.query == [] ==> r == ClearRequest(token)
    ensures r.query != [] ==> r.direction == direction && r.reset == reset
  {
    var trimmed := Trim(findQuery, WhitespacesAndNewlines);
    if trimmed == [] then ClearRequest(token) else FindRequest(trimmed, direction, token, reset)
  }

  /** A query clears the highlights exactly when all of it is whitespace. */
  lemma BlankQueryClears(findQuery: string, direction: FindDirection, reset: bool, token: nat)
    ensures RequestFor(findQuery, direction, reset, token) == ClearRequest(token)
            <==> forall i | 0 <= i < |findQuery| :: IsBlank(WhitespacesAndNewlines, findQuery[i])
  {
    TrimEmpty(findQuery, WhitespacesAndNewlines);
  }

  /**
   * The find-bar part of `DocumentState`. Fresh `UUID`s are drawn from a counter: every token
   * handed out is below `issued`.
   */
  class DocumentState {
    var isShowingFindBar: bool
    var findQuery: string
    var findRequest: Option<FindRequest>
    var findFocusToken: nat
    var issued: nat

    predicate Valid()
      reads this
    {
      && findFocusToken < issued
      && (findRequest.Some? ==> findRequest.value.token < issued)
    }

    constructor ()
      ensures Valid() && !isShowingFindBar && findQuery == [] && findRequest.None?
    {
      isShowingFindBar := false;
      findQuery := [];
      findRequest := None;
      findFocusToken := 0;
      issued := 1;
    }

    /** `UUID()`: a token never handed out before. */
    method NewToken() returns (token: nat)
      modifies this
      ensures token == old(issued) && issued == old(issued) + 1
      ensures isShowingFindBar == old(isShowingFindBar) && findQuery == old(findQuery)
      ensures findRequest == old(findRequest) && findFocusToken == old(findFocusToken)
    {
      token := issued;
      issued := issued + 1;
    }

    /** `requestFind(direction:reset:)`. */
    method RequestFind(direction: FindDirection, reset: bool)
      requires Valid()
      modifies this
      ensures Valid() && issued == old(issued) + 1
      ensures findRequest == Some(RequestFor(findQuery, direction, reset, old(issued)))
      ensures isShowingFindBar == old(isShowingFindBar) && findQuery == old(findQuery)
      ensures findFocusToken == old(findFocusToken)
    {
      var trimmed := Trim(findQuery, WhitespacesAndNewlines);
      var token := NewToken();
      if trimmed == [] {
        findRequest := Some(FindRequest("", Forward, token, true));
        return;
      }
      findRequest := Some(FindRequest(trimmed, direction, token, reset));
    }

    /** `showFindBar()`: a new focus token, and a fresh search only if the bar was hidden. */
    method ShowFindBar()
      requires Valid()
      modifies this
      ensures Valid() && isShowingFindBar && findQuery == old(findQuery)
      ensures findFocusToken == old(issued) && findFocusToken != old(findFocusToken)
      ensures old(isShowingFindBar) ==> findRequest == old(findRequest) && issued == old(issued) + 1
      ensures !old(isShowingFindBar) ==>
                findRequest == Some(RequestFor(findQuery, Forward, true, old(issued) + 1))
                && issued == old(issued) + 2
    {
      var wasShowing := isShowingFindBar;
      isShowingFindBar := true;
      findFocusToken := NewToken();
      if !wasShowing {
        UpdateFindResults();
      }
    }

    /** `hideFindBar()`: hidden, and a new request that clears the highlights. */
    method HideFindBar()
      requires Valid()
      modifies this
      ensures Valid() && !isShowingFindBar && findQuery == old(findQuery)
      ensures findRequest == Some(ClearRequest(old(issued))) && issued == old(issued) + 1
      ensures old(findRequest).Some? ==> findRequest.value.token != old(findRequest).value.token
      ensures findFocusToken == old(findFocusToken)
    {
      isShowingFindBar := false;
      ClearFindHighlights();
    }

    /** `updateFindResults()`: search forward from the start. */
    method UpdateFindResults()
      requires Valid()
      modifies this
      ensures Valid() && issued == old(issued) + 1
      ensures findRequest == Some(RequestFor(findQuery, Forward, true, old(issued)))
      ensures isShowingFindBar == old(isShowingFindBar) && findQuery == old(findQuery)
      ensures findFocusToken == old(findFocusToken)
    {
      RequestFind(Forward, true);
    }

    /** `findNext()`: the next match forward. */
    method FindNext()
      requires Valid()
      modifies this
      ensures Valid() && issued == old(issued) + 1
      ensures findRequest == Some(RequestFor(findQuery, Forward, false, old(issued)))
      ensures isShowingFindBar == old(isShowingFindBar) && findQuery == old(findQuery)
      ensures findFocusToken == old(findFocusToken)
    {
      RequestFind(Forward, false);
    }

    /** `findPrevious()`: the previous match. */
    method FindPrevious()
      requires Valid()
      modifies this
      ensures Valid() && issued == old(issued) + 1
      ensures findRequest == Some(RequestFor(findQuery, Backward, false, old(issued)))
      ensures isShowingFindBar == old(isShowingFindBar) && findQuery == old(findQuery)
      ensures findFocusToken == old(findFocusToken)
    {
      RequestFind(Backward, false);
    }

    /** `clearFindHighlights()`. */
    method ClearFindHighlights()
      requires Valid()
      modifies this
      ensures Valid() && issued == old(issued) + 1
      ensures findRequest == Some(ClearRequest(old(issued)))
      ensures isShowingFindBar == old(isShowingFindBar) && findQuery == old(findQuery)
      ensures findFocusToken == old(findFocusToken)
    {
      var token := NewToken();
      findRequest := Some(FindRequest("", Forward, token, true));
    }
  }
}
