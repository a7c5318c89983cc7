/**
 * What the comment engine promises about a comment it has just anchored: the scanner finds
 * exactly its start marker, parsing reads the comment back, updating rewrites only its
 * payload, and removing it restores the text it was inserted into.
 */
module CommentAnchoring {
  import opened Wrappers
  import opened Text
  import Utf8
  import opened CommentCodec
  import opened CommentMarkers

  /** Text without `<`: no marker can begin inside it. */
  predicate Plain(t: string) {
    '<' !in t
  }

  /**
   * An id that the end-marker pattern finds literally after its single space, and that cannot
   * close the payload object early or begin a marker.
   */
  predicate Anchorable(id: string) {
    id != [] && !IsRegexSpace(id[0]) && '<' !in id && '}' !in id
  }

  /** A payload text that is one object: `{`, no `}` inside, `}`. */
  predicate ObjectText(json: string) {
    |json| >= 2 && json[0] == '{' && json[|json| - 1] == '}' && '}' !in json[1..|json| - 1]
  }

  /** The text with a start marker around `json` at `i` and an end marker for `id` at `j`. */
  function Anchored(t: string, i: nat, j: nat, json: string, id: string): (r: string)
    requires i <= j <= |t|
    ensures |r| == |t| + |StartMarker(json)| + |EndMarker(id)|
  {
    t[..i] + StartMarker(json) + t[i..j] + EndMarker(id) + t[j..]
  }

  /** The span the scanner reports for a start marker around `json` written at `p`. */
  function MarkerSpan(p: nat, json: string): Span {
    Span(p, p + 26 + |json|, p + 22, p + 22 + |json|)
  }


  // ---------------------------------------------------------------------------------
  // Text in which no marker can begin

  /** What both marker patterns require after `<!--` and its optional `\s`. */
  function MarkerWord(): string { "MV-COMMENT-" }

  /** A marker of either kind can begin at `p`: `<!--`, optional `\s`, then `MV-COMMENT-`. */
  predicate MarkerOpens(t: string, p: nat)
    requires p <= |t|
  {
    "<!--" <= t[p..] && MarkerWord() <= t[SkipSpaces(t, p + 4)..]
  }

  /**
   * No marker of either kind can begin anywhere in `t`. Other HTML comments, the comment
   * header and any other use of `<` are allowed.
   */
  predicate MarkerFree(t: string) {
    forall p | 0 <= p <= |t| :: !MarkerOpens(t, p)
  }

  /** No marker can begin at a position from `lo` up to `hi`. */
  predicate ClearBetween(t: string, lo: nat, hi: nat)
    requires lo <= hi <= |t|
  {
    forall p | lo <= p < hi :: !MarkerOpens(t, p)
  }

  /** Where the `MV-COMMENT-` of a marker that begins at `p` ends. */
  function OpenEnd(t: string, p: nat): nat
    requires p <= |t| && MarkerOpens(t, p)
  {
    SkipSpaces(t, p + 4) + |MarkerWord()|
  }

  /** A match of either pattern begins as `MarkerOpens` says. */
  lemma MatchOpens(t: string, p: nat, id: string)
    requires p <= |t|
    ensures StartMarkerAt(t, p).Some? ==> MarkerOpens(t, p)
    ensures EndMarkerAt(t, p, id).Some? ==> MarkerOpens(t, p)
  {
    if "<!--" <= t[p..] {
      var q := SkipSpaces(t, p + 4);
      if "MV-COMMENT-START" <= t[q..] {
        assert t[q..][..11] == "MV-COMMENT-START"[..11];
      }
      if "MV-COMMENT-END" <= t[q..] {
        assert t[q..][..11] == "MV-COMMENT-END"[..11];
      }
    }
  }

  /** The characters a marker start consists of. */
  lemma OpensChars(t: string, p: nat)
    requires p <= |t| && MarkerOpens(t, p)
    ensures var q := SkipSpaces(t, p + 4);
            && q + 11 <= |t| && t[p..p + 4] == "<!--" && t[q..q + 11] == MarkerWord()
  {
    var q := SkipSpaces(t, p + 4);
    assert t[p..][..4] == t[p..p + 4];
    assert t[q..][..11] == t[q..q + 11];
  }

  /** Those characters make a marker start. */
  lemma OpensFromChars(t: string, p: nat, q: nat)
    requires p + 4 <= q && q + 11 <= |t| && t[p..p + 4] == "<!--" && t[q..q + 11] == MarkerWord()
    requires forall k | p + 4 <= k < q :: IsRegexSpace(t[k])
    ensures MarkerOpens(t, p)
  {
    assert t[q] == MarkerWord()[0];
    SkipSpacesIs(t, p + 4, q);
    assert t[p..][..4] == t[p..p + 4];
    assert t[q..][..11] == t[q..q + 11];
  }

  /** Past its `<`, the start of a marker holds no other `<`. */
  lemma OpensSpan(t: string, p: nat)
    requires p <= |t| && MarkerOpens(t, p)
    ensures OpenEnd(t, p) <= |t| && t[p] == '<'
    ensures forall k | p < k < OpenEnd(t, p) :: t[k] != '<'
  {
    var q := SkipSpaces(t, p + 4);
    OpensChars(t, p);
    forall k | p < k < OpenEnd(t, p) ensures t[k] != '<' {
      if k < p + 4 {
        assert t[k] == t[p..p + 4][k - p];
      } else if k >= q {
        assert t[k] == t[q..q + 11][k - q];
      }
    }
    assert t[p] == t[p..p + 4][0];
  }

  /** The same characters elsewhere begin a marker too. */
  lemma OpensCarry(a: string, p: nat, b: string, p2: nat)
    requires p <= |a| && MarkerOpens(a, p)
    requires OpenEnd(a, p) <= |a| && p2 + (OpenEnd(a, p) - p) <= |b|
    requires b[p2..p2 + (OpenEnd(a, p) - p)] == a[p..OpenEnd(a, p)]
    ensures MarkerOpens(b, p2)
  {
    var q := SkipSpaces(a, p + 4);
    var o := OpenEnd(a, p);
    var q2 := p2 + (q - p);
    OpensChars(a, p);
    CopiedChars(a, p, o, b, p2);
    assert b[p2..p2 + 4] == a[p..p + 4];
    assert b[q2..q2 + 11] == a[q..q + 11];
    forall k | p2 + 4 <= k < q2 ensures IsRegexSpace(b[k]) {
      assert b[k] == a[p + (k - p2)];
    }
    OpensFromChars(b, p2, q2);
  }

  /** Character by character, a copy of `a[lo..hi]` placed at `x` in `b`. */
  lemma CopiedChars(a: string, lo: nat, hi: nat, b: string, x: nat)
    requires lo <= hi <= |a| && x + (hi - lo) <= |b| && b[x..x + (hi - lo)] == a[lo..hi]
    ensures forall k | lo <= k < hi :: b[x + (k - lo)] == a[k]
  {
    forall k | lo <= k < hi ensures b[x + (k - lo)] == a[k] {
      assert b[x + (k - lo)] == b[x..x + (hi - lo)][k - lo];
    }
  }

  lemma {:induction false} SkipSpacesIs(t: string, i: nat, j: nat)
    requires i <= j < |t| && !IsRegexSpace(t[j]) && forall k | i <= k < j :: IsRegexSpace(t[k])
    ensures SkipSpaces(t, i) == j
    decreases j - i
  {
    if i < j {
      SkipSpacesIs(t, i + 1, j);
    }
  }

  /**
   * A marker that begins in the part of `a` copied from `t` (from `x` on) begins in `t`
   * too, when what follows that part in `a` is nothing or a `<`.
   */
  lemma OpensInSlice(a: string, lo: nat, hi: nat, t: string, x: nat, p: nat)
    requires lo <= p < hi <= |a| && (hi == |a| || a[hi] == '<')
    requires x + (hi - lo) <= |t| && a[lo..hi] == t[x..x + (hi - lo)]
    ensures MarkerOpens(a, p) ==> MarkerOpens(t, x + (p - lo))
  {
    if MarkerOpens(a, p) {
      OpensSpan(a, p);
      var o := OpenEnd(a, p);
      assert o <= hi;
      var p2 := x + (p - lo);
      forall k | p <= k < o ensures t[p2 + (k - p)] == a[k] {
        assert a[k] == a[lo..hi][k - lo];
      }
      assert t[p2..p2 + (o - p)] == a[p..o];
      OpensCarry(a, p, t, p2);
    }
  }

  /** A part of `a` copied from a marker-free `t` and followed by nothing or `<` is clear. */
  lemma ClearSlice(a: string, lo: nat, hi: nat, t: string, x: nat)
    requires lo <= hi <= |a| && (hi == |a| || a[hi] == '<') && MarkerFree(t)
    requires x + (hi - lo) <= |t| && a[lo..hi] == t[x..x + (hi - lo)]
    ensures ClearBetween(a, lo, hi)
  {
    forall p | lo <= p < hi ensures !MarkerOpens(a, p) {
      OpensInSlice(a, lo, hi, t, x, p);
    }
  }

  /** Text without `<` is clear. */
  lemma PlainClear(t: string, lo: nat, hi: nat)
    requires lo <= hi <= |t| && Plain(t[lo..hi])
    ensures ClearBetween(t, lo, hi)
  {
    forall p | lo <= p < hi ensures !MarkerOpens(t, p) {
      assert t[p] == t[lo..hi][p - lo];
      if MarkerOpens(t, p) {
        OpensSpan(t, p);
      }
    }
  }

  // ---------------------------------------------------------------------------------
  // Scanning over text in which no marker begins

  lemma {:induction false} StartMarkersSkip(t: string, from: nat, to: nat)
    requires from <= to <= |t| && ClearBetween(t, from, to)
    ensures StartMarkers(t, from) == StartMarkers(t, to)
    decreases |t| - from
  {
    if from < to {
      MatchOpens(t, from, []);
      StartMarkersSkip(t, from + 1, to);
    }
  }

  lemma {:induction false} StripSkips(t: string, id: string, from: nat, to: nat)
    requires from <= to <= |t| && ClearBetween(t, from, to)
    ensures StripEndMarkers(t, id, from) == t[from..to] + StripEndMarkers(t, id, to)
    decreases |t| - from
  {
    if from < to {
      NoEndMarkerAt(t, from, to, id);
      StripStep(t, id, from);
      StripSkips(t, id, from + 1, to);
      ConsSlice(t, from, to, StripEndMarkers(t, id, to));
    }
  }

  /** Where no marker begins, the end-marker pattern finds nothing, and the rest is clear. */
  lemma NoEndMarkerAt(t: string, from: nat, to: nat, id: string)
    requires from < to <= |t| && ClearBetween(t, from, to)
    ensures EndMarkerAt(t, from, id) == None && ClearBetween(t, from + 1, to)
  {
    MatchOpens(t, from, id);
  }

  /** Stripping keeps a character at which no end marker matches. */
  lemma StripStep(t: string, id: string, from: nat)
    requires from < |t| && EndMarkerAt(t, from, id) == None
    ensures StripEndMarkers(t, id, from) == [t[from]] + StripEndMarkers(t, id, from + 1)
  {
  }

  lemma ConsSlice(t: string, from: nat, to: nat, after: string)
    requires from < to <= |t|
    ensures t[from..to] + after == [t[from]] + (t[from + 1..to] + after)
  {
    assert t[from..to] == [t[from]] + t[from + 1..to];
  }

  lemma {:induction false} ClosingBraceSkips(t: string, from: nat, to: nat)
    requires from <= to <= |t| && '}' !in t[from..to]
    ensures ClosingBrace(t, from) == ClosingBrace(t, to)
    decreases |t| - from
  {
    if from < to {
      assert t[from] == t[from..to][0];
      assert t[from + 1..to] == t[from..to][1..];
      ClosingBraceSkips(t, from + 1, to);
    }
  }

  // ---------------------------------------------------------------------------------
  // Where a piece of text occurs

  /** `m` occurs in `t` at `p`. */
  predicate At(t: string, p: nat, m: string) {
    p + |m| <= |t| && t[p..p + |m|] == m
  }

  lemma {:induction false} AtConcat(x: string, y: string)
    ensures At(x + y, 0, x) && At(x + y, |x|, y)
  {
    assert (x + y)[0..|x|] == x;
  }

  lemma {:induction false} AtSlice(t: string, p: nat, m: string, a: nat, b: nat)
    requires At(t, p, m) && a <= b <= |m|
    ensures t[p + a..p + b] == m[a..b]
  {
    var w := t[p..p + |m|];
    forall k | 0 <= k < b - a ensures t[p + a..p + b][k] == m[a..b][k] {
      assert w[a + k] == t[p + a + k];
    }
  }

  lemma {:induction false} AtShift(t: string, p: nat, m: string, a: nat, u: string)
    requires At(t, p, m) && At(m, a, u)
    ensures At(t, p + a, u)
  {
    AtSlice(t, p, m, a, a + |u|);
  }

  lemma {:induction false} AtChar(t: string, p: nat, m: string, a: nat)
    requires At(t, p, m) && a < |m|
    ensures t[p + a] == m[a]
  {
    assert t[p + a] == t[p..p + |m|][a];
  }

  lemma {:induction false} AtPrefix(t: string, p: nat, m: string)
    requires At(t, p, m)
    ensures m <= t[p..]
  {
    assert t[p..][..|m|] == t[p..p + |m|];
  }

  lemma {:induction false} AtNotPrefix(t: string, p: nat, lit: string, a: nat)
    requires p <= |t| && a < |lit| && p + a < |t| && t[p + a] != lit[a]
    ensures !(lit <= t[p..])
  {

  }

  lemma {:induction false} SkipOneSpace(t: string, i: nat)
    requires i + 1 < |t| && IsRegexSpace(t[i]) && !IsRegexSpace(t[i + 1])
    ensures SkipSpaces(t, i) == i + 1
  {
  }

  // ---------------------------------------------------------------------------------
  // The two markers, where they were written

  lemma {:induction false} StartLeadFacts()
    ensures At(StartLead, 0, "<!--") && StartLead[4] == ' ' && At(StartLead, 5, "MV-COMMENT-START")
    ensures StartLead[21] == ' ' && |StartLead| == 22
  {
  }

  lemma {:induction false} EndLeadFacts()
    ensures At(EndLead, 0, "<!--") && EndLead[4] == ' ' && At(EndLead, 5, "MV-COMMENT-END")
    ensures EndLead[16] == 'E' && EndLead[19] == ' ' && |EndLead| == 20 && Plain(EndLead[1..])
  {
  }

  lemma {:induction false} TailFacts()
    ensures Tail[0] == ' ' && At(Tail, 1, "-->") && |Tail| == 4 && Plain(Tail)
  {
  }

  lemma {:induction false} StartMarkerParts(json: string)
    requires ObjectText(json)
    ensures var m := StartMarker(json);
            var n := |json|;
            && |m| == 26 + n
            && At(m, 0, "<!--") && m[4] == ' ' && At(m, 5, "MV-COMMENT-START") && m[21] == ' '
            && At(m, 22, json) && m[22] == '{' && m[21 + n] == '}' && '}' !in m[23..21 + n]
            && m[22 + n] == ' ' && At(m, 23 + n, "-->")
  {
    var n := |json|;
    var m := StartMarker(json);
    StartLeadFacts();
    TailFacts();
    AtConcat(StartLead, json);
    AtConcat(StartLead + json, Tail);
    AtShift(m, 0, StartLead + json, 22, json);
    AtSlice(m, 22, json, 1, n - 1);
    AtShift(m, 0, StartLead + json, 0, StartLead);
    AtShift(m, 0, StartLead, 0, "<!--");
    AtShift(m, 0, StartLead, 5, "MV-COMMENT-START");
    AtChar(m, 0, StartLead, 4);
    AtChar(m, 0, StartLead, 21);
    AtChar(m, 22, json, 0);
    AtChar(m, 22, json, n - 1);
    AtShift(m, 22 + n, Tail, 1, "-->");
    AtChar(m, 22 + n, Tail, 0);
  }

  /** The part of the start-marker pattern up to the opening brace. */
  lemma {:induction false} StartMarkerHead(t: string, p: nat, json: string)
    requires ObjectText(json) && At(t, p, StartMarker(json))
    ensures "<!--" <= t[p..] && SkipSpaces(t, p + 4) == p + 5
    ensures "MV-COMMENT-START" <= t[p + 5..] && SkipSpaces(t, p + 21) == p + 22
    ensures p + 22 < |t| && t[p + 22] == '{'
  {
    var m := StartMarker(json);
    StartMarkerParts(json);
    AtShift(t, p, m, 0, "<!--");
    AtPrefix(t, p, "<!--");
    AtChar(t, p, m, 4);
    AtChar(t, p, m, 5);
    SkipOneSpace(t, p + 4);
    AtShift(t, p, m, 5, "MV-COMMENT-START");
    AtPrefix(t, p + 5, "MV-COMMENT-START");
    AtChar(t, p, m, 21);
    AtChar(t, p, m, 22);
    SkipOneSpace(t, p + 21);
  }

  /** The lazy group stops at the payload's own closing brace. */
  lemma {:induction false} StartMarkerBrace(t: string, p: nat, json: string)
    requires ObjectText(json) && At(t, p, StartMarker(json))
    ensures ClosingBrace(t, p + 23) == Some(p + 21 + |json|)
    ensures SkipSpaces(t, p + 22 + |json|) == p + 23 + |json|
  {
    var n := |json|;
    StartMarkerParts(json);
    MarkerTailAt(t, p, StartMarker(json), n);
    BraceThenClose(t, p + 23, p + 21 + n);
  }

  /** What follows the opening brace in any text laid out like a start marker around a payload of length `n`. */
  lemma MarkerTailAt(t: string, p: nat, m: string, n: nat)
    requires At(t, p, m) && |m| == 26 + n && 2 <= n
    requires m[21 + n] == '}' && '}' !in m[23..21 + n] && m[22 + n] == ' ' && At(m, 23 + n, "-->")
    ensures var k := p + 21 + n;
      && k + 1 < |t| && '}' !in t[p + 23..k] && t[k] == '}' && t[k + 1] == ' ' && "-->" <= t[k + 2..]
  {
    var k := p + 21 + n;
    AtSlice(t, p, m, 23, 21 + n);
    AtChar(t, p, m, 21 + n);
    AtChar(t, p, m, 22 + n);
    AtShift(t, p, m, 23 + n, "-->");
    AtPrefix(t, k + 2, "-->");
  }

  /** The first `}` from `from` on, followed by ` -->`, closes the group. */
  lemma BraceThenClose(t: string, from: nat, k: nat)
    requires from <= k && k + 1 < |t| && '}' !in t[from..k]
    requires t[k] == '}' && t[k + 1] == ' ' && "-->" <= t[k + 2..]
    ensures ClosingBrace(t, from) == Some(k) && SkipSpaces(t, k + 1) == k + 2
  {
    assert t[k + 2] == '-';
    SkipOneSpace(t, k + 1);
    assert IsClose(t, k);
    ClosingBraceSkips(t, from, k);
  }

  lemma {:induction false} StartMarkerFound(t: string, p: nat, json: string)
    requires ObjectText(json) && At(t, p, StartMarker(json))
    ensures StartMarkerAt(t, p) == Some(MarkerSpan(p, json))
  {
    StartMarkerHead(t, p, json);
    StartMarkerBrace(t, p, json);
    StartMarkerAtIs(t, p, p + 21 + |json|, p + 23 + |json|);
  }

  /** The start-marker pattern at `p`, step by step: the span it matches. */
  lemma StartMarkerAtIs(t: string, p: nat, k: nat, e: nat)
    requires p + 22 < |t| && "<!--" <= t[p..] && SkipSpaces(t, p + 4) == p + 5
    requires "MV-COMMENT-START" <= t[p + 5..] && SkipSpaces(t, p + 21) == p + 22 && t[p + 22] == '{'
    requires ClosingBrace(t, p + 23) == Some(k) && k + 1 <= |t| && SkipSpaces(t, k + 1) == e
    ensures StartMarkerAt(t, p) == Some(Span(p, e + 3, p + 22, k + 1))
  {
    assert StartMarkerAt(t, p) == StartMarkerAfterOpen(t, p, p + 5);
    assert StartMarkerAfterOpen(t, p, p + 5) == StartMarkerGroup(t, p, p + 5, p + 22);
    StartMarkerGroupIs(t, p, k, e);
  }

  lemma StartMarkerGroupIs(t: string, p: nat, k: nat, e: nat)
    requires p + 22 < |t| && t[p + 22] == '{'
    requires ClosingBrace(t, p + 23) == Some(k) && k + 1 <= |t| && SkipSpaces(t, k + 1) == e
    ensures StartMarkerGroup(t, p, p + 5, p + 22) == Some(Span(p, e + 3, p + 22, k + 1))
  {
  }

  lemma {:induction false} EndMarkerParts(id: string)
    ensures var m := EndMarker(id);
            && |m| == 24 + |id|
            && At(m, 0, "<!--") && m[4] == ' ' && At(m, 5, "MV-COMMENT-END") && m[16] == 'E' && m[19] == ' '
            && At(m, 20, id) && m[20 + |id|] == ' ' && At(m, 21 + |id|, "-->")
  {
    var m := EndMarker(id);
    var n := |id|;
    EndLeadFacts();
    TailFacts();
    AtConcat(EndLead, id);
    AtConcat(EndLead + id, Tail);
    AtShift(m, 0, EndLead + id, 0, EndLead);
    AtShift(m, 0, EndLead + id, 20, id);
    AtShift(m, 0, EndLead, 0, "<!--");
    AtShift(m, 0, EndLead, 5, "MV-COMMENT-END");
    AtChar(m, 0, EndLead, 4);
    AtChar(m, 0, EndLead, 16);
    AtChar(m, 0, EndLead, 19);
    AtShift(m, 20 + n, Tail, 1, "-->");
    AtChar(m, 20 + n, Tail, 0);
  }

  /** Past its first character an end marker holds no `<`. */
  lemma {:induction false} EndMarkerRestPlain(id: string)
    requires '<' !in id
    ensures Plain(EndMarker(id)[1..])
  {
    EndLeadFacts();
    TailFacts();
    assert EndMarker(id)[1..] == EndLead[1..] + id + Tail;
  }

  lemma {:induction false} EndMarkerNotStart(t: string, q: nat, id: string)
    requires At(t, q, EndMarker(id))
    ensures StartMarkerAt(t, q) == None
  {
    var m := EndMarker(id);
    EndMarkerParts(id);
    AtShift(t, q, m, 0, "<!--");
    AtPrefix(t, q, "<!--");
    AtChar(t, q, m, 4);
    AtChar(t, q, m, 5);
    SkipOneSpace(t, q + 4);
    AtChar(t, q, m, 16);
    AtNotPrefix(t, q + 5, "MV-COMMENT-START", 11);
  }

  /** The end-marker pattern up to the id. */
  lemma {:induction false} EndMarkerHead(t: string, q: nat, id: string)
    requires Anchorable(id) && At(t, q, EndMarker(id))
    ensures "<!--" <= t[q..] && SkipSpaces(t, q + 4) == q + 5
    ensures "MV-COMMENT-END" <= t[q + 5..] && SkipSpaces(t, q + 19) == q + 20
  {
    var m := EndMarker(id);
    EndMarkerParts(id);
    AtShift(t, q, m, 0, "<!--");
    AtPrefix(t, q, "<!--");
    AtChar(t, q, m, 4);
    AtChar(t, q, m, 5);
    SkipOneSpace(t, q + 4);
    AtShift(t, q, m, 5, "MV-COMMENT-END");
    AtPrefix(t, q + 5, "MV-COMMENT-END");
    AtChar(t, q, m, 19);
    AtChar(t, q, m, 20);
    AtChar(m, 20, id, 0);
    SkipOneSpace(t, q + 19);
  }

  /** The id, the space and the closing `-->`. */
  lemma {:induction false} EndMarkerTail(t: string, q: nat, id: string)
    requires Anchorable(id) && At(t, q, EndMarker(id))
    ensures IdThenClose(t, q + 20, id) == Some(q + 24 + |id|)
  {
    var m := EndMarker(id);
    var n := |id|;
    EndMarkerParts(id);
    AtShift(t, q, m, 20, id);
    AtPrefix(t, q + 20, id);
    AtChar(t, q, m, 20 + n);
    AtChar(t, q, m, 21 + n);
    SkipOneSpace(t, q + 20 + n);
    AtShift(t, q, m, 21 + n, "-->");
    AtPrefix(t, q + 21 + n, "-->");
  }

  lemma {:induction false} EndMarkerFound(t: string, q: nat, id: string)
    requires Anchorable(id) && At(t, q, EndMarker(id))
    ensures EndMarkerAt(t, q, id) == Some(q + |EndMarker(id)|)
  {
    EndMarkerParts(id);
    EndMarkerHead(t, q, id);
    EndMarkerTail(t, q, id);
  }

  // ---------------------------------------------------------------------------------
  // The anchored text
  //
  // Every position below is a parameter tied to its definition by one `requires`, so that
  // the scanner functions are only ever applied to that one term.

  /** The scanner steps over a match it finds at `i` and resumes at its end. */
  lemma {:induction false} ScanStep(a: string, i: nat, m: Span)
    requires i < |a| && StartMarkerAt(a, i) == Some(m)
    ensures StartMarkers(a, i) == [m] + StartMarkers(a, m.end)
  {
  }

  lemma {:induction false} ScanAtLength(a: string)
    ensures StartMarkers(a, |a|) == []
  {
  }

  /** The scanner reports a start marker and resumes after it. */
  lemma {:induction false} ScanAtStart(a: string, i: nat, json: string, s: nat)
    requires ObjectText(json) && At(a, i, StartMarker(json)) && s == i + |StartMarker(json)|
    ensures StartMarkers(a, i) == [MarkerSpan(i, json)] + StartMarkers(a, s)
  {
    StartMarkerFound(a, i, json);
    StartMarkerParts2(json);
    ScanStep(a, i, MarkerSpan(i, json));
    assert MarkerSpan(i, json).end == s;
  }

  /** The scanner passes over an end marker. */
  lemma {:induction false} ScanAtEnd(a: string, q: nat, id: string, e: nat)
    requires '<' !in id && At(a, q, EndMarker(id)) && e == q + |EndMarker(id)|
    ensures StartMarkers(a, q) == StartMarkers(a, e)
  {
    var em := EndMarker(id);
    EndMarkerNotStart(a, q, id);
    EndMarkerParts(id);
    EndMarkerRestPlain(id);
    AtSlice(a, q, em, 1, |em|);
    PlainClear(a, q + 1, e);
    StartMarkersSkip(a, q + 1, e);
  }

  /** Scanning up to the end marker: clear text, then the start marker, then clear text. */
  lemma {:induction false} ScanFront(a: string, i: nat, json: string, s: nat, q: nat)
    requires ObjectText(json) && s == i + |StartMarker(json)| && s <= q <= |a|
    requires ClearBetween(a, 0, i) && At(a, i, StartMarker(json)) && ClearBetween(a, s, q)
    ensures StartMarkers(a, 0) == [MarkerSpan(i, json)] + StartMarkers(a, q)
  {
    StartMarkersSkip(a, 0, i);
    ScanAtStart(a, i, json, s);
    StartMarkersSkip(a, s, q);
  }

  lemma {:induction false} ScanClearRest(a: string, e: nat)
    requires e <= |a| && ClearBetween(a, e, |a|)
    ensures StartMarkers(a, e) == []
  {
    StartMarkersSkip(a, e, |a|);
    ScanAtLength(a);
  }

  /** Scanning from the end marker on: the end marker, then plain text. */
  lemma {:induction false} ScanBack(a: string, q: nat, id: string, e: nat)
    requires '<' !in id && e == q + |EndMarker(id)| && e <= |a|
    requires At(a, q, EndMarker(id)) && ClearBetween(a, e, |a|)
    ensures StartMarkers(a, q) == []
  {
    ScanAtEnd(a, q, id, e);
    ScanClearRest(a, e);
  }

  /** Scanning a text laid out as clear text, a start marker, clear text, an end marker, clear text. */
  lemma {:induction false} ScanLayout(a: string, i: nat, json: string, s: nat, q: nat, id: string, e: nat)
    requires ObjectText(json) && '<' !in id
    requires s == i + |StartMarker(json)| && s <= q && e == q + |EndMarker(id)| && e <= |a|
    requires ClearBetween(a, 0, i) && At(a, i, StartMarker(json))
    requires ClearBetween(a, s, q) && At(a, q, EndMarker(id)) && ClearBetween(a, e, |a|)
    ensures StartMarkers(a, 0) == [MarkerSpan(i, json)]
  {
    ScanFront(a, i, json, s, q);
    ScanBack(a, q, id, e);
    assert [MarkerSpan(i, json)] + [] == [MarkerSpan(i, json)];
  }

  lemma {:induction false} StripAtMatch(t: string, id: string, p: nat, e: nat)
    requires p < |t| && EndMarkerAt(t, p, id) == Some(e)
    ensures StripEndMarkers(t, id, p) == StripEndMarkers(t, id, e)
  {
  }

  lemma {:induction false} StripAtEnd(w: string, j: nat, id: string, e: nat)
    requires Anchorable(id) && At(w, j, EndMarker(id)) && e == j + |EndMarker(id)|
    ensures StripEndMarkers(w, id, j) == StripEndMarkers(w, id, e)
  {
    EndMarkerFound(w, j, id);
    StripAtMatch(w, id, j, e);
  }

  lemma {:induction false} StripAtLength(w: string, id: string)
    ensures StripEndMarkers(w, id, |w|) == []
  {
  }

  lemma {:induction false} StripBeforeEnd(w: string, j: nat, id: string, e: nat)
    requires Anchorable(id) && e == j + |EndMarker(id)| && e <= |w|
    requires ClearBetween(w, 0, j) && At(w, j, EndMarker(id))
    ensures StripEndMarkers(w, id, 0) == w[..j] + StripEndMarkers(w, id, e)
  {
    assert w[0..j] == w[..j];
    StripSkips(w, id, 0, j);
    StripAtEnd(w, j, id, e);
  }

  lemma {:induction false} StripClearRest(w: string, id: string, e: nat)
    requires e <= |w| && ClearBetween(w, e, |w|)
    ensures StripEndMarkers(w, id, e) == w[e..]
  {
    assert w[e..|w|] == w[e..];
    StripSkips(w, id, e, |w|);
    StripAtLength(w, id);
    assert w[e..] + [] == w[e..];
  }

  /** Stripping the end markers of a text with exactly one, between clear text. */
  lemma {:induction false} StripLayout(w: string, j: nat, id: string, e: nat)
    requires Anchorable(id) && e == j + |EndMarker(id)| && e <= |w|
    requires ClearBetween(w, 0, j) && At(w, j, EndMarker(id)) && ClearBetween(w, e, |w|)
    ensures StripEndMarkers(w, id, 0) == w[..j] + w[e..]
  {
    StripBeforeEnd(w, j, id, e);
    StripClearRest(w, id, e);
  }

  /** Text copied from a marker-free text and followed by a marker is clear. */
  lemma {:induction false} ClearUpTo(a: string, lo: nat, hi: nat, m: string, t: string, x: nat)
    requires lo <= hi && At(a, hi, m) && m != [] && m[0] == '<' && MarkerFree(t)
    requires x + (hi - lo) <= |t| && a[lo..hi] == t[x..x + (hi - lo)]
    ensures ClearBetween(a, lo, hi)
  {
    AtChar(a, hi, m, 0);
    ClearSlice(a, lo, hi, t, x);
  }

  /** The end of a text, copied from the end of a marker-free text, is clear. */
  lemma {:induction false} ClearToEnd(a: string, lo: nat, t: string, x: nat)
    requires lo <= |a| && x <= |t| && a[lo..] == t[x..] && MarkerFree(t)
    ensures ClearBetween(a, lo, |a|)
  {
    assert a[lo..|a|] == a[lo..] && t[x..x + (|a| - lo)] == t[x..];
    ClearSlice(a, lo, |a|, t, x);
  }

  lemma {:induction false} StartMarkerParts2(json: string)
    ensures |StartMarker(json)| == 26 + |json|
  {
  }

  /** Where the pieces of an anchored text lie. */
  lemma {:induction false} AnchoredLayout(t: string, i: nat, j: nat, json: string, id: string, s: nat, q: nat, e: nat)
    requires i <= j <= |t| && s == i + |StartMarker(json)| && q == s + (j - i) && e == q + |EndMarker(id)|
    ensures var a := Anchored(t, i, j, json, id);
            && e <= |a| && a[..i] == t[..i] && At(a, i, StartMarker(json)) && a[s..q] == t[i..j]
            && At(a, q, EndMarker(id)) && a[e..] == t[j..]
  {
    SpliceLayout(t, i, j, StartMarker(json), EndMarker(id));
  }

  /** Where the pieces lie when any two texts are written into `t` at `i` and `j`. */
  lemma {:induction false} SpliceLayout(t: string, i: nat, j: nat, sm: string, em: string)
    requires i <= j <= |t|
    ensures var a := t[..i] + sm + t[i..j] + em + t[j..];
            var s, q := i + |sm|, i + |sm| + (j - i);
            && a[..i] == t[..i] && At(a, i, sm) && a[s..q] == t[i..j]
            && At(a, q, em) && a[q + |em|..] == t[j..]
  {
    var x1 := t[..i] + sm;
    var x2 := x1 + t[i..j];
    var x3 := x2 + em;
    var a := x3 + t[j..];
    AtConcat(x3, t[j..]);
    AtConcat(x2, em);
    AtConcat(x1, t[i..j]);
    AtConcat(t[..i], sm);
    AtShift(a, 0, x3, 0, x2);
    AtShift(a, 0, x3, |x2|, em);
    AtShift(a, 0, x2, 0, x1);
    AtShift(a, 0, x2, |x1|, t[i..j]);
    AtShift(a, 0, x1, 0, t[..i]);
    AtShift(a, 0, x1, i, sm);
    assert a[|x3|..] == t[j..];
    assert a[..i] == a[0..i];
  }

  /** The payload group of a start marker written at `i` is the payload. */
  lemma {:induction false} MarkerPayload(a: string, i: nat, json: string)
    requires ObjectText(json) && At(a, i, StartMarker(json))
    ensures SpanIn(a, MarkerSpan(i, json)) && PayloadOf(a, MarkerSpan(i, json)) == json
  {
    StartMarkerParts(json);
    AtShift(a, i, StartMarker(json), 22, json);
  }

  /** The scanner finds one start marker in an anchored text: the one just written. */
  lemma {:induction false} AnchoredScan(t: string, i: nat, j: nat, json: string, id: string)
    requires i <= j <= |t| && MarkerFree(t) && ObjectText(json) && '<' !in id
    ensures var a := Anchored(t, i, j, json, id);
            && StartMarkers(a, 0) == [MarkerSpan(i, json)]
            && SpanIn(a, MarkerSpan(i, json)) && PayloadOf(a, MarkerSpan(i, json)) == json
  {
    var a := Anchored(t, i, j, json, id);
    var s := i + |StartMarker(json)|;
    var q := s + (j - i);
    var e := q + |EndMarker(id)|;
    AnchoredLayout(t, i, j, json, id, s, q, e);
    ClearUpTo(a, 0, i, StartMarker(json), t, 0);
    ClearUpTo(a, s, q, EndMarker(id), t, i);
    ClearToEnd(a, e, t, j);
    ScanLayout(a, i, json, s, q, id, e);
    MarkerPayload(a, i, json);
  }

  /** The comment a round trip through the payload yields: timestamps at whole seconds. */
  function Stored(c: Comment): Comment {
    Comment(c.id, WholeSeconds(c.created), WholeSeconds(c.updated), c.body)
  }

  /** A payload written by the encoder is an object text. */
  lemma {:induction false} EncodedObject(c: Comment)
    requires '}' !in c.id
    ensures ObjectText(Encode(c))
  {
    var json := Encode(c);
    EncodedBraces(c);
    assert json[1..|json| - 1] == json[..|json| - 1][1..];
  }

  /** The anchored text holds one start marker, and its payload decodes to `x`. */
  lemma {:induction false} AnchoredDecodesJson(t: string, i: nat, j: nat, json: string, x: Comment)
    requires i <= j <= |t| && MarkerFree(t) && ObjectText(json) && '<' !in x.id && Decode(json) == Some(x)
    ensures var a := Anchored(t, i, j, json, x.id);
            var sp := MarkerSpan(i, json);
            && StartMarkers(a, 0) == [sp] && SpanIn(a, sp)
            && Payloads(a, [sp]) == [Some(x)]
            && DecodedComments(a) == [x]
  {
    AnchoredScan(t, i, j, json, x.id);
    var sp := MarkerSpan(i, json);
    assert [sp][..0] == [];
  }

  lemma {:induction false} AnchoredDecodes(t: string, i: nat, j: nat, c: Comment)
    requires i <= j <= |t| && MarkerFree(t) && Anchorable(c.id)
    ensures DecodedComments(Anchored(t, i, j, Encode(c), c.id)) == [Stored(c)]
  {
    EncodedObject(c);
    DecodeEncode(c);
    AnchoredDecodesJson(t, i, j, Encode(c), Stored(c));
  }

  /** Cutting the start marker out of an anchored text. */
  lemma {:induction false} AnchoredWithoutStart(t: string, i: nat, j: nat, json: string, id: string)
    requires i <= j <= |t|
    ensures var a := Anchored(t, i, j, json, id);
            var sp := MarkerSpan(i, json);
            a[..sp.start] + a[sp.end..] == t[..j] + EndMarker(id) + t[j..]
  {
    var sm := StartMarker(json);
    var rest := t[i..j] + EndMarker(id) + t[j..];
    StartMarkerParts2(json);
    AnchoredSplit(t, i, j, json, id, rest);
    assert t[..i] + rest == t[..j] + EndMarker(id) + t[j..] by {
      assert t[..i] + t[i..j] == t[..j];
    }
  }

  /** An anchored text is the text before `i`, the start marker, then the rest. */
  lemma {:induction false} AnchoredSplit(t: string, i: nat, j: nat, json: string, id: string, rest: string)
    requires i <= j <= |t| && rest == t[i..j] + EndMarker(id) + t[j..]
    ensures var a := Anchored(t, i, j, json, id);
            a[..i] == t[..i] && a[i + |StartMarker(json)|..] == rest
  {
    var a := Anchored(t, i, j, json, id);
    assert a == t[..i] + StartMarker(json) + rest;
  }

  /** Replacing the start marker of an anchored text with another. */
  lemma {:induction false} AnchoredReplaceStart(t: string, i: nat, j: nat, json: string, json': string, id: string)
    requires i <= j <= |t|
    ensures var a := Anchored(t, i, j, json, id);
            var sp := MarkerSpan(i, json);
            a[..sp.start] + StartMarker(json') + a[sp.end..] == Anchored(t, i, j, json', id)
  {
    var rest := t[i..j] + EndMarker(id) + t[j..];
    StartMarkerParts2(json);
    AnchoredSplit(t, i, j, json, id, rest);
    assert Anchored(t, i, j, json', id) == t[..i] + StartMarker(json') + rest;
  }

  // ---------------------------------------------------------------------------------
  // The header and the ids the engine writes

  /** The header, seen from its `<`: `<!-- Ma…`, and no other `<`. */
  lemma {:induction false} HeaderFacts()
    ensures |Header| > 7 && Header[0] == '<' && Header[4] == ' ' && Header[5] == 'M' && Header[6] == 'a'
    ensures Plain(Header[1..])
  {
    assert Header[1..] == HeaderPrefix[1..] + HeaderNote + "\n\n";
    PrefixRestPlain();
    NotePlain();
    PlainConcat(HeaderPrefix[1..], HeaderNote);
    PlainConcat(HeaderPrefix[1..] + HeaderNote, "\n\n");
  }

  lemma PrefixRestPlain()
    ensures Plain(HeaderPrefix[1..])
  {
    var p1, p2 := "!-- Markdown", "Viewer comments:";
    assert HeaderPrefix == "<" + (p1 + p2);
    assert HeaderPrefix[1..] == p1 + p2;
    assert Plain(p1);
    assert Plain(p2);
    PlainConcat(p1, p2);
  }

  lemma NotePlain()
    ensures Plain(HeaderNote)
  {
    var n1, n2 := " Do not remove MV-COMMENT markers.", " They anchor inline comments. -->";
    assert Plain(n1);
    assert Plain(n2);
    PlainConcat(n1, n2);
  }

  lemma {:induction false} PlainConcat(a: string, b: string)
    requires Plain(a) && Plain(b)
    ensures Plain(a + b)
  {
    forall k | 0 <= k < |a + b| ensures (a + b)[k] != '<' {
      if k < |a| {
        assert (a + b)[k] == a[k];
      } else {
        assert (a + b)[k] == b[k - |a|];
      }
    }
  }

  /** No marker begins at the header's `<`: `MarkdownViewer` follows the space, not `MV-COMMENT-`. */
  lemma {:induction false} HeaderNotMarker(r: string, i: nat)
    requires At(r, i, Header)
    ensures !MarkerOpens(r, i)
  {
    HeaderFacts();
    AtChar(r, i, Header, 4);
    AtChar(r, i, Header, 5);
    AtChar(r, i, Header, 6);
    SkipOneSpace(r, i + 4);
    AtNotPrefix(r, i + 5, MarkerWord(), 1);
  }

  /** Writing the header into a marker-free text leaves it marker-free. */
  lemma {:induction false} HeaderSpliceMarkerFree(m: string, i: nat)
    requires i <= |m| && MarkerFree(m)
    ensures MarkerFree(m[..i] + Header + m[i..])
  {
    var r := m[..i] + Header + m[i..];
    var e := i + |Header|;
    HeaderFacts();
    InsertedAt(m, i, Header);
    ClearUpTo(r, 0, i, Header, m, 0);
    ClearToEnd(r, e, m, i);
    AtSlice(r, i, Header, 1, |Header|);
    assert Header[1..|Header|] == Header[1..];
    PlainClear(r, i + 1, e);
    HeaderNotMarker(r, i);
    forall p | 0 <= p <= |r| ensures !MarkerOpens(r, p) {
      if p == |r| {
        assert r[p..] == [];
      }
    }
  }

  /** `ensureCommentHeader` keeps a text marker-free, whether or not it inserts the header. */
  lemma {:induction false} HeaderKeepsMarkerFree(markdown: string, insertionOffset: int)
    requires MarkerFree(markdown)
    ensures MarkerFree(EnsureCommentHeader(markdown, insertionOffset).markdown)
  {
    var i, h := EnsureCommentHeaderSplices(markdown, insertionOffset);
    if h == [] {
      assert markdown[..i] + h + markdown[i..] == markdown;
    } else {
      HeaderSpliceMarkerFree(markdown, i);
    }
  }

  /** The ids `nextCommentID` makes (`COM-` and a decimal number) are anchorable. */
  lemma {:induction false} CommentIDAnchorable(id: string)
    requires |id| > 4 && id[..4] == "COM-" && forall k | 4 <= k < |id| :: id[k] == '-' || IsDigit(id[k])
    ensures Anchorable(id)
  {
    forall k | 0 <= k < 4 ensures id[k] == "COM-"[k] {
      assert id[k] == id[..4][k];
    }
  }

  // ---------------------------------------------------------------------------------
  // The operations on an anchored comment

  lemma {:induction false} InsertedIsAnchored(markdown: string, startOffset: int, endOffset: int, c: Comment)
    requires InsertCommentMarkers(markdown, startOffset, endOffset, c).Some?
    ensures var i := Utf8.IndexForUtf8Offset(markdown, startOffset).value;
            var j := Utf8.IndexForUtf8Offset(markdown, endOffset).value;
            && i <= j <= |markdown|
            && InsertCommentMarkers(markdown, startOffset, endOffset, c).value
               == Anchored(markdown, i, j, Encode(c), c.id)
  {
  }

  /** Parsing right after an insertion reads back exactly the inserted comment. */
  lemma {:induction false} ParseAfterInsert(markdown: string, startOffset: int, endOffset: int, c: Comment)
    requires MarkerFree(markdown) && Anchorable(c.id)
    requires InsertCommentMarkers(markdown, startOffset, endOffset, c).Some?
    ensures DecodedComments(InsertCommentMarkers(markdown, startOffset, endOffset, c).value) == [Stored(c)]
  {
    InsertedIsAnchored(markdown, startOffset, endOffset, c);
    var i := Utf8.IndexForUtf8Offset(markdown, startOffset).value;
    var j := Utf8.IndexForUtf8Offset(markdown, endOffset).value;
    AnchoredDecodes(markdown, i, j, c);
  }

  /** Removal in a text whose only start marker carries the id. */
  lemma {:induction false} RemovedTextOfSingle(a: string, sp: Span, x: Comment, id: string)
    requires StartMarkers(a, 0) == [sp] && SpanIn(a, sp) && Payloads(a, [sp]) == [Some(x)] && x.id == id
    ensures RemovedText(a, id) == Some(StripEndMarkers(a[..sp.start] + a[sp.end..], id, 0))
  {
    assert LastWithID(Payloads(a, [sp]), id, 1) == Some(0);
  }

  /** Stripping the end marker out of the text that is left once the start marker is cut. */
  lemma {:induction false} StripAnchoredRest(t: string, j: nat, id: string)
    requires j <= |t| && MarkerFree(t) && Anchorable(id)
    ensures StripEndMarkers(t[..j] + EndMarker(id) + t[j..], id, 0) == t
  {
    var em := EndMarker(id);
    var w := t[..j] + em + t[j..];
    InsertedAt(t, j, em);
    ClearUpTo(w, 0, j, em, t, 0);
    ClearToEnd(w, j + |em|, t, j);
    StripLayout(w, j, id, j + |em|);
  }

  /** Text put in at `j` sits at `j`, with the text before and after it unchanged. */
  lemma {:induction false} InsertedAt(t: string, j: nat, m: string)
    requires j <= |t|
    ensures var w := t[..j] + m + t[j..];
      At(w, j, m) && w[..j] == t[..j] && w[j + |m|..] == t[j..] && t[..j] + t[j..] == t
  {
    var w := t[..j] + m + t[j..];
    AtConcat(t[..j] + m, t[j..]);
    AtConcat(t[..j], m);
    AtShift(w, 0, t[..j] + m, j, m);
    assert w[..j] == t[..j] && w[j + |m|..] == t[j..];
    assert t[..j] + t[j..] == t;
  }

  lemma {:induction false} RemoveAnchoredJson(t: string, i: nat, j: nat, json: string, x: Comment)
    requires i <= j <= |t| && MarkerFree(t) && ObjectText(json) && Anchorable(x.id) && Decode(json) == Some(x)
    ensures RemovedText(Anchored(t, i, j, json, x.id), x.id) == Some(t)
  {
    var a := Anchored(t, i, j, json, x.id);
    var sp := MarkerSpan(i, json);
    var rest := t[..j] + EndMarker(x.id) + t[j..];
    AnchoredDecodesJson(t, i, j, json, x);
    RemovedTextOfSingle(a, sp, x, x.id);
    AnchoredWithoutStart(t, i, j, json, x.id);
    assert a[..sp.start] + a[sp.end..] == rest;
    StripAnchoredRest(t, j, x.id);
  }

  lemma {:induction false} RemoveAnchored(t: string, i: nat, j: nat, c: Comment)
    requires i <= j <= |t| && MarkerFree(t) && Anchorable(c.id)
    ensures RemovedText(Anchored(t, i, j, Encode(c), c.id), c.id) == Some(t)
  {
    EncodedObject(c);
    DecodeEncode(c);
    RemoveAnchoredJson(t, i, j, Encode(c), Stored(c));
  }

  /** Removing the comment right after inserting it gives back the original text. */
  lemma {:induction false} RemoveAfterInsert(markdown: string, startOffset: int, endOffset: int, c: Comment)
    requires MarkerFree(markdown) && Anchorable(c.id)
    requires InsertCommentMarkers(markdown, startOffset, endOffset, c).Some?
    ensures RemovedText(InsertCommentMarkers(markdown, startOffset, endOffset, c).value, c.id) == Some(markdown)
  {
    InsertedIsAnchored(markdown, startOffset, endOffset, c);
    var i := Utf8.IndexForUtf8Offset(markdown, startOffset).value;
    var j := Utf8.IndexForUtf8Offset(markdown, endOffset).value;
    RemoveAnchored(markdown, i, j, c);
  }

  /** Updating in a text whose only start marker carries the id. */
  lemma {:induction false} UpdatedTextOfSingle(a: string, sp: Span, x: Comment, id: string, body: string, now: int)
    requires StartMarkers(a, 0) == [sp] && SpanIn(a, sp) && Payloads(a, [sp]) == [Some(x)] && x.id == id
    ensures UpdatedText(a, id, body, now)
            == Some(a[..sp.start] + StartMarker(Encode(Comment(x.id, x.created, now, body))) + a[sp.end..])
  {
    assert LastWithID(Payloads(a, [sp]), id, 1) == Some(0);
  }

  lemma {:induction false} UpdateAnchoredJson(t: string, i: nat, j: nat, json: string, x: Comment, body: string, now: int)
    requires i <= j <= |t| && MarkerFree(t) && ObjectText(json) && '<' !in x.id && Decode(json) == Some(x)
    ensures UpdatedText(Anchored(t, i, j, json, x.id), x.id, body, now)
            == Some(Anchored(t, i, j, Encode(Comment(x.id, x.created, now, body)), x.id))
  {
    var a := Anchored(t, i, j, json, x.id);
    var sp := MarkerSpan(i, json);
    var json' := Encode(Comment(x.id, x.created, now, body));
    AnchoredDecodesJson(t, i, j, json, x);
    UpdatedTextOfSingle(a, sp, x, x.id, body, now);
    AnchoredReplaceStart(t, i, j, json, json', x.id);
  }

  lemma {:induction false} UpdateAnchored(t: string, i: nat, j: nat, c: Comment, body: string, now: int)
    requires i <= j <= |t| && MarkerFree(t) && Anchorable(c.id)
    ensures UpdatedText(Anchored(t, i, j, Encode(c), c.id), c.id, body, now)
            == Some(Anchored(t, i, j, Encode(Comment(c.id, WholeSeconds(c.created), now, body)), c.id))
  {
    EncodedObject(c);
    DecodeEncode(c);
    UpdateAnchoredJson(t, i, j, Encode(c), Stored(c), body, now);
  }

  /**
   * Updating the comment right after inserting it is the same as inserting the updated
   * comment: the id and the stored creation time are kept and the text between the
   * markers is untouched.
   */
  lemma {:induction false} UpdateAfterInsert(markdown: string, startOffset: int, endOffset: int, c: Comment, body: string, now: int)
    requires MarkerFree(markdown) && Anchorable(c.id)
    requires InsertCommentMarkers(markdown, startOffset, endOffset, c).Some?
    ensures UpdatedText(InsertCommentMarkers(markdown, startOffset, endOffset, c).value, c.id, body, now)
            == InsertCommentMarkers(markdown, startOffset, endOffset,
                                    Comment(c.id, WholeSeconds(c.created), now, body))
  {
    InsertedIsAnchored(markdown, startOffset, endOffset, c);
    var i := Utf8.IndexForUtf8Offset(markdown, startOffset).value;
    var j := Utf8.IndexForUtf8Offset(markdown, endOffset).value;
    var updated := Comment(c.id, WholeSeconds(c.created), now, body);
    UpdateAnchored(markdown, i, j, c, body, now);
    InsertedIsAnchored(markdown, startOffset, endOffset, updated);
  }
}
