/**
 * `escapeHTML`, written the same way in the document state and in the renderer: four
 * successive `replacingOccurrences(of:with:)` calls, ampersands first.
 */
module Html {

  /** `replacingOccurrences(of:with:)` for a one-character target. */
  function ReplacingWith(s: string, c: char, r: string): string {
    if s == [] then [] else (if s[0] == c then r else [s[0]]) + ReplacingWith(s[1..], c, r)
  }

  lemma {:induction false} ReplacingWithAppend(a: string, b: string, c: char, r: string)
    ensures ReplacingWith(a + b, c, r) == ReplacingWith(a, c, r) + ReplacingWith(b, c, r)
  {
    if a != [] {
      assert (a + b)[1..] == a[1..] + b;
      ReplacingWithAppend(a[1..], b, c, r);
    } else {
      assert a + b == b;
    }
  }

  /** After the pass, the target is gone, unless its replacement brings it back. */
  lemma {:induction false} ReplacingWithRemoves(s: string, c: char, r: string)
    requires c !in r
    ensures c !in ReplacingWith(s, c, r)
  {
    if s != [] {
      ReplacingWithRemoves(s[1..], c, r);
    }
  }

  /** A character that `ReplacingWith` leaves alone, and any character it does not target. */
  lemma {:induction false} ReplacingWithKeeps(s: string, c: char, r: string, x: char)
    requires x in ReplacingWith(s, c, r) && x !in r
    ensures x in s
  {
    if s != [] {
      var head := if s[0] == c then r else [s[0]];
      assert ReplacingWith(s, c, r) == head + ReplacingWith(s[1..], c, r);
      if x !in head {
        ReplacingWithKeeps(s[1..], c, r, x);
      }
    }
  }

  function EscapeHTML(s: string): string {
    ReplacingWith(ReplacingWith(ReplacingWith(ReplacingWith(s, '&', "&amp;"), '<', "&lt;"), '>', "&gt;"), '"', "&quot;")
  }

  /** What one character becomes. */
  function EscapeChar(c: char): string {
    if c == '&' then "&amp;"
    else if c == '<' then "&lt;"
    else if c == '>' then "&gt;"
    else if c == '"' then "&quot;"
    else [c]
  }

  /** Escaping character by character: the reference the four passes are compared with. */
  function EscapeEach(s: string): string {
    if s == [] then [] else EscapeChar(s[0]) + EscapeEach(s[1..])
  }

  lemma ReplacingOne(x: char, c: char, r: string)
    ensures ReplacingWith([x], c, r) == if x == c then r else [x]
  {
    assert [x][1..] == [];
  }

  lemma {:induction false} ReplacingAbsent(s: string, c: char, r: string)
    requires c !in s
    ensures ReplacingWith(s, c, r) == s
  {
    if s != [] {
      ReplacingAbsent(s[1..], c, r);
    }
  }

  /** The three passes after the first, on text that none of them targets. */
  lemma LaterPassesKeep(s: string)
    requires '<' !in s && '>' !in s && '"' !in s
    ensures ReplacingWith(ReplacingWith(ReplacingWith(s, '<', "&lt;"), '>', "&gt;"), '"', "&quot;") == s
  {
    ReplacingAbsent(s, '<', "&lt;");
    ReplacingAbsent(s, '>', "&gt;");
    ReplacingAbsent(s, '"', "&quot;");
  }

  lemma EscapeOneChar(c: char)
    ensures EscapeHTML([c]) == EscapeChar(c)
  {
    ReplacingOne(c, '&', "&amp;");
    if c == '&' {
      LaterPassesKeep("&amp;");
    } else {
      ReplacingOne(c, '<', "&lt;");
      if c == '<' {
        ReplacingAbsent("&lt;", '>', "&gt;");
        ReplacingAbsent("&lt;", '"', "&quot;");
      } else {
        ReplacingOne(c, '>', "&gt;");
        ReplacingOne(c, '"', "&quot;");
        if c == '>' {
          ReplacingAbsent("&gt;", '"', "&quot;");
        }
      }
    }
  }

  lemma {:induction false} EscapeAppend(a: string, b: string)
    ensures EscapeHTML(a + b) == EscapeHTML(a) + EscapeHTML(b)
  {
    ReplacingWithAppend(a, b, '&', "&amp;");
    var a1, b1 := ReplacingWith(a, '&', "&amp;"), ReplacingWith(b, '&', "&amp;");
    ReplacingWithAppend(a1, b1, '<', "&lt;");
    var a2, b2 := ReplacingWith(a1, '<', "&lt;"), ReplacingWith(b1, '<', "&lt;");
    ReplacingWithAppend(a2, b2, '>', "&gt;");
    var a3, b3 := ReplacingWith(a2, '>', "&gt;"), ReplacingWith(b2, '>', "&gt;");
    ReplacingWithAppend(a3, b3, '"', "&quot;");
  }

  /**
   * The four passes escape each character on its own: the ampersands of the entities
   * written by the later passes are never escaped again, because ampersands go first.
   */
  lemma {:induction false} EscapeIsPerChar(s: string)
    ensures EscapeHTML(s) == EscapeEach(s)
  {
    if s != [] {
      assert s == [s[0]] + s[1..];
      EscapeAppend([s[0]], s[1..]);
      EscapeOneChar(s[0]);
      EscapeIsPerChar(s[1..]);
    }
  }

  /** Escaped text holds no `<`, `>` or `"`. */
  lemma {:induction false} EscapeHasNoMarkup(s: string)
    ensures '<' !in EscapeHTML(s) && '>' !in EscapeHTML(s) && '"' !in EscapeHTML(s)
  {
    var s1 := ReplacingWith(s, '&', "&amp;");
    var s2 := ReplacingWith(s1, '<', "&lt;");
    var s3 := ReplacingWith(s2, '>', "&gt;");
    var s4 := ReplacingWith(s3, '"', "&quot;");
    ReplacingWithRemoves(s1, '<', "&lt;");
    ReplacingWithRemoves(s2, '>', "&gt;");
    ReplacingWithRemoves(s3, '"', "&quot;");
    if '<' in s4 {
      ReplacingWithKeeps(s3, '"', "&quot;", '<');
      ReplacingWithKeeps(s2, '>', "&gt;", '<');
    }
    if '>' in s4 {
      ReplacingWithKeeps(s3, '"', "&quot;", '>');
    }
  }

  /** Reading the four entities back; any other text is kept. */
  function Unescape(s: string): string
    decreases |s|
  {
    if s == [] then []
    else if |s| >= 5 && s[..5] == "&amp;" then "&" + Unescape(s[5..])
    else if |s| >= 4 && s[..4] == "&lt;" then "<" + Unescape(s[4..])
    else if |s| >= 4 && s[..4] == "&gt;" then ">" + Unescape(s[4..])
    else if |s| >= 6 && s[..6] == "&quot;" then "\"" + Unescape(s[6..])
    else [s[0]] + Unescape(s[1..])
  }

  lemma UnescapeAmp(rest: string)
    ensures Unescape("&amp;" + rest) == "&" + Unescape(rest)
  {
    var t := "&amp;" + rest;
    assert t[..5] == "&amp;" && t[5..] == rest;
  }

  lemma UnescapeLt(rest: string)
    ensures Unescape("&lt;" + rest) == "<" + Unescape(rest)
  {
    var t := "&lt;" + rest;
    assert t[..4] == "&lt;" && t[4..] == rest;
    assert t[1] == 'l';
  }

  lemma UnescapeGt(rest: string)
    ensures Unescape("&gt;" + rest) == ">" + Unescape(rest)
  {
    var t := "&gt;" + rest;
    assert t[..4] == "&gt;" && t[4..] == rest;
    assert t[1] == 'g';
  }

  lemma UnescapeQuot(rest: string)
    ensures Unescape("&quot;" + rest) == "\"" + Unescape(rest)
  {
    var t := "&quot;" + rest;
    assert t[..6] == "&quot;" && t[6..] == rest;
    assert t[1] == 'q';
  }

  lemma UnescapePlain(c: char, rest: string)
    requires c != '&'
    ensures Unescape([c] + rest) == [c] + Unescape(rest)
  {
    var t := [c] + rest;
    assert t[0] == c && t[1..] == rest;
  }

  lemma UnescapeStep(c: char, rest: string)
    ensures Unescape(EscapeChar(c) + rest) == [c] + Unescape(rest)
  {
    if c == '&' {
      UnescapeAmp(rest);
    } else if c == '<' {
      UnescapeLt(rest);
    } else if c == '>' {
      UnescapeGt(rest);
    } else if c == '"' {
      UnescapeQuot(rest);
    } else {
      UnescapePlain(c, rest);
    }
  }

  lemma {:induction false} UnescapeEach(s: string)
    ensures Unescape(EscapeEach(s)) == s
  {
    if s != [] {
      UnescapeStep(s[0], EscapeEach(s[1..]));
      UnescapeEach(s[1..]);
    }
  }

  /** Escaping loses nothing: the text can be read back. */
  lemma UnescapeEscape(s: string)
    ensures Unescape(EscapeHTML(s)) == s
  {
    EscapeIsPerChar(s);
    UnescapeEach(s);
  }
}
