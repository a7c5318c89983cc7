/**
 * `HeadingSlugger`: the anchor id of a heading. `slugify` keeps the ASCII letters and digits
 * of the trimmed, lower-cased title and puts one hyphen wherever anything else separated
 * two of them; `slug` numbers the repeats of a key (`key`, `key-1`, `key-2`, ...).
 */
module Slugs {
  import opened Wrappers
  import opened Text

  /** What `slugify` keeps: ASCII lower-case letters and digits. */
  predicate IsSlugChar(c: char) {
    'a' <= c <= 'z' || '0' <= c <= '9'
  }

  /** The two variables of the `slugify` loop. */
  datatype SlugState = SlugState(result: string, needsHyphen: bool)

  /**
   * One scalar of the loop. A non-ASCII scalar and an ASCII scalar that is neither a letter
   * nor a digit have the same effect: a hyphen is owed before the next kept character.
   */
  function Step(state: SlugState, c: char): SlugState {
    if !(c as int < 128) then SlugState(state.result, true)
    else if IsSlugChar(c) then
      var result := if state.needsHyphen && state.result != [] then state.result + "-" else state.result;
      SlugState(result + [c], false)
    else SlugState(state.result, true)
  }

  /** The loop over a whole text, from the empty result. */
  function Scan(s: string): SlugState {
    if s == [] then SlugState("", false) else Step(Scan(s[..|s| - 1]), s[|s| - 1])
  }

  /** What `slugify` returns. */
  function SlugOf(text: string): string {
    Scan(Lowercased(Trim(text, WhitespacesAndNewlines))).result
  }

  /** `slugify`. */
  method Slugify(text: string) returns (slug: string)
    ensures slug == SlugOf(text)
  {
    var scalars := Lowercased(Trim(text, WhitespacesAndNewlines));
    var result := "";
    var needsHyphen := false;
    var i := 0;
    while i < |scalars|
      invariant i <= |scalars|
      invariant SlugState(result, needsHyphen) == Scan(scalars[..i])
    {
      var c := scalars[i];
      assert scalars[..i + 1][..i] == scalars[..i];
      if !(c as int < 128) {
        needsHyphen := true;
      } else if IsSlugChar(c) {
        if needsHyphen && result != [] {
          result := result + "-";
        }
        needsHyphen := false;
        result := result + [c];
      } else {
        needsHyphen := true;
      }
      i := i + 1;
    }
    assert scalars[..i] == scalars;
    slug := result;
  }

  // ---------------------------------------------------------------------------------
  // The slug is the words of the text joined by hyphens

  /** The text with every character that is not kept turned into a space. */
  function Mask(s: string): (r: string)
    ensures |r| == |s|
  {
    if s == [] then [] else Mask(s[..|s| - 1]) + [if IsSlugChar(s[|s| - 1]) then s[|s| - 1] else ' ']
  }

  /** The maximal runs of kept characters, in order. */
  function Words(s: string): seq<string> {
    SplitOmittingEmpty(Mask(s), ' ')
  }

  /** Where `IndexOf` finds the separator when it is known to be the first one. */
  lemma IndexOfFirst(t: string, sep: char, i: nat)
    requires i < |t| && t[i] == sep && sep !in t[..i]
    ensures IndexOf(t, sep) == Some(i)
  {
  }

  /** A separator at the end opens a new, empty piece. */
  lemma {:induction false} SplitSnocSep(s: string, sep: char)
    ensures Split(s + [sep], sep) == Split(s, sep) + [""]
    decreases |s|
  {
    var t := s + [sep];
    match IndexOf(s, sep)
    case None =>
      assert t[..|s|] == s;
      IndexOfFirst(t, sep, |s|);
      assert t[|s| + 1..] == [];
    case Some(i) =>
      assert t[..i] == s[..i];
      IndexOfFirst(t, sep, i);
      assert t[i + 1..] == s[i + 1..] + [sep];
      SplitSnocSep(s[i + 1..], sep);
  }

  /** Any other character at the end extends the last piece. */
  lemma {:induction false} SplitSnocOther(s: string, c: char, sep: char)
    requires c != sep
    ensures var before := Split(s, sep);
      Split(s + [c], sep) == before[..|before| - 1] + [before[|before| - 1] + [c]]
    decreases |s|
  {
    var t := s + [c];
    match IndexOf(s, sep)
    case None =>
      assert sep !in t;
      assert Split(s, sep)[..0] == [];
    case Some(i) =>
      assert t[..i] == s[..i];
      IndexOfFirst(t, sep, i);
      assert t[i + 1..] == s[i + 1..] + [c];
      SplitSnocOther(s[i + 1..], c, sep);
      var rest := Split(s[i + 1..], sep);
      var before := Split(s, sep);
      var m := |rest|;
      assert before == [s[..i]] + rest;
      var x := rest[m - 1] + [c];
      assert Split(t, sep) == [s[..i]] + (rest[..m - 1] + [x]);
      assert before[..m] == [s[..i]] + rest[..m - 1];
      assert before[m] == rest[m - 1];
      assert [s[..i]] + (rest[..m - 1] + [x]) == before[..m] + [x];
  }

  lemma {:induction false} NonEmptyAppend(a: seq<string>, b: seq<string>)
    ensures NonEmpty(a + b) == NonEmpty(a) + NonEmpty(b)
  {
    if a == [] {
      assert a + b == b;
    } else {
      assert (a + b)[0] == a[0] && (a + b)[1..] == a[1..] + b;
      NonEmptyAppend(a[1..], b);
    }
  }

  lemma {:induction false} JoinSnoc(ws: seq<string>, w: string, sep: char)
    ensures Join(ws + [w], sep) == if ws == [] then w else Join(ws, sep) + [sep] + w
  {
    if |ws| >= 2 {
      assert (ws + [w])[1..] == ws[1..] + [w];
      JoinSnoc(ws[1..], w, sep);
    } else if |ws| == 1 {
      assert (ws + [w])[1..] == [w];
    }
  }

  lemma {:induction false} JoinEmpty(ws: seq<string>, sep: char)
    requires forall i | 0 <= i < |ws| :: ws[i] != []
    ensures Join(ws, sep) == [] <==> ws == []
  {
    if |ws| >= 2 {
      assert Join(ws, sep) == ws[0] + [sep] + Join(ws[1..], sep);
    }
  }

  /** A kept character extends the last piece, and so the last word or a new one. */
  lemma JoinKept(init: seq<string>, last: string, c: char, result: string, needsHyphen: bool)
    requires result == Join(NonEmpty(init + [last]), '-')
    requires last != [] ==> !needsHyphen
    requires last == [] && NonEmpty(init) != [] ==> needsHyphen
    ensures Join(NonEmpty(init + [last + [c]]), '-')
      == (if needsHyphen && result != [] then result + "-" else result) + [c]
  {
    NonEmptyAppend(init, [last]);
    var w := NonEmpty(init);
    NonEmptyAppend(init, [last + [c]]);
    assert [last + [c]][1..] == [];
    assert NonEmpty([last + [c]]) == [last + [c]];
    JoinSnoc(w, last + [c], '-');
    if last == [] {
      assert NonEmpty([last]) == [];
      assert last + [c] == [c];
      assert w + [] == w;
      JoinEmpty(w, '-');
    } else {
      assert [last][1..] == [];
      assert NonEmpty([last]) == [last];
      JoinSnoc(w, last, '-');
      assert Join(w, '-') + "-" + last + [c] == Join(w, '-') + "-" + (last + [c]);
    }
  }

  /** An empty piece adds no word. */
  lemma NonEmptyDropped(pieces: seq<string>)
    ensures NonEmpty(pieces + [""]) == NonEmpty(pieces)
  {
    NonEmptyAppend(pieces, [""]);
    assert NonEmpty([""]) == [];
  }

  /** Whether a hyphen is owed, in terms of the pieces: after an empty last piece, once a word exists. */
  predicate OwesHyphen(pieces: seq<string>, needsHyphen: bool)
    requires |pieces| >= 1
  {
    && (pieces[|pieces| - 1] != [] ==> !needsHyphen)
    && (pieces[|pieces| - 1] == [] && NonEmpty(pieces[..|pieces| - 1]) != [] ==> needsHyphen)
  }

  /** The mask and the loop, one character further. */
  lemma Snoc(prefix: string, c: char)
    ensures Mask(prefix + [c]) == Mask(prefix) + [if IsSlugChar(c) then c else ' ']
    ensures Scan(prefix + [c]) == Step(Scan(prefix), c)
  {
    assert (prefix + [c])[..|prefix|] == prefix;
  }

  lemma ScanWordsKept(prefix: string, c: char)
    requires IsSlugChar(c)
    requires Scan(prefix).result == Join(Words(prefix), '-')
    requires OwesHyphen(Split(Mask(prefix), ' '), Scan(prefix).needsHyphen)
    ensures Scan(prefix + [c]).result == Join(Words(prefix + [c]), '-')
    ensures OwesHyphen(Split(Mask(prefix + [c]), ' '), Scan(prefix + [c]).needsHyphen)
  {
    var s := prefix + [c];
    Snoc(prefix, c);
    var m, ms := Mask(prefix), Mask(s);
    assert ms == m + [c];
    SplitSnocOther(m, c, ' ');
    var pieces, after := Split(m, ' '), Split(ms, ' ');
    KeptResult(pieces, after, c, Scan(prefix), Scan(s));
    assert Words(s) == NonEmpty(after);
  }

  lemma KeptResult(pieces: seq<string>, after: seq<string>, c: char, state: SlugState, next: SlugState)
    requires IsSlugChar(c) && next == Step(state, c) && |pieces| >= 1
    requires after == pieces[..|pieces| - 1] + [pieces[|pieces| - 1] + [c]]
    requires state.result == Join(NonEmpty(pieces), '-')
    requires OwesHyphen(pieces, state.needsHyphen)
    ensures next.result == Join(NonEmpty(after), '-') && OwesHyphen(after, next.needsHyphen)
  {
    var init, last := pieces[..|pieces| - 1], pieces[|pieces| - 1];
    assert pieces == init + [last];
    assert after[..|init|] == init;
    JoinKept(init, last, c, state.result, state.needsHyphen);
  }

  lemma ScanWordsDropped(prefix: string, c: char)
    requires !IsSlugChar(c)
    requires Scan(prefix).result == Join(Words(prefix), '-')
    ensures Scan(prefix + [c]).result == Join(Words(prefix + [c]), '-')
    ensures OwesHyphen(Split(Mask(prefix + [c]), ' '), Scan(prefix + [c]).needsHyphen)
  {
    var s := prefix + [c];
    Snoc(prefix, c);
    SplitSnocSep(Mask(prefix), ' ');
    var pieces := Split(Mask(prefix), ' ');
    NonEmptyDropped(pieces);
    assert (pieces + [""])[..|pieces|] == pieces;
  }

  /**
   * The loop's result is the runs of kept characters joined by single hyphens: nothing
   * before the first word or after the last, one hyphen between two runs however many
   * characters separated them.
   */
  lemma {:induction false} ScanWords(s: string)
    ensures Scan(s).result == Join(Words(s), '-')
    ensures OwesHyphen(Split(Mask(s), ' '), Scan(s).needsHyphen)
    decreases |s|
  {
    if s == [] {
      assert Split(Mask(s), ' ') == [""];
      assert Words(s) == [];
    } else {
      var prefix := s[..|s| - 1];
      var c := s[|s| - 1];
      ScanWords(prefix);
      assert s == prefix + [c];
      if IsSlugChar(c) {
        ScanWordsKept(prefix, c);
      } else {
        ScanWordsDropped(prefix, c);
      }
    }
  }

  /** What `slugify` returns: the words of the trimmed, lower-cased title, joined by hyphens. */
  lemma SlugOfWords(text: string)
    ensures SlugOf(text) == Join(Words(Lowercased(Trim(text, WhitespacesAndNewlines))), '-')
  {
    ScanWords(Lowercased(Trim(text, WhitespacesAndNewlines)));
  }

  /** A slug is made of kept characters and hyphens, with no hyphen at either end or twice. */
  predicate WellFormedSlug(r: string) {
    && (forall i | 0 <= i < |r| :: IsSlugChar(r[i]) || r[i] == '-')
    && (r != [] ==> r[0] != '-' && r[|r| - 1] != '-')
    && (forall i | 0 <= i < |r| - 1 :: !(r[i] == '-' && r[i + 1] == '-'))
  }

  lemma {:induction false} ScanWellFormed(s: string)
    ensures WellFormedSlug(Scan(s).result)
    decreases |s|
  {
    if s != [] {
      ScanWellFormed(s[..|s| - 1]);
    }
  }

  /** A slug of a title is well formed. */
  lemma SlugOfWellFormed(text: string)
    ensures WellFormedSlug(SlugOf(text))
  {
    ScanWellFormed(Lowercased(Trim(text, WhitespacesAndNewlines)));
  }

  // ---------------------------------------------------------------------------------
  // Numbering the repeats of a key

  /** The key of a title: its slug, or `section` when the slug is empty. */
  function AnchorKey(title: string): (key: string)
    ensures key != []
  {
    var base := SlugOf(title);
    if base == [] then "section" else base
  }

  function CountOf(counts: map<string, int>, key: string): int {
    if key in counts then counts[key] else 0
  }

  /** The anchor of the repeat `count` of a key. */
  function Numbered(key: string, count: int): string {
    if count == 0 then key else key + "-" + Decimal(count)
  }

  /** Repeats of one key never share an anchor. */
  lemma NumberedDistinct(key: string, i: nat, j: nat)
    requires i != j
    ensures Numbered(key, i) != Numbered(key, j)
  {
    if i != 0 && j != 0 && Numbered(key, i) == Numbered(key, j) {
      var a, b := Numbered(key, i), Numbered(key, j);
      assert a[|key| + 1..] == Decimal(i) && b[|key| + 1..] == Decimal(j);
      ParseSignedDecimal(i);
      ParseSignedDecimal(j);
    }
  }

  lemma TrimKept(title: string)
    requires title != [] && IsSlugChar(title[0]) && IsSlugChar(title[|title| - 1])
    ensures Trim(title, WhitespacesAndNewlines) == title
  {
    assert !IsBlank(WhitespacesAndNewlines, title[0]);
    assert TrimStart(title, WhitespacesAndNewlines) == title;
    assert !IsBlank(WhitespacesAndNewlines, title[|title| - 1]);
  }

  lemma LowerKept(title: string)
    requires forall i | 0 <= i < |title| :: IsSlugChar(title[i]) || title[i] == ' '
    ensures Lowercased(title) == title
  {
  }

  /** A lower-case title of letters, digits and inner spaces is scanned as it is. */
  lemma TitleKept(title: string)
    requires forall i | 0 <= i < |title| :: IsSlugChar(title[i]) || title[i] == ' '
    requires title != [] && IsSlugChar(title[0]) && IsSlugChar(title[|title| - 1])
    ensures SlugOf(title) == Scan(title).result
  {
    TrimKept(title);
    LowerKept(title);
  }

  /**
   * Keys are not checked against the numbered anchors already handed out: the headings
   * `a`, `a` and `a 1` receive `a`, `a-1` and `a-1`.
   */
  lemma NumberedCollides()
    ensures AnchorKey("a 1") == Numbered(AnchorKey("a"), 1)
  {
    TitleKept("a");
    TitleKept("a 1");
    ScanOne();
    ScanOneSpaceOne();
    assert Decimal(1) == ['1'];
  }

  lemma ScanOne()
    ensures Scan("a") == SlugState("a", false)
  {
    Snoc("", 'a');
    assert "" + ['a'] == "a";
  }

  lemma ScanOneSpaceOne()
    ensures Scan("a 1").result == "a" + "-" + ['1']
  {
    ScanOne();
    Snoc("a", ' ');
    assert "a" + [' '] == "a ";
    Snoc("a ", '1');
    assert "a " + ['1'] == "a 1";
  }

  /** `HeadingSlugger`: how often each key has been handed out. */
  class HeadingSlugger {
    var counts: map<string, int>

    constructor()
      ensures counts == map[]
    {
      counts := map[];
    }

    /** `slug(for:)`: the next anchor for the title's key, which is counted. */
    method Slug(title: string) returns (anchor: string)
      modifies this
      ensures var key := AnchorKey(title);
        && counts == old(counts)[key := CountOf(old(counts), key) + 1]
        && anchor == Numbered(key, CountOf(old(counts), key))
    {
      var base := Slugify(title);
      var key := if base == [] then "section" else base;
      var count := CountOf(counts, key);
      counts := counts[key := count + 1];
      anchor := if count == 0 then key else key + "-" + Decimal(count);
    }
  }
}
