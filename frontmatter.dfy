/**
 * Front matter: a leading block of `key: value` lines between two `---` lines, split off
 * before the Markdown is parsed (`parseFrontMatter`, `contentStartIndex`) and rendered as
 * a table above the document (`renderFrontMatter`).
 */
module FrontMatter {
  import opened Wrappers
  import opened Text
  import Utf8
  import Html

  /**
   * What `parseFrontMatter` returns: the pairs, the text after the block, and the UTF-8
   * offset of that text in the file (reported twice, as the source does).
   */
  datatype FrontMatterInfo = FrontMatterInfo(
    items: seq<(string, string)>,
    content: string,
    contentStartOffset: nat,
    frontMatterEndOffset: nat)

  /** The line that opens and closes the block. */
  function Fence(): string { "---" }

  // ---------------------------------------------------------------------------------
  // Lines of the block

  /**
   * What one line inside the block contributes: it is split at its first colon, and key
   * and value are trimmed of spaces and tabs; a line without a colon, or whose key is
   * blank, contributes nothing.
   */
  function Entry(line: string): (r: Option<(string, string)>)
    ensures ':' !in line ==> r.None?
    ensures forall k | 0 <= k < |line| && line[k] == ':' && ':' !in line[..k] ::
      r == (if Trim(line[..k], Whitespaces) == [] then None
            else Some((Trim(line[..k], Whitespaces), Trim(line[k + 1..], Whitespaces))))
  {
    match IndexOf(line, ':')
    case None => None
    case Some(k) =>
      assert forall j | 0 <= j < |line| && line[j] == ':' && ':' !in line[..j] :: j == k by {
        forall j | 0 <= j < |line| && line[j] == ':' && ':' !in line[..j] ensures j == k {
          if j < k {
            assert false;
          }
        }
      }
      var key := Trim(line[..k], Whitespaces);
      if key == [] then None else Some((key, Trim(line[k + 1..], Whitespaces)))
  }

  /** The pairs of a run of lines, in order (folded from the back, as the loop appends). */
  function Entries(ls: seq<string>): (r: seq<(string, string)>)
    ensures |r| <= |ls|
    ensures forall i | 0 <= i < |r| :: r[i].0 != []
  {
    if ls == [] then []
    else
      Entries(ls[..|ls| - 1]) + (match Entry(ls[|ls| - 1]) case Some(e) => [e] case None => [])
  }

  /** Lines contribute independently and in order. */
  lemma {:induction false} EntriesAppend(a: seq<string>, b: seq<string>)
    ensures Entries(a + b) == Entries(a) + Entries(b)
    decreases |b|
  {
    if b == [] {
      assert a + b == a;
    } else {
      assert (a + b)[..|a + b| - 1] == a + b[..|b| - 1];
      EntriesAppend(a, b[..|b| - 1]);
    }
  }

  /** The first fence line among `ls`. */
  function FenceIndex(ls: seq<string>): (r: Option<nat>)
    ensures r.Some? ==> r.value < |ls| && ls[r.value] == Fence() && Fence() !in ls[..r.value]
    ensures r.None? ==> Fence() !in ls
  {
    if ls == [] then None
    else if ls[0] == Fence() then Some(0)
    else match FenceIndex(ls[1..])
      case None => None
      case Some(k) => assert ls[..k + 1] == [ls[0]] + ls[1..][..k]; Some(k + 1)
  }

  lemma FenceIndexIs(ls: seq<string>, k: nat)
    requires k < |ls| && ls[k] == Fence() && Fence() !in ls[..k]
    ensures FenceIndex(ls) == Some(k)
  {

  }

  // ---------------------------------------------------------------------------------
  // Where the content starts

  /**
   * The position reached from `i` by passing `n` newlines, or the end of the text when
   * fewer remain: the `while` loop of `contentStartIndex`, searching for the scalar line
   * feed, which is where the lines are split.
   */
  function SkipLines(s: string, i: nat, n: nat): (r: nat)
    requires i <= |s|
    ensures i <= r <= |s|
    decreases n
  {
    if n == 0 || i == |s| then i
    else match IndexOfFrom(s, '\n', i)
      case None => |s|
      case Some(p) => SkipLines(s, p + 1, n - 1)
  }

  /**
   * The `while` loop of `contentStartIndex` as written: `firstIndex(of: "\n")` compares
   * Characters, so it passes over the line feed of a "\r\n", where the split of the lines
   * does not (see Findings). A Character always ends after a line feed, so the Characters
   * of `markdown[index...]` are those of the whole text from `index` on.
   */
  function SkipLinesAsWritten(s: string, i: nat, n: nat): (r: nat)
    requires i <= |s|
    ensures i <= r <= |s|
    decreases n
  {
    if n == 0 || i == |s| then i
    else match IndexOfLineFeed(s, i)
      case None => |s|
      case Some(p) => SkipLinesAsWritten(s, p + 1, n - 1)
  }

  /** On text whose lines end in line feeds alone, the loop as written reaches `SkipLines`. */
  lemma {:induction false} SkipLinesAgree(s: string, i: nat, n: nat)
    requires i <= |s| && NoCrLf(s)
    ensures SkipLinesAsWritten(s, i, n) == SkipLines(s, i, n)
    decreases n
  {
    if n > 0 && i < |s| {
      match IndexOfFrom(s, '\n', i)
      case None =>
        LineFeedAgrees(s, i);
        SkipLinesEnd(s, i, n);
      case Some(p) =>
        calc {
          SkipLinesAsWritten(s, i, n);
          { LineFeedAgrees(s, i); SkipLinesAsWrittenStep(s, i, n, p); }
          SkipLinesAsWritten(s, p + 1, n - 1);
          { SkipLinesAgree(s, p + 1, n - 1); }
          SkipLines(s, p + 1, n - 1);
          { SkipLinesStep(s, i, n, p); }
          SkipLines(s, i, n);
        }
    }
  }

  /** A front-matter block with the one line `line`, ended by "\r\n", then `body`. */
  function CrLfBlock(line: string, body: string): string {
    Fence() + "\n" + (line + "\r") + "\n" + (Fence() + "\n" + body)
  }

  /**
   * When a front-matter line ends in "\r\n" and the body is one line, the content is the
   * body and its offset is where the body starts, but the loop as written passes the line
   * feed of the "\r\n" and then one more, and so reports the end of the file.
   */
  lemma CrLfContentOffset(line: string, body: string)
    requires '\n' !in line && '\n' !in body && body != []
    ensures var s := CrLfBlock(line, body);
      && FrontMatterOf(s).content == body == s[|s| - |body|..]
      && FrontMatterOf(s).contentStartOffset == Utf8.Utf8Len(s[..|s| - |body|])
      && SkipLinesAsWritten(s, 0, 3) == |s| > |s| - |body|
  {
    var s := CrLfBlock(line, body);
    CrLfLines(line, body);
    var lines := Split(s, '\n');
    assert line + "\r" != Fence() by {
      assert (line + "\r")[|line|] == '\r';
    }
    FenceIndexIs(lines[1..], 1);
    assert lines[3..] == [body];
    CrLfSkipLines(line, body);
    CrLfAsWritten(line, body);
  }

  /** The characters of `CrLfBlock(line, body)`, position by position. */
  lemma CrLfChars(line: string, body: string)
    ensures var s, n := CrLfBlock(line, body), |line|;
      && |s| == n + 10 + |body|
      && s[0] == '-' && s[1] == '-' && s[2] == '-' && s[3] == '\n'
      && (forall k | 0 <= k < n :: s[4 + k] == line[k])
      && s[n + 4] == '\r' && s[n + 5] == '\n'
      && s[n + 6] == '-' && s[n + 7] == '-' && s[n + 8] == '-' && s[n + 9] == '\n'
      && s[n + 10..] == body
  {
    var u := Fence() + "\n" + (line + "\r") + "\n";
    var s := u + (Fence() + "\n" + body);
    assert CrLfBlock(line, body) == s;
    assert |u| == |line| + 6;
    forall k | 0 <= k < |line| ensures s[4 + k] == line[k] {
      assert s[4 + k] == u[4 + k];
    }
  }

  /** Where the split of `CrLfBlock(line, body)` finds its line feeds. */
  lemma CrLfBreaks(line: string, body: string)
    requires '\n' !in line
    ensures var s, n := CrLfBlock(line, body), |line|;
      && IndexOf(s[0..], '\n') == Some(3) && s[0..3] == Fence()
      && IndexOf(s[4..], '\n') == Some(n + 1) && s[4..n + 5] == line + "\r"
      && IndexOf(s[n + 6..], '\n') == Some(3) && s[n + 6..n + 9] == Fence()
      && s[n + 10..] == body
  {
    var s, n := CrLfBlock(line, body), |line|;
    CrLfChars(line, body);
    assert s[0..] == s;
    IndexOfIs(s, '\n', 3);
    var t := s[4..];
    forall j | 0 <= j < n + 1 ensures t[j] != '\n' {
      if j < n {
        assert t[j] == line[j];
      }
    }
    IndexOfIs(t, '\n', n + 1);
    var v := s[n + 6..];
    IndexOfIs(v, '\n', 3);
    assert s[4..n + 5] == line + "\r";
  }

  /** The lines of `CrLfBlock(line, body)`: the line keeps its carriage return. */
  lemma CrLfLines(line: string, body: string)
    requires '\n' !in line && '\n' !in body
    ensures Split(CrLfBlock(line, body), '\n') == [Fence(), line + "\r", Fence(), body]
  {
    var s, n := CrLfBlock(line, body), |line|;
    CrLfBreaks(line, body);
    calc {
      Split(s, '\n');
      { assert s[0..] == s; SplitPastLine(s, 0, 3, 4); }
      [s[0..3]] + Split(s[4..], '\n');
      { SplitPastLine(s, 4, n + 1, n + 6); }
      [s[0..3]] + ([s[4..n + 5]] + Split(s[n + 6..], '\n'));
      { SplitPastLine(s, n + 6, 3, n + 10); }
      [s[0..3]] + ([s[4..n + 5]] + ([s[n + 6..n + 9]] + Split(s[n + 10..], '\n')));
      { assert IndexOf(s[n + 10..], '\n') == None; }
      [Fence(), line + "\r", Fence(), body];
    }
  }

  /** `SkipLines` passes three line feeds and lands where the body starts. */
  lemma CrLfSkipLines(line: string, body: string)
    requires '\n' !in line
    ensures var s := CrLfBlock(line, body); SkipLines(s, 0, 3) == |s| - |body|
  {
    var s, n := CrLfBlock(line, body), |line|;
    CrLfChars(line, body);
    IndexOfFromIs(s, '\n', 0, 3);
    forall k | 4 <= k < n + 5 ensures s[k] != '\n' {
      if k < n + 4 {
        assert s[4 + (k - 4)] == line[k - 4];
      }
    }
    IndexOfFromIs(s, '\n', 4, n + 5);
    IndexOfFromIs(s, '\n', n + 6, n + 9);
    SkipLinesStep(s, 0, 3, 3);
    SkipLinesStep(s, 4, 2, n + 5);
    SkipLinesStep(s, n + 6, 1, n + 9);
  }

  /** The loop as written passes the `---` line feed second, and then finds none in the body. */
  lemma CrLfAsWritten(line: string, body: string)
    requires '\n' !in line && '\n' !in body
    ensures var s := CrLfBlock(line, body); SkipLinesAsWritten(s, 0, 3) == |s|
  {
    var s, n := CrLfBlock(line, body), |line|;
    CrLfChars(line, body);
    IndexOfLineFeedIs(s, 0, 3);
    forall k | 4 <= k < n + 9 ensures !LoneLineFeed(s, k) {
      if k < n + 4 {
        assert s[4 + (k - 4)] == line[k - 4];
      }
    }
    IndexOfLineFeedIs(s, 4, n + 9);
    forall k | n + 10 <= k < |s| ensures !LoneLineFeed(s, k) {
      assert s[k] == s[n + 10..][k - (n + 10)];
    }
    assert IndexOfLineFeed(s, n + 10).None?;
    SkipLinesAsWrittenStep(s, 0, 3, 3);
    SkipLinesAsWrittenStep(s, 4, 2, n + 9);
  }

  /** One pass of the loop as written. */
  lemma SkipLinesAsWrittenStep(s: string, i: nat, n: nat, p: nat)
    requires i < |s| && 0 < n && IndexOfLineFeed(s, i) == Some(p)
    ensures SkipLinesAsWritten(s, i, n) == SkipLinesAsWritten(s, p + 1, n - 1)
  {
  }

  /**
   * `contentStartIndex(in:endIndex:)`, as a position in the text, with the corrected search
   * that stops at every line feed (`SkipLines`); the loop as written is `SkipLinesAsWritten`.
   */
  method ContentStartIndex(markdown: string, endIndex: nat) returns (index: nat)
    ensures index == SkipLines(markdown, 0, endIndex)
  {
    if endIndex == 0 {
      return 0;
    }
    index := 0;
    var linesToSkip := endIndex;
    ghost var target := SkipLines(markdown, 0, endIndex);
    while linesToSkip > 0 && index < |markdown|
      invariant index <= |markdown|
      invariant SkipLines(markdown, index, linesToSkip) == target
      decreases linesToSkip
    {
      var newlineIndex := NextNewline(markdown, index, linesToSkip);
      if newlineIndex.None? {
        return |markdown|;
      }
      index := newlineIndex.value + 1;
      linesToSkip := linesToSkip - 1;
    }
  }

  /**
   * One pass of the corrected loop: the next line feed at or after `index`, as a position in
   * the whole text. Unlike `markdown[index...].firstIndex(of: "\n")`, which compares
   * Characters (`IndexOfLineFeed`), it also stops at the line feed of a "\r\n".
   */
  method NextNewline(markdown: string, index: nat, linesToSkip: nat) returns (next: Option<nat>)
    requires index < |markdown| && 0 < linesToSkip
    ensures next.None? ==> '\n' !in markdown[index..]
    ensures next.None? ==> SkipLines(markdown, index, linesToSkip) == |markdown|
    ensures next.Some? ==> index <= next.value < |markdown| && markdown[next.value] == '\n'
    ensures next.Some? ==> '\n' !in markdown[index..next.value]
    ensures next.Some? ==>
      SkipLines(markdown, index, linesToSkip) == SkipLines(markdown, next.value + 1, linesToSkip - 1)
  {
    next := IndexOfFrom(markdown, '\n', index);
    IndexOfFromSlice(markdown, '\n', index);
    if next.None? {
      SkipLinesEnd(markdown, index, linesToSkip);
    } else {
      assert markdown[index..next.value] == markdown[index..][..next.value - index];
      SkipLinesStep(markdown, index, linesToSkip, next.value);
    }
  }

  /** One pass of the loop: past the next newline, one line fewer to skip. */
  lemma SkipLinesStep(s: string, i: nat, n: nat, p: nat)
    requires i < |s| && 0 < n && IndexOfFrom(s, '\n', i) == Some(p)
    ensures p + 1 <= |s| && SkipLines(s, i, n) == SkipLines(s, p + 1, n - 1)
  {
  }

  /** Without another newline the loop ends at the end of the text. */
  lemma SkipLinesEnd(s: string, i: nat, n: nat)
    requires i < |s| && 0 < n && IndexOfFrom(s, '\n', i) == None
    ensures SkipLines(s, i, n) == |s|
  {
  }

  /**
   * Passing `n` newlines from `i` lands where the text of the remaining lines begins:
   * joining all but the first `n` lines gives back the rest of the text.
   */
  lemma {:induction false} SkipLinesJoin(s: string, i: nat, n: nat)
    requires i <= |s| && n <= |Split(s[i..], '\n')|
    ensures Join(Split(s[i..], '\n')[n..], '\n') == s[SkipLines(s, i, n)..]
    decreases n
  {
    if n == 0 || i == |s| {
      SkipLinesJoinLast(s, i, n);
    } else if IndexOfFrom(s, '\n', i).None? {
      SkipLinesJoinLast(s, i, n);
    } else {
      var p := JoinStep(s, i, n);
      SkipLinesJoin(s, p + 1, n - 1);
      calc {
        Join(Split(s[i..], '\n')[n..], '\n');
        Join(Split(s[p + 1..], '\n')[n - 1..], '\n');
        s[SkipLines(s, p + 1, n - 1)..];
        s[SkipLines(s, i, n)..];
      }
    }
  }

  /** Past the next newline, the lines left to join are the same and one fewer is to be passed. */
  lemma JoinStep(s: string, i: nat, n: nat) returns (p: nat)
    requires i < |s| && 0 < n <= |Split(s[i..], '\n')| && IndexOfFrom(s, '\n', i).Some?
    ensures p + 1 <= |s| && n - 1 <= |Split(s[p + 1..], '\n')|
    ensures Split(s[i..], '\n')[n..] == Split(s[p + 1..], '\n')[n - 1..]
    ensures SkipLines(s, i, n) == SkipLines(s, p + 1, n - 1)
  {
    p := IndexOfFrom(s, '\n', i).value;
    IndexOfFromSlice(s, '\n', i);
    var k := IndexOf(s[i..], '\n').value;
    assert p == i + k;
    SkipLinesStep(s, i, n, p);
    SplitPastLine(s, i, k, p + 1);
    var rest := Split(s[p + 1..], '\n');
    assert Split(s[i..], '\n') == [s[i..p]] + rest;
    DropFirst(s[i..p], rest, n);
  }

  /** Dropping `n` from a list with one more element in front drops `n - 1` from the rest. */
  lemma DropFirst<T>(x: T, xs: seq<T>, n: nat)
    requires 0 < n <= |xs| + 1
    ensures ([x] + xs)[n..] == xs[n - 1..]
  {
  }

  /** The cases without a further newline to pass. */
  lemma SkipLinesJoinLast(s: string, i: nat, n: nat)
    requires i <= |s| && n <= |Split(s[i..], '\n')|
    requires n == 0 || i == |s| || IndexOfFrom(s, '\n', i).None?
    ensures Join(Split(s[i..], '\n')[n..], '\n') == s[SkipLines(s, i, n)..]
  {
    var t := s[i..];
    var lines := Split(t, '\n');
    if n == 0 {
      assert lines[0..] == lines;
      JoinSplit(t, '\n');
      assert SkipLines(s, i, 0) == i;
    } else if i == |s| {
      assert t == [];
      assert lines == [[]];
      assert SkipLines(s, i, n) == i;
      assert lines[n..] == [];
    } else {
      IndexOfFromSlice(s, '\n', i);
      assert lines == [t];
      assert SkipLines(s, i, n) == |s|;
      assert lines[n..] == [];
    }
  }

  /** The lines from `i` on are the line ending at the next newline, then the lines after it. */
  lemma SplitPastLine(s: string, i: nat, k: nat, j: nat)
    requires i < |s| && IndexOf(s[i..], '\n') == Some(k) && j == i + k + 1
    ensures j <= |s| && Split(s[i..], '\n') == [s[i..i + k]] + Split(s[j..], '\n')
  {
    var t := s[i..];
    assert t[k + 1..] == s[j..];
    assert t[..k] == s[i..i + k];
  }

  /** Joining lines around a split point puts back the separator between the two halves. */
  lemma {:induction false} JoinAt(ls: seq<string>, n: nat, sep: char)
    requires 1 <= n < |ls|
    ensures Join(ls, sep) == Join(ls[..n], sep) + [sep] + Join(ls[n..], sep)
    decreases n
  {
    if n > 1 {
      assert ls[1..][..n - 1] == ls[1..n];
      assert ls[1..][n - 1..] == ls[n..];
      JoinAt(ls[1..], n - 1, sep);
      assert ls[..n][1..] == ls[1..n];
    }
  }

  // ---------------------------------------------------------------------------------
  // parseFrontMatter

  /**
   * The pairs of the lines after the opening fence, up to the closing fence or to the end,
   * and the index (among all lines) of the first line after the closing fence, or 0.
   */
  function Block(body: seq<string>): (r: (seq<(string, string)>, nat))
    ensures r.1 <= |body| + 1
  {
    match FenceIndex(body)
    case Some(k) => (Entries(body[..k]), k + 2)
    case None => (Entries(body), 0)
  }

  /** What `parseFrontMatter` computes. */
  function FrontMatterOf(markdown: string): FrontMatterInfo {
    var lines := Split(markdown, '\n');
    if lines[0] != Fence() then FrontMatterInfo([], markdown, 0, 0)
    else
      var (items, endIndex) := Block(lines[1..]);
      var offset := Utf8.Utf8Len(markdown[..SkipLines(markdown, 0, endIndex)]);
      FrontMatterInfo(items, Join(lines[endIndex..], '\n'), offset, offset)
  }

  /** The `for` loop of `parseFrontMatter`, over the lines after the opening fence. */
  method ScanBlock(body: seq<string>) returns (frontMatter: seq<(string, string)>, endIndex: nat)
    ensures (frontMatter, endIndex) == Block(body)
  {
    frontMatter := [];
    endIndex := 0;
    var index := 0;
    while index < |body|
      invariant index <= |body|
      invariant forall j | 0 <= j < index :: body[j] != Fence()
      invariant frontMatter == Entries(body[..index])
    {
      var line := body[index];
      if line == Fence() {
        assert Fence() !in body[..index];
        FenceIndexIs(body, index);
        endIndex := index + 2;
        return;
      }
      EntriesNext(body, index);
      match Entry(line) {
        case Some(e) =>
          frontMatter := frontMatter + [e];
        case None =>
      }
      index := index + 1;
    }
    assert body[..index] == body;
    assert Fence() !in body;
  }

  /** One more line: its pair, if it has one, comes after those of the lines before it. */
  lemma EntriesNext(ls: seq<string>, i: nat)
    requires i < |ls|
    ensures Entries(ls[..i + 1]) ==
      Entries(ls[..i]) + (match Entry(ls[i]) case Some(e) => [e] case None => [])
  {
    assert ls[..i + 1][..i] == ls[..i];
  }

  /** `parseFrontMatter`. */
  method ParseFrontMatter(markdown: string) returns (info: FrontMatterInfo)
    ensures info == FrontMatterOf(markdown)
  {
    var lines := Split(markdown, '\n');
    if lines[0] != Fence() {
      return FrontMatterInfo([], markdown, 0, 0);
    }
    var frontMatter, endIndex := ScanBlock(lines[1..]);
    var content := Join(lines[endIndex..], '\n');
    var start := ContentStartIndex(markdown, endIndex);
    var contentStartOffset := Utf8.Utf8Len(markdown[..start]);
    info := FrontMatterInfo(frontMatter, content, contentStartOffset, contentStartOffset);
  }

  /**
   * Without front matter — the first line is not exactly `---`, or no later line is — the
   * content is the whole text and both offsets are 0. Pairs are still collected in the second case.
   */
  lemma FrontMatterAbsent(markdown: string)
    requires var lines := Split(markdown, '\n'); lines[0] != Fence() || Fence() !in lines[1..]
    ensures FrontMatterOf(markdown).content == markdown
    ensures FrontMatterOf(markdown).contentStartOffset == 0
    ensures FrontMatterOf(markdown).frontMatterEndOffset == 0
    ensures var lines := Split(markdown, '\n');
      FrontMatterOf(markdown).items == if lines[0] != Fence() then [] else Entries(lines[1..])
  {
    var lines := Split(markdown, '\n');
    if lines[0] == Fence() {
      assert lines[0..] == lines;
      JoinSplit(markdown, '\n');
      assert markdown[..0] == [];
    }
  }

  /**
   * With a closing fence at line `k + 1`, the pairs come from the lines between the fences,
   * the content is the text from byte `contentStartOffset` on, and that offset is the
   * UTF-8 length of the first `k + 2` lines with their newlines.
   */
  lemma FrontMatterClosed(markdown: string, k: nat)
    requires var lines := Split(markdown, '\n');
      lines[0] == Fence() && k + 1 < |lines| && lines[k + 1] == Fence() && Fence() !in lines[1..k + 1]
    ensures var info, lines := FrontMatterOf(markdown), Split(markdown, '\n');
      && info.items == Entries(lines[1..k + 1])
      && info.contentStartOffset <= Utf8.Utf8Len(markdown)
      && Utf8.Encode(info.content) == Utf8.Encode(markdown)[info.contentStartOffset..]
      && info.contentStartOffset == info.frontMatterEndOffset
      && info.contentStartOffset == Utf8.Utf8Len(Join(lines[..k + 2], '\n')) + (if k + 2 < |lines| then 1 else 0)
  {
    var lines := Split(markdown, '\n');
    assert lines[1..][k] == Fence();
    assert lines[1..][..k] == lines[1..k + 1];
    FenceIndexIs(lines[1..], k);
    assert Block(lines[1..]) == (Entries(lines[1..k + 1]), k + 2);
    ContentAfterLines(markdown, k + 2);
  }

  /**
   * The text after the first `n` lines, and its offset: the UTF-8 length of those lines
   * with their newlines.
   */
  lemma ContentAfterLines(markdown: string, n: nat)
    requires 0 < n <= |Split(markdown, '\n')|
    ensures var lines, p := Split(markdown, '\n'), SkipLines(markdown, 0, n);
      && Join(lines[n..], '\n') == markdown[p..]
      && Utf8.Utf8Len(markdown[..p]) <= Utf8.Utf8Len(markdown)
      && Utf8.Encode(markdown[p..]) == Utf8.Encode(markdown)[Utf8.Utf8Len(markdown[..p])..]
      && Utf8.Utf8Len(markdown[..p]) == Utf8.Utf8Len(Join(lines[..n], '\n')) + (if n < |lines| then 1 else 0)
  {
    var p := SkipLines(markdown, 0, n);
    assert markdown[0..] == markdown;
    SkipLinesJoin(markdown, 0, n);
    Utf8.EncodeSuffix(markdown, p);
    FrontLength(markdown, n, p);
  }

  /** The text before the remaining lines is the first `n` lines and, if more follow, a newline. */
  lemma FrontLength(markdown: string, n: nat, p: nat)
    requires 0 < n <= |Split(markdown, '\n')| && p <= |markdown|
    requires Join(Split(markdown, '\n')[n..], '\n') == markdown[p..]
    ensures var lines := Split(markdown, '\n');
      Utf8.Utf8Len(markdown[..p]) == Utf8.Utf8Len(Join(lines[..n], '\n')) + (if n < |lines| then 1 else 0)
  {
    var lines := Split(markdown, '\n');
    var content := Join(lines[n..], '\n');
    JoinSplit(markdown, '\n');
    if n < |lines| {
      JoinAt(lines, n, '\n');
      var front := Join(lines[..n], '\n') + "\n";
      assert markdown == front + content;
      assert |front| == p;
      assert markdown[..p] == front;
      Utf8.Utf8LenAppend(Join(lines[..n], '\n'), "\n");
    } else {
      assert lines[..n] == lines;
      assert content == [];
      assert markdown[..p] == markdown;
    }
  }

  // ---------------------------------------------------------------------------------
  // renderFrontMatter

  /**
   * Foundation's `capitalized`, for ASCII letters: the first letter of each word upper
   * case, every other letter lower case, words separated by white space.
   */
  function Capitalized(s: string, atWordStart: bool := true): (r: string)
    ensures |r| == |s|
    ensures forall i | 0 <= i < |s| ::
      r[i] == if WordStart(s, i, atWordStart) then UpperChar(s[i]) else LowerChar(s[i])
  {
    if s == [] then []
    else
      var rest := Capitalized(s[1..], IsWhitespaceOrNewline(s[0]));
      var r := [if atWordStart then UpperChar(s[0]) else LowerChar(s[0])] + rest;
      assert forall i | 1 <= i < |s| ::
        (r[i] == rest[i - 1] && s[i] == s[1..][i - 1]
         && WordStart(s, i, atWordStart) == WordStart(s[1..], i - 1, IsWhitespaceOrNewline(s[0])));
      r
  }

  /** A word starts at `i`: at the front when `atFront` says so, else right after white space. */
  predicate WordStart(s: string, i: nat, atFront: bool)
    requires i < |s|
  {
    if i == 0 then atFront else IsWhitespaceOrNewline(s[i - 1])
  }

  /** The key as shown: underscores become spaces, then words are capitalised. */
  function DisplayKey(key: string): string {
    Capitalized(Html.ReplacingWith(key, '_', " "))
  }

  function TableOpen(): string {
    "<div class=\"front-matter\" " + "data-mv-frontmatter=\"true\">\n" + "<table class=\"front-matter-table\">"
  }
  function TableClose(): string { "</table></div>\n" }
  function KeyOpen(): string { "<tr><td class=\"fm-key\">" }
  function ValueOpen(): string { "</td><td class=\"fm-value\">" }
  function RowClose(): string { "</td></tr>\n" }

  /** One table row. */
  function Row(item: (string, string)): string {
    KeyOpen() + Html.EscapeHTML(DisplayKey(item.0)) + ValueOpen() + Html.EscapeHTML(item.1) + RowClose()
  }

  /** The texts `f` gives for `xs`, concatenated in order (folded from the back, as a loop appends). */
  function ConcatMap<T>(f: T -> string, xs: seq<T>): string {
    if xs == [] then ""
    else ConcatMap(f, xs[..|xs| - 1]) + f(xs[|xs| - 1])
  }

  /** What `renderFrontMatter` returns. */
  function FrontMatterHtml(items: seq<(string, string)>): string {
    if items == [] then "" else TableOpen() + ConcatMap(Row, items) + TableClose()
  }

  /** `renderFrontMatter`: the table opening, one row per pair, the table closing. */
  method RenderFrontMatter(frontMatter: seq<(string, string)>) returns (html: string)
    ensures html == FrontMatterHtml(frontMatter)
  {
    if frontMatter == [] {
      return "";
    }
    html := AppendEach(TableOpen(), Row, frontMatter);
    html := html + TableClose();
  }

  /** The `for` loop of `renderFrontMatter`: appends the text of each element in turn. */
  method AppendEach<T>(start: string, f: T -> string, xs: seq<T>) returns (html: string)
    ensures html == start + ConcatMap(f, xs)
  {
    html := start;
    var i := 0;
    while i < |xs|
      invariant i <= |xs|
      invariant html == start + ConcatMap(f, xs[..i])
    {
      ConcatMapSnoc(f, xs[..i], xs[i]);
      assert xs[..i + 1] == xs[..i] + [xs[i]];
      html := html + f(xs[i]);
      i := i + 1;
    }
    assert xs[..i] == xs;
  }

  lemma ConcatMapSnoc<T>(f: T -> string, xs: seq<T>, x: T)
    ensures ConcatMap(f, xs + [x]) == ConcatMap(f, xs) + f(x)
  {
    assert (xs + [x])[..|xs|] == xs;
  }

  /** Pieces are rendered independently and in order. */
  lemma {:induction false} ConcatMapAppend<T>(f: T -> string, a: seq<T>, b: seq<T>)
    ensures ConcatMap(f, a + b) == ConcatMap(f, a) + ConcatMap(f, b)
    decreases |b|
  {
    if b == [] {
      assert a + b == a;
    } else {
      assert (a + b)[..|a + b| - 1] == a + b[..|b| - 1];
      ConcatMapAppend(f, a, b[..|b| - 1]);
    }
  }

  /** The text of element `i` sits right after the texts of the elements before it. */
  lemma ConcatMapAt<T>(f: T -> string, xs: seq<T>, i: nat)
    requires i < |xs|
    ensures var at := |ConcatMap(f, xs[..i])|;
      at + |f(xs[i])| <= |ConcatMap(f, xs)| && ConcatMap(f, xs)[at..at + |f(xs[i])|] == f(xs[i])
  {
    assert xs == xs[..i] + [xs[i]] + xs[i + 1..];
    ConcatMapAppend(f, xs[..i] + [xs[i]], xs[i + 1..]);
    ConcatMapSnoc(f, xs[..i], xs[i]);
  }

  /**
   * Each cell of a row holds its text escaped: the cells contain no markup of their own,
   * and unescaping a cell gives back the displayed key and the value.
   */
  lemma RowCells(key: string, value: string)
    ensures var row, k := Row((key, value)), Html.EscapeHTML(DisplayKey(key));
      var v := Html.EscapeHTML(value);
      var kEnd := |KeyOpen()| + |k|;
      var vStart := kEnd + |ValueOpen()|;
      && |row| == vStart + |v| + |RowClose()|
      && Html.Unescape(row[|KeyOpen()|..kEnd]) == DisplayKey(key)
      && Html.Unescape(row[vStart..vStart + |v|]) == value
      && '<' !in row[|KeyOpen()|..kEnd] && '<' !in row[vStart..vStart + |v|]
  {
    var k, v := Html.EscapeHTML(DisplayKey(key)), Html.EscapeHTML(value);
    var row := Row((key, value));
    var kEnd := |KeyOpen()| + |k|;
    var vStart := kEnd + |ValueOpen()|;
    assert row[|KeyOpen()|..kEnd] == k;
    assert row[vStart..vStart + |v|] == v;
    Html.UnescapeEscape(DisplayKey(key));
    Html.UnescapeEscape(value);
    Html.EscapeHasNoMarkup(DisplayKey(key));
    Html.EscapeHasNoMarkup(value);
  }
}
