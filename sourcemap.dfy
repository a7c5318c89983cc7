/**
 * `SourceMapper`: the byte offset at which each line of the rendered Markdown starts, and
 * the translation of a parser source location (1-based line and column, the column counted
 * in UTF-8 bytes) into a byte offset of the text.
 */
module SourceMap {
  import opened Wrappers
  import Utf8

  type byte = Utf8.byte

  /** A position as the Markdown parser reports it. */
  datatype SourceLocation = SourceLocation(line: int, column: int)

  datatype SourceMapper = SourceMapper(lineStartOffsets: seq<int>)

  /** How many newline bytes the text holds. */
  function NewlineCount(bytes: seq<byte>): nat {
    if bytes == [] then 0
    else NewlineCount(bytes[..|bytes| - 1]) + (if bytes[|bytes| - 1] == 10 then 1 else 0)
  }

  /** The start of the first line, then the offset just after every newline, in order. */
  function LineStarts(bytes: seq<byte>): (r: seq<int>)
    ensures |r| >= 1 && r[0] == 0
  {
    if bytes == [] then [0]
    else
      LineStarts(bytes[..|bytes| - 1]) + (if bytes[|bytes| - 1] == 10 then [|bytes|] else [])
  }

  /** `SourceMapper.init(text:)`: one pass over the UTF-8 bytes of the text. */
  method NewSourceMapper(text: string) returns (m: SourceMapper)
    ensures m.lineStartOffsets == LineStarts(Utf8.Encode(text))
  {
    var bytes := Utf8.Encode(text);
    var offsets := [0];
    var index := 0;
    while index < |bytes|
      invariant index <= |bytes|
      invariant offsets == LineStarts(bytes[..index])
    {
      assert bytes[..index + 1][..index] == bytes[..index];
      if bytes[index] == 10 {
        offsets := offsets + [index + 1];
      }
      index := index + 1;
    }
    assert bytes[..index] == bytes;
    m := SourceMapper(offsets);
  }

  /** One entry per line: the first line, and one more after every newline. */
  lemma {:induction false} LineStartsLength(bytes: seq<byte>)
    ensures |LineStarts(bytes)| == NewlineCount(bytes) + 1
    decreases |bytes|
  {
    if bytes != [] {
      LineStartsLength(bytes[..|bytes| - 1]);
    }
  }

  /** The entries increase strictly, and each one after the first follows a newline. */
  lemma {:induction false} LineStartsOrdered(bytes: seq<byte>)
    ensures forall i, j | 0 <= i < j < |LineStarts(bytes)| :: LineStarts(bytes)[i] < LineStarts(bytes)[j]
    ensures forall k | 0 <= k < |LineStarts(bytes)| :: 0 <= LineStarts(bytes)[k] <= |bytes|
    ensures forall k | 1 <= k < |LineStarts(bytes)| :: bytes[LineStarts(bytes)[k] - 1] == 10
    decreases |bytes|
  {
    if bytes != [] {
      var prefix := bytes[..|bytes| - 1];
      LineStartsOrdered(prefix);
      var r0, r := LineStarts(prefix), LineStarts(bytes);
      assert forall k | 0 <= k < |r0| :: r[k] == r0[k];
      assert forall k | 1 <= k < |r0| :: bytes[r0[k] - 1] == prefix[r0[k] - 1];
    }
  }

  /** No newline is left without the entry that follows it. */
  lemma {:induction false} LineStartsComplete(bytes: seq<byte>, p: nat)
    requires p < |bytes| && bytes[p] == 10
    ensures p + 1 in LineStarts(bytes)
    decreases |bytes|
  {
    var prefix := bytes[..|bytes| - 1];
    var r0, r := LineStarts(prefix), LineStarts(bytes);
    if p < |prefix| {
      assert prefix[p] == 10;
      LineStartsComplete(prefix, p);
      var k :| 0 <= k < |r0| && r0[k] == p + 1;
      assert r[k] == p + 1;
    } else {
      assert r[|r| - 1] == p + 1;
    }
  }

  /** Entry `k` starts line `k + 1`: exactly `k` newlines come before it. */
  lemma {:induction false} LineStartsCount(bytes: seq<byte>, k: nat)
    requires k < |LineStarts(bytes)|
    ensures 0 <= LineStarts(bytes)[k] <= |bytes|
    ensures NewlineCount(bytes[..LineStarts(bytes)[k]]) == k
    decreases |bytes|
  {
    if bytes != [] {
      var prefix := bytes[..|bytes| - 1];
      var r0 := LineStarts(prefix);
      LineStartsOrdered(prefix);
      if k < |r0| {
        LineStartsCount(prefix, k);
        assert LineStarts(bytes)[k] == r0[k];
        assert bytes[..r0[k]] == prefix[..r0[k]];
      } else {
        LineStartsLength(prefix);
        assert LineStarts(bytes)[k] == |bytes| && bytes[|bytes| - 1] == 10;
        assert bytes[..|bytes|] == bytes;
        assert NewlineCount(bytes) == NewlineCount(prefix) + 1;
        assert prefix[..|prefix|] == prefix;
      }
    }
  }

  /** `offset(for:)`: none for a line outside the text, and a column below 1 counts as 1. */
  function Offset(m: SourceMapper, location: SourceLocation): (r: Option<int>)
    ensures r.Some? <==> 1 <= location.line <= |m.lineStartOffsets|
  {
    if location.line <= 0 || location.line > |m.lineStartOffsets| then None
    else
      var column := if location.column - 1 > 0 then location.column - 1 else 0;
      Some(m.lineStartOffsets[location.line - 1] + column)
  }

  /**
   * For the mapper of a text, a location resolves exactly when its line is one of the
   * text's lines, and then it lands `column - 1` bytes after a point that follows
   * `line - 1` newlines and is the start of a line.
   */
  lemma OffsetInText(text: string, location: SourceLocation)
    ensures var bytes := Utf8.Encode(text);
      var m := SourceMapper(LineStarts(bytes));
      var column := if location.column - 1 > 0 then location.column - 1 else 0;
      && (Offset(m, location).Some? <==> 1 <= location.line <= NewlineCount(bytes) + 1)
      && (Offset(m, location).Some? ==>
            var start := Offset(m, location).value - column;
            && 0 <= start <= |bytes|
            && NewlineCount(bytes[..start]) == location.line - 1
            && (start == 0 || bytes[start - 1] == 10))
  {
    var bytes := Utf8.Encode(text);
    LineStartsLength(bytes);
    LineStartsOrdered(bytes);
    if 1 <= location.line <= NewlineCount(bytes) + 1 {
      LineStartsCount(bytes, location.line - 1);
    }
  }
}
