/**
 * UTF-8: the byte length of text, its encoding and decoding, and the translation of a
 * byte offset into a position in the text (`indexForUTF8Offset`).
 */
module Utf8 {
  import opened Wrappers

  newtype byte = x: int | 0 <= x < 256

  /** Number of UTF-8 bytes that encode one Unicode scalar value. */
  function CharBytes(c: char): (n: nat)
    ensures 1 <= n <= 4
  {
    if c as int < 0x80 then 1
    else if c as int < 0x800 then 2
    else if c as int < 0x1_0000 then 3
    else 4
  }

  /** `s.utf8.count`. */
  function Utf8Len(s: string): (n: nat)
    ensures n >= |s|
  {
    if s == [] then 0 else CharBytes(s[0]) + Utf8Len(s[1..])
  }

  lemma {:induction false} Utf8LenAppend(a: string, b: string)
    ensures Utf8Len(a + b) == Utf8Len(a) + Utf8Len(b)
  {
    if a == [] {
      assert a + b == b;
    } else {
      assert (a + b)[0] == a[0];
      assert (a + b)[1..] == a[1..] + b;
      Utf8LenAppend(a[1..], b);
    }
  }

  /** ASCII text has one byte per character. */
  lemma {:induction false} Utf8LenAscii(s: string)
    requires forall i | 0 <= i < |s| :: s[i] as int < 0x80
    ensures Utf8Len(s) == |s|
  {
    if s != [] {
      Utf8LenAscii(s[1..]);
    }
  }

  /** The bytes of a suffix are the bytes of the text after those of the prefix before it. */
  lemma EncodeSuffix(s: string, p: nat)
    requires p <= |s|
    ensures Utf8Len(s[..p]) <= Utf8Len(s)
    ensures Encode(s[p..]) == Encode(s)[Utf8Len(s[..p])..]
  {
    assert s == s[..p] + s[p..];
    EncodeAppend(s[..p], s[p..]);
    Utf8LenAppend(s[..p], s[p..]);
  }

  /** Byte lengths of longer prefixes are strictly larger. */
  lemma {:induction false} Utf8LenPrefixMonotone(s: string, i: nat, j: nat)
    requires i < j <= |s|
    ensures Utf8Len(s[..i]) < Utf8Len(s[..j])
  {
    assert s[..j] == s[..i] + s[i..j];
    Utf8LenAppend(s[..i], s[i..j]);
  }

  /** Whether `v` is a Unicode scalar value (a code point that is not a surrogate). */
  predicate IsScalar(v: int) {
    (0 <= v < 0xD800) || (0xE000 <= v < 0x11_0000)
  }

  predicate IsContinuation(b: byte) { 0x80 <= b < 0xC0 }

  function EncodeChar(c: char): (bs: seq<byte>)
    ensures |bs| == CharBytes(c)
  {
    var v := c as int;
    if v < 0x80 then [v as byte]
    else if v < 0x800 then [(0xC0 + v / 64) as byte, (0x80 + v % 64) as byte]
    else if v < 0x1_0000 then
      [(0xE0 + v / 4096) as byte, (0x80 + (v / 64) % 64) as byte, (0x80 + v % 64) as byte]
    else
      [(0xF0 + v / 262144) as byte, (0x80 + (v / 4096) % 64) as byte,
       (0x80 + (v / 64) % 64) as byte, (0x80 + v % 64) as byte]
  }

  /** `Data(s.utf8)`: the UTF-8 bytes of the text. */
  function Encode(s: string): (bs: seq<byte>)
    ensures |bs| == Utf8Len(s)
  {
    if s == [] then [] else EncodeChar(s[0]) + Encode(s[1..])
  }

  lemma {:induction false} EncodeAppend(a: string, b: string)
    ensures Encode(a + b) == Encode(a) + Encode(b)
  {
    if a == [] {
      assert a + b == b;
    } else {
      assert (a + b)[0] == a[0];
      assert (a + b)[1..] == a[1..] + b;
      EncodeAppend(a[1..], b);
    }
  }

  /**
   * Decodes the first scalar value of `bs`: the value and the number of bytes it used, or
   * none for a malformed, overlong, surrogate or out-of-range sequence.
   */
  function DecodeChar(bs: seq<byte>): (r: Option<(char, nat)>)
    ensures r.Some? ==> 1 <= r.value.1 <= |bs|
  {
    if bs == [] then None
    else
      var b0 := bs[0] as int;
      if b0 < 0x80 then Some((b0 as char, 1))
      else if 0xC2 <= b0 <= 0xDF then
        if |bs| >= 2 && IsContinuation(bs[1]) then
          var v := (b0 - 0xC0) * 64 + (bs[1] as int - 0x80);
          Some((v as char, 2))
        else None
      else if 0xE0 <= b0 <= 0xEF then
        if |bs| >= 3 && IsContinuation(bs[1]) && IsContinuation(bs[2]) then
          var v := (b0 - 0xE0) * 4096 + (bs[1] as int - 0x80) * 64 + (bs[2] as int - 0x80);
          if 0x800 <= v && IsScalar(v) then Some((v as char, 3)) else None
        else None
      else if 0xF0 <= b0 <= 0xF4 then
        if |bs| >= 4 && IsContinuation(bs[1]) && IsContinuation(bs[2]) && IsContinuation(bs[3]) then
          var v := (b0 - 0xF0) * 262144 + (bs[1] as int - 0x80) * 4096
                   + (bs[2] as int - 0x80) * 64 + (bs[3] as int - 0x80);
          if 0x1_0000 <= v < 0x11_0000 then Some((v as char, 4)) else None
        else None
      else None
  }

  /** `String(data:encoding: .utf8)`: the text, or none when the bytes are not valid UTF-8. */
  function Decode(bs: seq<byte>): Option<string>
    decreases |bs|
  {
    if bs == [] then Some([])
    else match DecodeChar(bs)
      case None => None
      case Some((c, n)) =>
        match Decode(bs[n..])
        case None => None
        case Some(rest) => Some([c] + rest)
  }

  lemma DecodeEncodeChar(c: char, rest: seq<byte>)
    ensures DecodeChar(EncodeChar(c) + rest) == Some((c, CharBytes(c)))
  {
    var v := c as int;
    if v < 0x80 {
    } else if v < 0x800 {
      DecodeTwo(c, rest);
    } else if v < 0x1_0000 {
      DecodeThree(c, rest);
    } else {
      DecodeFour(c, rest);
    }
  }

  lemma DecodeTwo(c: char, rest: seq<byte>)
    requires 0x80 <= c as int < 0x800
    ensures DecodeChar(EncodeChar(c) + rest) == Some((c, 2))
  {
    var v := c as int;
    var bs := EncodeChar(c) + rest;
    assert bs[0] as int == 0xC0 + v / 64 && bs[1] as int == 0x80 + v % 64;
    assert (v / 64) * 64 + v % 64 == v;
  }

  lemma DecodeThree(c: char, rest: seq<byte>)
    requires 0x800 <= c as int < 0x1_0000
    ensures DecodeChar(EncodeChar(c) + rest) == Some((c, 3))
  {
    var v := c as int;
    var bs := EncodeChar(c) + rest;
    var hi, mid, lo := v / 4096, (v / 64) % 64, v % 64;
    assert bs[0] as int == 0xE0 + hi && bs[1] as int == 0x80 + mid && bs[2] as int == 0x80 + lo;
    assert v / 64 == hi * 64 + mid;
    assert v == (v / 64) * 64 + lo;
    assert hi * 4096 + mid * 64 + lo == v;
  }

  lemma DecodeFour(c: char, rest: seq<byte>)
    requires 0x1_0000 <= c as int
    ensures DecodeChar(EncodeChar(c) + rest) == Some((c, 4))
  {
    var v := c as int;
    assert v < 0x11_0000;
    var bs := EncodeChar(c) + rest;
    var top, hi, mid, lo := v / 262144, (v / 4096) % 64, (v / 64) % 64, v % 64;
    FourDigits(v);
    assert bs[0] as int == 0xF0 + top && bs[1] as int == 0x80 + hi;
    assert bs[2] as int == 0x80 + mid && bs[3] as int == 0x80 + lo;
  }

  /** A code point above the BMP in base 64, most significant digit first. */
  lemma FourDigits(v: int)
    requires 0x1_0000 <= v < 0x11_0000
    ensures var top, hi, mid, lo := v / 262144, (v / 4096) % 64, (v / 64) % 64, v % 64;
      && 0 <= top <= 4 && 0 <= hi < 64 && 0 <= mid < 64 && 0 <= lo < 64
      && top * 262144 + hi * 4096 + mid * 64 + lo == v
  {
    var top, hi, mid, lo := v / 262144, (v / 4096) % 64, (v / 64) % 64, v % 64;
    assert v / 4096 == top * 64 + hi;
    assert v / 64 == (v / 4096) * 64 + mid;
    assert v == (v / 64) * 64 + lo;
  }

  /** Decoding the encoding of any text gives the text back. */
  lemma {:induction false} DecodeEncode(s: string)
    ensures Decode(Encode(s)) == Some(s)
  {
    if s != [] {
      var e := EncodeChar(s[0]);
      DecodeEncodeChar(s[0], Encode(s[1..]));
      assert (e + Encode(s[1..]))[|e|..] == Encode(s[1..]);
      DecodeEncode(s[1..]);
      assert [s[0]] + s[1..] == s;
    }
  }

  /** The position in `s` whose prefix is `offset` bytes long, if there is one. */
  function Boundary(s: string, offset: nat): (r: Option<nat>)
    ensures r.Some? ==> r.value <= |s| && Utf8Len(s[..r.value]) == offset
  {
    if offset == 0 then Some(0)
    else if s == [] || CharBytes(s[0]) > offset then None
    else match Boundary(s[1..], offset - CharBytes(s[0]))
      case None => None
      case Some(k) =>
        assert s[..k + 1][1..] == s[1..][..k];
        Some(k + 1)
  }

  lemma {:induction false} BoundaryComplete(s: string, offset: nat, i: nat)
    requires i <= |s| && Utf8Len(s[..i]) == offset
    ensures Boundary(s, offset) == Some(i)
  {
    if offset != 0 {
      assert i > 0;
      assert s[..i][1..] == s[1..][..i - 1];
      BoundaryComplete(s[1..], offset - CharBytes(s[0]), i - 1);
    }
  }

  /**
   * `indexForUTF8Offset`: the position of byte `offset` in `s`; none when the offset is
   * negative, past the end, or inside the encoding of a character.
   */
  function IndexForUtf8Offset(s: string, offset: int): (r: Option<nat>)
    ensures r.Some? ==> r.value <= |s| && Utf8Len(s[..r.value]) == offset
    ensures r.None? ==> forall i | 0 <= i <= |s| :: Utf8Len(s[..i]) != offset
  {
    if offset < 0 || offset > Utf8Len(s) then
      assert forall i | 0 <= i <= |s| :: Utf8Len(s[..i]) <= Utf8Len(s) by {
        forall i | 0 <= i <= |s| ensures Utf8Len(s[..i]) <= Utf8Len(s) {
          assert s == s[..i] + s[i..];
          Utf8LenAppend(s[..i], s[i..]);
        }
      }
      None
    else
      var r := Boundary(s, offset);
      assert r.None? ==> forall i | 0 <= i <= |s| :: Utf8Len(s[..i]) != offset by {
        forall i | 0 <= i <= |s| && Utf8Len(s[..i]) == offset ensures r.Some? {
          BoundaryComplete(s, offset, i);
        }
      }
      r
  }
}
