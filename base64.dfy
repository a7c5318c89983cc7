/**
 * Base64 with the standard alphabet and `=` padding, as Foundation's
 * `base64EncodedString()` writes it and `Data(base64Encoded:)` reads it.
 */
module Base64 {
  import opened Wrappers
  import opened Utf8

  /** The alphabet symbol for a six-bit value. */
  function Symbol(v: nat): (c: char)
    requires v < 64
  {
    if v < 26 then ('A' as int + v) as char
    else if v < 52 then ('a' as int + (v - 26)) as char
    else if v < 62 then ('0' as int + (v - 52)) as char
    else if v == 62 then '+'
    else '/'
  }

  /** The six-bit value of an alphabet symbol; none for any other character. */
  function SymbolValue(c: char): (r: Option<nat>)
    ensures r.Some? ==> r.value < 64
  {
    if 'A' <= c <= 'Z' then Some(c as int - 'A' as int)
    else if 'a' <= c <= 'z' then Some(c as int - 'a' as int + 26)
    else if '0' <= c <= '9' then Some(c as int - '0' as int + 52)
    else if c == '+' then Some(62)
    else if c == '/' then Some(63)
    else None
  }

  lemma SymbolValueOfSymbol(v: nat)
    requires v < 64
    ensures SymbolValue(Symbol(v)) == Some(v)
  {
  }

  predicate IsSymbol(c: char) { SymbolValue(c).Some? }

  function Group(a: byte, b: byte, c: byte): (s: string)
    ensures |s| == 4
  {
    var x, y, z := a as int, b as int, c as int;
    [Symbol(x / 4), Symbol((x % 4) * 16 + y / 16), Symbol((y % 16) * 4 + z / 64), Symbol(z % 64)]
  }

  /** `base64EncodedString()`. */
  function Encode(bs: seq<byte>): (s: string)
    ensures |s| == 4 * ((|bs| + 2) / 3)
    ensures s == [] <==> bs == []
  {
    if |bs| == 0 then []
    else if |bs| == 1 then
      var x := bs[0] as int;
      [Symbol(x / 4), Symbol((x % 4) * 16), '=', '=']
    else if |bs| == 2 then
      var x, y := bs[0] as int, bs[1] as int;
      [Symbol(x / 4), Symbol((x % 4) * 16 + y / 16), Symbol((y % 16) * 4), '=']
    else Group(bs[0], bs[1], bs[2]) + Encode(bs[3..])
  }

  /** The bytes of one group of four symbols, with the padding a final group may carry. */
  function DecodeGroup(s: string, last: bool): (r: Option<seq<byte>>)
    requires |s| == 4
    ensures r.Some? ==> 1 <= |r.value| <= 3
  {
    match (SymbolValue(s[0]), SymbolValue(s[1]), SymbolValue(s[2]), SymbolValue(s[3]))
    case (Some(c0), Some(c1), Some(c2), Some(c3)) =>
      Some([(c0 * 4 + c1 / 16) as byte, ((c1 % 16) * 16 + c2 / 4) as byte, ((c2 % 4) * 64 + c3) as byte])
    case (Some(c0), Some(c1), Some(c2), None) =>
      if last && s[3] == '=' then Some([(c0 * 4 + c1 / 16) as byte, ((c1 % 16) * 16 + c2 / 4) as byte])
      else None
    case (Some(c0), Some(c1), None, None) =>
      if last && s[2] == '=' && s[3] == '=' then Some([(c0 * 4 + c1 / 16) as byte]) else None
    case _ => None
  }

  /** `Data(base64Encoded:)`: none unless the text is whole groups of four symbols, padded only at the end. */
  function Decode(s: string): Option<seq<byte>>
    decreases |s|
  {
    if s == [] then Some([])
    else if |s| < 4 then None
    else match DecodeGroup(s[..4], |s| == 4)
      case None => None
      case Some(g) =>
        match Decode(s[4..])
        case None => None
        case Some(rest) => Some(g + rest)
  }

  lemma DecodeFullGroup(a: byte, b: byte, c: byte, last: bool)
    ensures DecodeGroup(Group(a, b, c), last) == Some([a, b, c])
  {
    var x, y, z := a as int, b as int, c as int;
    var c0, c1, c2, c3 := x / 4, (x % 4) * 16 + y / 16, (y % 16) * 4 + z / 64, z % 64;
    SymbolValueOfSymbol(c0);
    SymbolValueOfSymbol(c1);
    SymbolValueOfSymbol(c2);
    SymbolValueOfSymbol(c3);
    assert c1 / 16 == x % 4 && c1 % 16 == y / 16;
    assert c2 / 4 == y % 16 && c2 % 4 == z / 64;
  }

  lemma DecodeOneByte(b: byte)
    ensures Decode(Encode([b])) == Some([b])
  {
    var x := b as int;
    SymbolValueOfSymbol(x / 4);
    SymbolValueOfSymbol((x % 4) * 16);
    var s := Encode([b]);
    assert s == [Symbol(x / 4), Symbol((x % 4) * 16), '=', '='];
    assert s[..4] == s && s[4..] == [];
    assert SymbolValue('=') == None;
    assert DecodeGroup(s, true) == Some([b]);
    assert Decode(s[4..]) == Some([]);
    assert [b] + [] == [b];
  }

  lemma DecodeTwoBytes(b: byte, b': byte)
    ensures Decode(Encode([b, b'])) == Some([b, b'])
  {
    var x, y := b as int, b' as int;
    var s := Encode([b, b']);
    assert s == [Symbol(x / 4), Symbol((x % 4) * 16 + y / 16), Symbol((y % 16) * 4), '='];
    DecodePaddedPair(b, b');
    assert s[..4] == s && s[4..] == [];
    assert Decode(s[4..]) == Some([]);
    assert [b, b'] + [] == [b, b'];
  }

  /** The last group written for two bytes: three symbols and one `=`. */
  lemma DecodePaddedPair(b: byte, b': byte)
    ensures var x, y := b as int, b' as int;
      DecodeGroup([Symbol(x / 4), Symbol((x % 4) * 16 + y / 16), Symbol((y % 16) * 4), '='], true) == Some([b, b'])
  {
    var x, y := b as int, b' as int;
    var c0, c1, c2 := x / 4, (x % 4) * 16 + y / 16, (y % 16) * 4;
    SymbolValueOfSymbol(c0);
    SymbolValueOfSymbol(c1);
    SymbolValueOfSymbol(c2);
    assert SymbolValue('=') == None;
    assert c1 / 16 == x % 4 && c1 % 16 == y / 16 && c2 / 4 == y % 16;
  }

  /** Decoding what was encoded gives back the same bytes. */
  lemma {:induction false} DecodeEncode(bs: seq<byte>)
    ensures Decode(Encode(bs)) == Some(bs)
    decreases |bs|
  {
    if |bs| == 1 {
      assert bs == [bs[0]];
      DecodeOneByte(bs[0]);
    } else if |bs| == 2 {
      assert bs == [bs[0], bs[1]];
      DecodeTwoBytes(bs[0], bs[1]);
    } else if |bs| >= 3 {
      DecodeEncode(bs[3..]);
      DecodeGroupThenRest(bs);
    }
  }

  lemma DecodeGroupThenRest(bs: seq<byte>)
    requires |bs| >= 3 && Decode(Encode(bs[3..])) == Some(bs[3..])
    ensures Decode(Encode(bs)) == Some(bs)
  {
    var g := Group(bs[0], bs[1], bs[2]);
    var t := Encode(bs[3..]);
    var head: seq<byte> := [bs[0], bs[1], bs[2]];
    EncodeLong(bs);
    assert (t == []) == (bs[3..] == []);
    DecodeFullGroup(bs[0], bs[1], bs[2], t == []);
    DecodeAppendGroup(g, t, head, bs[3..]);
    HeadAndRest(bs);
  }

  lemma HeadAndRest(bs: seq<byte>)
    requires |bs| >= 3
    ensures [bs[0], bs[1], bs[2]] + bs[3..] == bs
  {
  }

  lemma EncodeLong(bs: seq<byte>)
    requires |bs| >= 3
    ensures Encode(bs) == Group(bs[0], bs[1], bs[2]) + Encode(bs[3..])
  {
  }

  lemma DecodeAppendGroup(g: string, t: string, gb: seq<byte>, tb: seq<byte>)
    requires |g| == 4 && DecodeGroup(g, t == []) == Some(gb) && Decode(t) == Some(tb)
    ensures Decode(g + t) == Some(gb + tb)
  {
    var s := g + t;
    assert s[..4] == g && s[4..] == t;
  }

  /** No encoded text contains a closing brace, so it cannot end a JSON object early. */
  lemma {:induction false} EncodeHasNoBrace(bs: seq<byte>)
    ensures '}' !in Encode(bs)
    decreases |bs|
  {
    if |bs| >= 3 {
      EncodeHasNoBrace(bs[3..]);
      EncodeLong(bs);
    }
  }
}
