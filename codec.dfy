/**
 * A comment record (`MarkdownComment`) and the payload that a start marker carries
 * (`CommentCodec`): a JSON object with the id, the two timestamps and the body as base64 of
 * its UTF-8 bytes.
 *
 * A `Date` is modelled as a whole number of milliseconds. The timestamp text is the whole
 * number of seconds in decimal, which keeps what matters about the ISO-8601 text the
 * source writes: it is parsed back exactly, and sub-second precision is lost.
 */
module CommentCodec {
  import opened Wrappers
  import opened Text
  import Utf8
  import Base64

  datatype Comment = Comment(id: string, created: int, updated: int, body: string)

  /**
   * `numericID`: the id split at `-` (empty pieces omitted) must have exactly two pieces,
   * and the second must parse as a 64-bit integer; otherwise 0.
   */
  function NumericID(id: string): (n: int)
    ensures 0 <= n <= Int64Max
  {
    var parts := SplitOmittingEmpty(id, '-');
    if |parts| == 2 then
      match ParseInt(parts[1])
      case Some(v) => assert parts[1][0] != '-'; v
      case None => 0
    else 0
  }

  /** "COM-<n>" has numeric id n for every n in 1 .. Int64Max. */
  lemma NumericIDOfCommentID(n: int)
    requires 1 <= n <= Int64Max
    ensures NumericID("COM-" + Decimal(n)) == n
  {
    var d := Decimal(n);
    var id := "COM-" + d;
    assert id[..3] == "COM" && id[4..] == d;
    assert IndexOf(id, '-') == Some(3);
    assert IndexOf(d, '-') == None;
    assert Split(id, '-') == ["COM", d];
    assert NonEmpty(["COM", d]) == ["COM", d];
    ParseIntDecimal(n);
  }

  // ---------------------------------------------------------------------------------
  // JSON strings

  function HexDigit(d: nat): char
    requires d < 16
  {
    if d < 10 then ('0' as int + d) as char else ('a' as int + (d - 10)) as char
  }

  function HexValue(c: char): Option<nat> {
    if '0' <= c <= '9' then Some(c as int - '0' as int)
    else if 'a' <= c <= 'f' then Some(c as int - 'a' as int + 10)
    else if 'A' <= c <= 'F' then Some(c as int - 'A' as int + 10)
    else None
  }

  /**
   * How `JSONEncoder` writes one character inside a string literal: the quote, the
   * backslash, the slash and the control characters are escaped with a backslash, every
   * other character stands for itself, and no control character is left in the output.
   */
  function EscapeChar(c: char): (e: string)
    ensures e == [c] <==> !(c == '"' || c == '\\' || c == '/' || c as int < 0x20)
    ensures e != [c] ==> |e| >= 2 && e[0] == '\\'
    ensures forall i | 0 <= i < |e| :: 0x20 <= e[i] as int
  {
    if c == '"' then "\\\""
    else if c == '\\' then "\\\\"
    else if c == '/' then "\\/"
    else if c == '\n' then "\\n"
    else if c == '\r' then "\\r"
    else if c == '\t' then "\\t"
    else if c as int < 0x20 then "\\u00" + [HexDigit(c as int / 16), HexDigit(c as int % 16)]
    else [c]
  }

  function Escaped(s: string): string {
    if s == [] then [] else EscapeChar(s[0]) + Escaped(s[1..])
  }

  /** The character an escape sequence stands for (after the backslash) and the length it used. */
  function Unescape(u: string): (r: Option<(char, nat)>)
    ensures r.Some? ==> 1 <= r.value.1 <= |u|
  {
    if u == [] then None
    else if u[0] == '"' || u[0] == '\\' || u[0] == '/' then Some((u[0], 1))
    else if u[0] == 'b' then Some(('\U{8}', 1))
    else if u[0] == 'f' then Some(('\U{C}', 1))
    else if u[0] == 'n' then Some(('\n', 1))
    else if u[0] == 'r' then Some(('\r', 1))
    else if u[0] == 't' then Some(('\t', 1))
    else if u[0] == 'u' && |u| >= 5 then
      match (HexValue(u[1]), HexValue(u[2]), HexValue(u[3]), HexValue(u[4]))
      case (Some(h0), Some(h1), Some(h2), Some(h3)) =>
        var v := ((h0 * 16 + h1) * 16 + h2) * 16 + h3;
        if Utf8.IsScalar(v) then Some((v as char, 5)) else None
      case _ => None
    else None
  }

  /**
   * Reads the rest of a string literal whose opening quote is already consumed: the
   * characters up to the closing quote, and the text after it.
   */
  function ReadString(t: string): (r: Option<(string, string)>)
    ensures r.Some? ==> |r.value.1| < |t|
    decreases |t|
  {
    if t == [] then None
    else if t[0] == '"' then Some(([], t[1..]))
    else if t[0] == '\\' then
      match Unescape(t[1..])
      case None => None
      case Some((c, k)) =>
        match ReadString(t[1 + k..])
        case None => None
        case Some((s, rest)) => Some(([c] + s, rest))
    else if t[0] as int < 0x20 then None
    else
      match ReadString(t[1..])
      case None => None
      case Some((s, rest)) => Some(([t[0]] + s, rest))
  }

  lemma ReadEscapedChar(c: char, more: string, s: string, rest: string)
    requires ReadString(more) == Some((s, rest))
    ensures ReadString(EscapeChar(c) + more) == Some(([c] + s, rest))
  {
    if c as int < 0x20 && c != '\n' && c != '\r' && c != '\t' {
      ReadControlChar(c, more, s, rest);
    } else if c == '"' || c == '\\' || c == '/' || c == '\n' || c == '\r' || c == '\t' {
      var t := EscapeChar(c) + more;
      assert |EscapeChar(c)| == 2 && t[0] == '\\';
      UnescapeShort(c, t[1..]);
      assert t[2..] == more;
    } else {
      var t := EscapeChar(c) + more;
      assert EscapeChar(c) == [c] && t[0] == c;
      assert t[1..] == more;
    }
  }

  /** The letter after the backslash of a two-character escape reads back as its character. */
  lemma UnescapeShort(c: char, u: string)
    requires c == '"' || c == '\\' || c == '/' || c == '\n' || c == '\r' || c == '\t'
    requires u != [] && u[0] == EscapeChar(c)[1]
    ensures Unescape(u) == Some((c, 1))
  {
    if c == '\n' {
      assert u[0] == 'n';
    } else if c == '\r' {
      assert u[0] == 'r';
    } else if c == '\t' {
      assert u[0] == 't';
    } else {
      assert u[0] == c;
    }
  }

  /** A control character comes back from its `\u00XX` escape. */
  lemma ReadControlChar(c: char, more: string, s: string, rest: string)
    requires c as int < 0x20 && c != '\n' && c != '\r' && c != '\t'
    requires ReadString(more) == Some((s, rest))
    ensures ReadString(EscapeChar(c) + more) == Some(([c] + s, rest))
  {
    var v := c as int;
    var hi, lo := HexDigit(v / 16), HexDigit(v % 16);
    var t := "\\u00" + [hi, lo] + more;
    assert EscapeChar(c) + more == t;
    assert HexValue(hi) == Some(v / 16) && HexValue(lo) == Some(v % 16);
    assert t[1..][..5] == "u00" + [hi, lo];
    assert Unescape(t[1..]) == Some((c, 5));
    assert t[6..] == more;
  }

  /** A string literal is read back as the text it was written from. */
  lemma {:induction false} ReadStringOfEscaped(s: string, rest: string)
    ensures ReadString(Escaped(s) + "\"" + rest) == Some((s, rest))
  {
    if s == [] {
      assert Escaped(s) + "\"" + rest == "\"" + rest;
    } else {
      var e, tail := EscapeChar(s[0]), Escaped(s[1..]);
      ReadStringOfEscaped(s[1..], rest);
      ReadEscapedChar(s[0], tail + "\"" + rest, s[1..], rest);
      assert Escaped(s) == e + tail;
      Regroup(e, tail, "\"", rest);
      assert [s[0]] + s[1..] == s;
    }
  }

  lemma Regroup(a: string, b: string, c: string, d: string)
    ensures a + b + c + d == a + (b + c + d)
  {
  }

  // ---------------------------------------------------------------------------------
  // The payload object

  /** `CommentPayload`: the four string fields of the JSON object. */
  datatype Payload = Payload(id: string, created: string, updated: string, bodyB64: string)

  /**
   * `JSONEncoder().encode(payload)` with the keys in declaration order and no whitespace:
   * `{"id":"…","created":"…","updated":"…","bodyB64":"…"}`.
   */
  function EncodePayload(p: Payload): string {
    Member("{\"id\":\"", p.id,
      Member(",\"created\":\"", p.created,
        Member(",\"updated\":\"", p.updated,
          Member(",\"bodyB64\":\"", p.bodyB64, "}"))))
  }

  /** `lead` (up to and including the opening quote), the escaped value, the closing quote, then `rest`. */
  function Member(lead: string, value: string, rest: string): string {
    lead + Escaped(value) + "\"" + rest
  }

  /** Strips the literal `lit` from the front of `t`. */
  function Expect(t: string, lit: string): (r: Option<string>)
    ensures r.Some? ==> |r.value| == |t| - |lit|
  {
    if lit <= t then Some(t[|lit|..]) else None
  }

  /** Reads `lit` and then a string literal's contents, up to its closing quote. */
  function Field(t: string, lit: string): Option<(string, string)> {
    match Expect(t, lit)
    case None => None
    case Some(u) => ReadString(u)
  }

  /** `JSONDecoder().decode(CommentPayload.self, from:)` on the object layout the encoder writes. */
  function DecodePayload(json: string): Option<Payload> {
    match Field(json, "{\"id\":\"")
    case None => None
    case Some((id, t1)) =>
      match Field(t1, ",\"created\":\"")
      case None => None
      case Some((created, t2)) =>
        match Field(t2, ",\"updated\":\"")
        case None => None
        case Some((updated, t3)) =>
          match Field(t3, ",\"bodyB64\":\"")
          case None => None
          case Some((body, t4)) =>
            if t4 == "}" then Some(Payload(id, created, updated, body)) else None
  }

  lemma FieldOfMember(lead: string, s: string, rest: string)
    ensures Field(Member(lead, s, rest), lead) == Some((s, rest))
  {
    var t := Member(lead, s, rest);
    assert lead <= t;
    assert t[|lead|..] == Escaped(s) + "\"" + rest;
    ReadStringOfEscaped(s, rest);
  }

  /** The JSON layer round trip: any payload is read back from its encoding. */
  lemma DecodeEncodePayload(p: Payload)
    ensures DecodePayload(EncodePayload(p)) == Some(p)
  {
    var r4 := Member(",\"bodyB64\":\"", p.bodyB64, "}");
    var r3 := Member(",\"updated\":\"", p.updated, r4);
    var r2 := Member(",\"created\":\"", p.created, r3);
    FieldOfMember("{\"id\":\"", p.id, r2);
    FieldOfMember(",\"created\":\"", p.created, r3);
    FieldOfMember(",\"updated\":\"", p.updated, r4);
    FieldOfMember(",\"bodyB64\":\"", p.bodyB64, "}");
  }

  // ---------------------------------------------------------------------------------
  // Comments

  /** The timestamp text: whole seconds, in decimal. */
  function FormatDate(ms: int): string {
    Decimal(ms / 1000)
  }

  /** Reading a timestamp text back; none when it is not a signed decimal number. */
  function ParseDate(s: string): Option<int> {
    match ParseSigned(s)
    case Some(seconds) => Some(seconds * 1000)
    case None => None
  }

  /** A timestamp truncated to the whole second, which is what survives a round trip. */
  function WholeSeconds(ms: int): int {
    ms - ms % 1000
  }

  function ToPayload(c: Comment): Payload {
    Payload(c.id, FormatDate(c.created), FormatDate(c.updated), Base64.Encode(Utf8.Encode(c.body)))
  }

  /** The comment a payload stands for; none on a bad date, bad base64 or a body that is not UTF-8. */
  function FromPayload(p: Payload): Option<Comment> {
    match (ParseDate(p.created), ParseDate(p.updated), Base64.Decode(p.bodyB64))
    case (Some(created), Some(updated), Some(bytes)) =>
      (match Utf8.Decode(bytes)
       case Some(body) => Some(Comment(p.id, created, updated, body))
       case None => None)
    case _ => None
  }

  /** `CommentCodec.encode`. It cannot fail here: every field is a string. */
  function Encode(c: Comment): string {
    EncodePayload(ToPayload(c))
  }

  /** `CommentCodec.decode`. */
  function Decode(json: string): Option<Comment> {
    match DecodePayload(json)
    case Some(p) => FromPayload(p)
    case None => None
  }

  /** Every encoded payload decodes, to exactly what `FromPayload` makes of its fields. */
  lemma DecodeOfEncodedPayload(p: Payload)
    ensures Decode(EncodePayload(p)) == FromPayload(p)
    ensures FromPayload(p).None? <==>
              ParseDate(p.created).None? || ParseDate(p.updated).None?
              || Base64.Decode(p.bodyB64).None?
              || Utf8.Decode(Base64.Decode(p.bodyB64).value).None?
  {
    DecodeEncodePayload(p);
  }

  /** A timestamp text is read back as the timestamp truncated to the whole second. */
  lemma ParseFormatDate(ms: int)
    ensures ParseDate(FormatDate(ms)) == Some(WholeSeconds(ms))
  {
    ParseSignedDecimal(ms / 1000);
    assert (ms / 1000) * 1000 == ms - ms % 1000;
  }

  /**
   * The codec round trip: id and body come back unchanged, the timestamps come back
   * truncated to whole seconds.
   */
  lemma DecodeEncode(c: Comment)
    ensures Decode(Encode(c)) == Some(Comment(c.id, WholeSeconds(c.created), WholeSeconds(c.updated), c.body))
  {
    var p := ToPayload(c);
    DecodeEncodePayload(p);
    ParseFormatDate(c.created);
    ParseFormatDate(c.updated);
    Base64.DecodeEncode(Utf8.Encode(c.body));
    Utf8.DecodeEncode(c.body);
    assert FromPayload(p) == Some(Comment(c.id, WholeSeconds(c.created), WholeSeconds(c.updated), c.body));
  }

  lemma {:induction false} EscapedHasNoBrace(s: string)
    requires '}' !in s
    ensures '}' !in Escaped(s)
    decreases |s|
  {
    if s != [] {
      assert s[0] in s;
      assert forall x | x in s[1..] :: x in s;
      EscapeCharNoBrace(s[0]);
      EscapedHasNoBrace(s[1..]);
      assert Escaped(s) == EscapeChar(s[0]) + Escaped(s[1..]);
    }
  }

  lemma EscapeCharNoBrace(c: char)
    requires c != '}'
    ensures '}' !in EscapeChar(c)
  {
    if c as int < 0x20 && c != '\n' && c != '\r' && c != '\t' {
      var e := EscapeChar(c);
      assert e == "\\u00" + [HexDigit(c as int / 16), HexDigit(c as int % 16)];
      assert forall i | 0 <= i < |e| :: e[i] != '}';
    }
  }

  lemma MemberAppend(lead: string, value: string, rest: string, more: string)
    ensures Member(lead, value, rest + more) == Member(lead, value, rest) + more
  {
  }

  /** The payload object without its closing brace. */
  function Unclosed(p: Payload): string {
    Member("{\"id\":\"", p.id,
      Member(",\"created\":\"", p.created,
        Member(",\"updated\":\"", p.updated,
          Member(",\"bodyB64\":\"", p.bodyB64, ""))))
  }

  lemma EncodePayloadCloses(p: Payload)
    ensures EncodePayload(p) == Unclosed(p) + "}"
  {
    var m4 := Member(",\"bodyB64\":\"", p.bodyB64, "");
    var m3 := Member(",\"updated\":\"", p.updated, m4);
    var m2 := Member(",\"created\":\"", p.created, m3);
    MemberAppend(",\"bodyB64\":\"", p.bodyB64, "", "}");
    assert m4 + "}" == Member(",\"bodyB64\":\"", p.bodyB64, "}");
    MemberAppend(",\"updated\":\"", p.updated, m4, "}");
    MemberAppend(",\"created\":\"", p.created, m3, "}");
    MemberAppend("{\"id\":\"", p.id, m2, "}");
  }

  lemma UnclosedHasNoBrace(p: Payload)
    requires '}' !in p.id && '}' !in p.created && '}' !in p.updated && '}' !in p.bodyB64
    ensures '}' !in Unclosed(p) && Unclosed(p)[0] == '{'
  {
    var m4 := Member(",\"bodyB64\":\"", p.bodyB64, "");
    var m3 := Member(",\"updated\":\"", p.updated, m4);
    var m2 := Member(",\"created\":\"", p.created, m3);
    MemberHasNoBrace(",\"bodyB64\":\"", p.bodyB64, "");
    MemberHasNoBrace(",\"updated\":\"", p.updated, m4);
    MemberHasNoBrace(",\"created\":\"", p.created, m3);
    MemberHasNoBrace("{\"id\":\"", p.id, m2);
  }

  /**
   * An encoded comment is one JSON object: it opens with `{`, and its only `}` is the last
   * character, provided the id has none.
   */
  lemma EncodedBraces(c: Comment)
    requires '}' !in c.id
    ensures var json := Encode(c);
              |json| >= 2 && json[0] == '{' && json[|json| - 1] == '}'
              && '}' !in json[..|json| - 1]
  {
    var p := ToPayload(c);
    DatesHaveNoBrace(c.created);
    DatesHaveNoBrace(c.updated);
    Base64.EncodeHasNoBrace(Utf8.Encode(c.body));
    UnclosedHasNoBrace(p);
    EncodePayloadCloses(p);
    var json := Encode(c);
    assert json[..|json| - 1] == Unclosed(p);
  }

  lemma MemberHasNoBrace(lead: string, value: string, rest: string)
    requires '}' !in lead && '}' !in value && '}' !in rest
    ensures '}' !in Member(lead, value, rest)
  {
    EscapedHasNoBrace(value);
  }

  lemma DatesHaveNoBrace(ms: int)
    ensures '}' !in FormatDate(ms)
  {
    var d := FormatDate(ms);
    if '}' in d {
      var i :| 0 <= i < |d| && d[i] == '}';
    }
  }
}
