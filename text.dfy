/**
 * String helpers shared by the model: the Foundation character sets used for trimming,
 * substring search, splitting on one character, ASCII case mapping and the decimal text
 * of integers that Swift writes with string interpolation and parses with `Int(_:)`.
 * Strings are sequences of Unicode scalar values.
 */
module Text {
  import opened Wrappers

  /** Foundation's `CharacterSet.whitespaces`: tab and the space separators (category Zs). */
  predicate IsWhitespace(c: char) {
    c == '\t' || c == ' ' || c == '\U{A0}' || c == '\U{1680}' || ('\U{2000}' <= c <= '\U{200A}')
    || c == '\U{202F}' || c == '\U{205F}' || c == '\U{3000}'
  }

  /** Foundation's `CharacterSet.whitespacesAndNewlines`. */
  predicate IsWhitespaceOrNewline(c: char) {
    IsWhitespace(c) || ('\n' <= c <= '\r') || c == '\U{85}' || c == '\U{2028}' || c == '\U{2029}'
  }

  /** Which set a trim removes. */
  datatype Blanks = Whitespaces | WhitespacesAndNewlines

  predicate IsBlank(b: Blanks, c: char) {
    match b
    case Whitespaces => IsWhitespace(c)
    case WhitespacesAndNewlines => IsWhitespaceOrNewline(c)
  }

  function TrimStart(s: string, b: Blanks): (r: string)
    ensures |r| <= |s|
  {
    if s != [] && IsBlank(b, s[0]) then TrimStart(s[1..], b) else s
  }

  function TrimEnd(s: string, b: Blanks): (r: string)
    ensures |r| <= |s|
  {
    if s != [] && IsBlank(b, s[|s| - 1]) then TrimEnd(s[..|s| - 1], b) else s
  }

  /** `trimmingCharacters(in:)`: drops blanks at both ends and keeps the middle untouched. */
  function Trim(s: string, b: Blanks): (r: string)
    ensures |r| <= |s|
  {
    TrimEnd(TrimStart(s, b), b)
  }

  /** What `TrimStart` keeps is a suffix that starts with a non-blank; what it drops is blank. */
  lemma {:induction false} TrimStartShape(s: string, b: Blanks)
    ensures var r := TrimStart(s, b);
      && r == s[|s| - |r|..]
      && (forall i | 0 <= i < |s| - |r| :: IsBlank(b, s[i]))
      && (r != [] ==> !IsBlank(b, r[0]))
  {
    if s != [] && IsBlank(b, s[0]) {
      TrimStartShape(s[1..], b);
    }
  }

  /** What `TrimEnd` keeps is a prefix that ends with a non-blank; what it drops is blank. */
  lemma {:induction false} TrimEndShape(s: string, b: Blanks)
    ensures var r := TrimEnd(s, b);
      && r == s[..|r|]
      && (forall i | |r| <= i < |s| :: IsBlank(b, s[i]))
      && (r != [] ==> !IsBlank(b, r[|r| - 1]))
  {
    if s != [] && IsBlank(b, s[|s| - 1]) {
      TrimEndShape(s[..|s| - 1], b);
    }
  }

  /** `Trim` keeps one contiguous slice of the text, and everything it drops is blank. */
  lemma TrimShape(s: string, b: Blanks)
    ensures var r := Trim(s, b);
      var k := |s| - |TrimStart(s, b)|;
      && k + |r| <= |s| && r == s[k..k + |r|]
      && (forall i | 0 <= i < k :: IsBlank(b, s[i]))
      && (forall i | k + |r| <= i < |s| :: IsBlank(b, s[i]))
  {
    var t := TrimStart(s, b);
    TrimStartShape(s, b);
    TrimEndShape(t, b);
    TrimKept(s, t, TrimEnd(t, b), b);
  }

  /** A suffix `t` of `s`, and a prefix `r` of `t` whose rest is blank: `r` is a slice of `s`. */
  lemma TrimKept(s: string, t: string, r: string, b: Blanks)
    requires |t| <= |s| && t == s[|s| - |t|..]
    requires |r| <= |t| && r == t[..|r|] && forall i | |r| <= i < |t| :: IsBlank(b, t[i])
    ensures var k := |s| - |t|;
      && r == s[k..k + |r|]
      && forall i | k + |r| <= i < |s| :: IsBlank(b, s[i])
  {
    var k := |s| - |t|;
    assert s[k..][..|r|] == s[k..k + |r|];
    forall i | k + |r| <= i < |s|
      ensures IsBlank(b, s[i])
    {
      assert s[i] == t[i - k];
    }
  }

  /** What `Trim` keeps neither starts nor ends with a blank. */
  lemma TrimEnds(s: string, b: Blanks)
    ensures var r := Trim(s, b);
      r != [] ==> !IsBlank(b, r[0]) && !IsBlank(b, r[|r| - 1])
  {
    var t := TrimStart(s, b);
    TrimStartShape(s, b);
    TrimEndShape(t, b);
    var r := TrimEnd(t, b);
    if r != [] {
      assert r[0] == t[0];
    }
  }

  /** Trimming leaves nothing exactly when every character is blank. */
  lemma TrimEmpty(s: string, b: Blanks)
    ensures Trim(s, b) == [] <==> forall i | 0 <= i < |s| :: IsBlank(b, s[i])
  {
    TrimShape(s, b);
    TrimEnds(s, b);
    var r := Trim(s, b);
    var k := |s| - |TrimStart(s, b)|;
    if r != [] {
      assert s[k] == r[0];
    }
  }

  /** `s.contains(sub)` for a string argument: `sub` occurs somewhere in `s`. */
  predicate Contains(s: string, sub: string) {
    exists i | 0 <= i <= |s| - |sub| :: OccursAt(s, sub, i)
  }

  /** `sub` occurs in `s` starting at index `i`. */
  predicate OccursAt(s: string, sub: string, i: int) {
    0 <= i && i + |sub| <= |s| && s[i..i + |sub|] == sub
  }

  /** `firstIndex(of:)` for one character. */
  function IndexOf(s: string, c: char): (r: Option<nat>)
    ensures r.Some? ==> r.value < |s| && s[r.value] == c && c !in s[..r.value]
    ensures r.None? ==> c !in s
  {
    if s == [] then None
    else if s[0] == c then Some(0)
    else match IndexOf(s[1..], c)
      case None => None
      case Some(k) => assert s[..k + 1] == [s[0]] + s[1..][..k]; Some(k + 1)
  }

  /**
   * A line feed that is a Character of its own: Swift reads a carriage return followed by
   * a line feed as the one Character "\r\n", which is not "\n".
   */
  predicate LoneLineFeed(s: string, k: nat)
    requires k < |s|
  {
    s[k] == '\n' && (k == 0 || s[k - 1] != '\r')
  }

  /** No carriage return is directly followed by a line feed: line feeds alone end lines. */
  predicate NoCrLf(s: string) {
    forall k | 0 < k < |s| :: !CrLfAt(s, k)
  }

  /** A carriage return at `k - 1` and a line feed at `k`. */
  predicate CrLfAt(s: string, k: nat)
    requires 0 < k < |s|
  {
    s[k - 1] == '\r' && s[k] == '\n'
  }

  /** `firstIndex(of: "\n")` comparing Characters: the first lone line feed from `from` on. */
  function IndexOfLineFeed(s: string, from: nat := 0): (r: Option<nat>)
    requires from <= |s|
    ensures r.Some? ==> from <= r.value < |s| && LoneLineFeed(s, r.value)
    ensures r.Some? ==> forall k | from <= k < r.value :: !LoneLineFeed(s, k)
    ensures r.None? ==> forall k | from <= k < |s| :: !LoneLineFeed(s, k)
    decreases |s| - from
  {
    if from == |s| then None
    else if LoneLineFeed(s, from) then Some(from)
    else IndexOfLineFeed(s, from + 1)
  }

  /** `firstIndex(of:)` on `s[from...]`: the first `c` at or after `from`, as a position in `s`. */
  function IndexOfFrom(s: string, c: char, from: nat): (r: Option<nat>)
    requires from <= |s|
    ensures r.Some? ==> from <= r.value < |s| && s[r.value] == c
    ensures r.Some? ==> forall k | from <= k < r.value :: s[k] != c
    ensures r.None? ==> forall k | from <= k < |s| :: s[k] != c
    decreases |s| - from
  {
    if from == |s| then None
    else if s[from] == c then Some(from)
    else IndexOfFrom(s, c, from + 1)
  }

  /** The first `c` at or after `from`, named. */
  lemma IndexOfFromIs(s: string, c: char, from: nat, p: nat)
    requires from <= p < |s| && s[p] == c && forall k | from <= k < p :: s[k] != c
    ensures IndexOfFrom(s, c, from) == Some(p)
  {
    var r := IndexOfFrom(s, c, from);
    assert r.Some? && !(r.value < p) && !(p < r.value);
  }

  /** Searching the rest of the text finds the same `c`, counted from `from`. */
  lemma IndexOfFromSlice(s: string, c: char, from: nat)
    requires from <= |s|
    ensures IndexOf(s[from..], c).None? <==> IndexOfFrom(s, c, from).None?
    ensures IndexOf(s[from..], c).Some? ==>
      IndexOfFrom(s, c, from) == Some(from + IndexOf(s[from..], c).value)
  {
    var t := s[from..];
    match IndexOfFrom(s, c, from)
    case None =>
      assert c !in t by {
        forall j | 0 <= j < |t| ensures t[j] != c {
          assert t[j] == s[from + j];
        }
      }
    case Some(p) =>
      forall j | 0 <= j < p - from ensures t[j] != c {
        assert t[j] == s[from + j];
      }
      IndexOfIs(t, c, p - from);
  }

  /**
   * Where no "\r\n" occurs, the Character search and the scalar search find the same line
   * feed.
   */
  lemma LineFeedAgrees(s: string, from: nat)
    requires from <= |s| && NoCrLf(s)
    ensures IndexOfLineFeed(s, from) == IndexOfFrom(s, '\n', from)
  {
    var b := IndexOfFrom(s, '\n', from);
    if b.Some? {
      if b.value > 0 {
        assert !CrLfAt(s, b.value);
      }
      assert LoneLineFeed(s, b.value);
      IndexOfLineFeedIs(s, from, b.value);
    } else {
      assert forall k | from <= k < |s| :: !LoneLineFeed(s, k);
    }
  }

  /** The first lone line feed at or after `from`, named. */
  lemma IndexOfLineFeedIs(s: string, from: nat, p: nat)
    requires from <= p < |s| && LoneLineFeed(s, p) && forall k | from <= k < p :: !LoneLineFeed(s, k)
    ensures IndexOfLineFeed(s, from) == Some(p)
  {
    var r := IndexOfLineFeed(s, from);
    assert r.Some? && !(r.value < p) && !(p < r.value);
  }

  /** The first occurrence, named. */
  lemma IndexOfIs(s: string, c: char, k: nat)
    requires k < |s| && s[k] == c && forall j | 0 <= j < k :: s[j] != c
    ensures IndexOf(s, c) == Some(k)
  {
    var r := IndexOf(s, c);
    assert forall j | 0 <= j < r.value :: s[j] != c by {
      forall j | 0 <= j < r.value ensures s[j] != c {
        assert s[..r.value][j] == s[j];
      }
    }
  }

  /** `components(separatedBy:)` with a one-character separator: empty pieces are kept. */
  function Split(s: string, sep: char): (r: seq<string>)
    ensures |r| >= 1
    ensures forall i | 0 <= i < |r| :: sep !in r[i]
    decreases |s|
  {
    match IndexOf(s, sep)
    case None => [s]
    case Some(i) => [s[..i]] + Split(s[i + 1..], sep)
  }

  /** `joined(separator:)` with a one-character separator. */
  function Join(ls: seq<string>, sep: char): string {
    if ls == [] then ""
    else if |ls| == 1 then ls[0]
    else ls[0] + [sep] + Join(ls[1..], sep)
  }

  lemma {:induction false} JoinSplit(s: string, sep: char)
    ensures Join(Split(s, sep), sep) == s
    decreases |s|
  {
    match IndexOf(s, sep)
    case None =>
    case Some(i) =>
      var rest := Split(s[i + 1..], sep);
      assert Split(s, sep) == [s[..i]] + rest;
      assert Split(s, sep)[1..] == rest;
      JoinSplit(s[i + 1..], sep);
      assert Join(Split(s, sep), sep) == s[..i] + [sep] + Join(rest, sep);
      assert s == s[..i] + [sep] + s[i + 1..];
  }

  /** `split(separator:)` with its default of omitting empty pieces. */
  function SplitOmittingEmpty(s: string, sep: char): (r: seq<string>)
    ensures forall i | 0 <= i < |r| :: r[i] != [] && sep !in r[i]
  {
    NonEmptyAvoids(Split(s, sep), sep);
    NonEmpty(Split(s, sep))
  }

  /** The pieces of `split(separator:)`, concatenated, are the text with every separator removed. */
  lemma SplitOmittingEmptyConcat(s: string, sep: char)
    ensures Concat(SplitOmittingEmpty(s, sep)) == Without(s, sep)
  {
    ConcatNonEmpty(Split(s, sep));
    ConcatSplit(s, sep);
  }

  /** The pieces run together. */
  function Concat(ls: seq<string>): string {
    if ls == [] then "" else ls[0] + Concat(ls[1..])
  }

  /** The text with every `c` removed. */
  function Without(s: string, c: char): (r: string)
    ensures c !in r
  {
    if s == [] then "" else (if s[0] == c then "" else [s[0]]) + Without(s[1..], c)
  }

  lemma {:induction false} WithoutAppend(a: string, b: string, c: char)
    ensures Without(a + b, c) == Without(a, c) + Without(b, c)
  {
    if a == [] {
      assert a + b == b;
    } else {
      var h := if a[0] == c then "" else [a[0]];
      calc {
        Without(a + b, c);
        { assert (a + b)[0] == a[0] && (a + b)[1..] == a[1..] + b; }
        h + Without(a[1..] + b, c);
        { WithoutAppend(a[1..], b, c); }
        h + (Without(a[1..], c) + Without(b, c));
        Without(a, c) + Without(b, c);
      }
    }
  }

  lemma {:induction false} WithoutAbsent(s: string, c: char)
    requires c !in s
    ensures Without(s, c) == s
  {
    if s != [] {
      WithoutAbsent(s[1..], c);
    }
  }

  lemma {:induction false} ConcatNonEmpty(ls: seq<string>)
    ensures Concat(NonEmpty(ls)) == Concat(ls)
  {
    if ls != [] {
      ConcatNonEmpty(ls[1..]);
    }
  }

  lemma {:induction false} ConcatSplit(s: string, sep: char)
    ensures Concat(Split(s, sep)) == Without(s, sep)
    decreases |s|
  {
    match IndexOf(s, sep)
    case None =>
      WithoutAbsent(s, sep);
    case Some(i) =>
      ConcatSplit(s[i + 1..], sep);
      ConcatSplitHead(s, sep, i);
      WithoutHead(s, sep, i);
  }

  /** The pieces run together: the first piece, then the rest of the pieces. */
  lemma ConcatSplitHead(s: string, sep: char, i: nat)
    requires IndexOf(s, sep) == Some(i)
    ensures Concat(Split(s, sep)) == s[..i] + Concat(Split(s[i + 1..], sep))
  {
    var ls := Split(s, sep);
    assert ls == [s[..i]] + Split(s[i + 1..], sep);
    assert ls[0] == s[..i] && ls[1..] == Split(s[i + 1..], sep);
    assert Concat(ls) == ls[0] + Concat(ls[1..]);
  }

  /** Removing the separators: the text before the first one, then the rest without them. */
  lemma WithoutHead(s: string, sep: char, i: nat)
    requires IndexOf(s, sep) == Some(i)
    ensures Without(s, sep) == s[..i] + Without(s[i + 1..], sep)
  {
    var head, rest := s[..i], s[i + 1..];
    var tail := [sep] + rest;
    assert s == head + tail;
    WithoutAppend(head, tail, sep);
    WithoutAbsent(head, sep);
    assert tail[0] == sep && tail[1..] == rest;
  }

  function NonEmpty(ls: seq<string>): (r: seq<string>)
    ensures |r| <= |ls|
    ensures forall i | 0 <= i < |r| :: r[i] != []
  {
    if ls == [] then []
    else if ls[0] == [] then NonEmpty(ls[1..])
    else [ls[0]] + NonEmpty(ls[1..])
  }

  /** The pieces that are kept come from the list. */
  lemma {:induction false} NonEmptyAvoids(ls: seq<string>, sep: char)
    requires forall i | 0 <= i < |ls| :: sep !in ls[i]
    ensures forall i | 0 <= i < |NonEmpty(ls)| :: sep !in NonEmpty(ls)[i]
  {
    if ls != [] {
      NonEmptyAvoids(ls[1..], sep);
    }
  }

  /** ASCII case mapping; other characters are left alone. */
  function LowerChar(c: char): char {
    if 'A' <= c <= 'Z' then (c as int + 32) as char else c
  }

  function UpperChar(c: char): char {
    if 'a' <= c <= 'z' then (c as int - 32) as char else c
  }

  /**
   * `lowercased()` on ASCII: no upper-case letter is left, and every character is the
   * original one up to case.
   */
  function Lowercased(s: string): (r: string)
    ensures |r| == |s|
    ensures forall i | 0 <= i < |r| :: !('A' <= r[i] <= 'Z')
    ensures forall i | 0 <= i < |s| :: UpperChar(r[i]) == UpperChar(s[i])
  {
    seq(|s|, i requires 0 <= i < |s| => LowerChar(s[i]))
  }

  /**
   * `uppercased()` on ASCII: no lower-case letter is left, and every character is the
   * original one up to case.
   */
  function Uppercased(s: string): (r: string)
    ensures |r| == |s|
    ensures forall i | 0 <= i < |r| :: !('a' <= r[i] <= 'z')
    ensures forall i | 0 <= i < |s| :: LowerChar(r[i]) == LowerChar(s[i])
  {
    seq(|s|, i requires 0 <= i < |s| => UpperChar(s[i]))
  }

  /** Lower-casing twice is lower-casing once. */
  lemma LowercasedIdempotent(s: string)
    ensures Lowercased(Lowercased(s)) == Lowercased(s)
  {
  }

  /** Upper-casing twice is upper-casing once. */
  lemma UppercasedIdempotent(s: string)
    ensures Uppercased(Uppercased(s)) == Uppercased(s)
  {
  }

  // ---------------------------------------------------------------------------------
  // Decimal text of integers

  predicate IsDigit(c: char) { '0' <= c <= '9' }

  function DigitChar(d: nat): char
    requires d < 10
  {
    ('0' as int + d) as char
  }

  /** The decimal digits of a natural number, without leading zeros. */
  function Digits(n: nat): (r: string)
    ensures |r| >= 1 && forall i | 0 <= i < |r| :: IsDigit(r[i])
  {
    if n < 10 then [DigitChar(n)] else Digits(n / 10) + [DigitChar(n % 10)]
  }

  /** The value of a run of decimal digits (leading zeros allowed). */
  function DigitsValue(s: string): nat
    requires forall i | 0 <= i < |s| :: IsDigit(s[i])
  {
    if s == [] then 0
    else
      assert IsDigit(s[|s| - 1]);
      DigitsValue(s[..|s| - 1]) * 10 + (s[|s| - 1] as int - '0' as int)
  }

  lemma {:induction false} DigitsValueOfDigits(n: nat)
    ensures DigitsValue(Digits(n)) == n
  {
    if n >= 10 {
      var r := Digits(n);
      assert r[..|r| - 1] == Digits(n / 10);
      DigitsValueOfDigits(n / 10);
    }
  }

  /** Swift's `"\(n)"` for an integer. */
  function Decimal(n: int): (r: string)
    ensures |r| >= 1
    ensures n >= 0 ==> '-' !in r
  {
    if n < 0 then "-" + Digits(-n) else Digits(n)
  }

  /** An optional sign followed by at least one decimal digit, with no bound on the value. */
  function ParseSigned(s: string): (r: Option<int>)
    ensures r.Some? ==> |s| >= 1
  {
    if s == [] then None
    else if s[0] == '+' || s[0] == '-' then
      var body := s[1..];
      if body != [] && forall i | 0 <= i < |body| :: IsDigit(body[i]) then
        Some(if s[0] == '-' then -(DigitsValue(body) as int) else DigitsValue(body))
      else None
    else if forall i | 0 <= i < |s| :: IsDigit(s[i]) then Some(DigitsValue(s))
    else None
  }

  const Int64Min: int := -0x8000_0000_0000_0000
  const Int64Max: int := 0x7FFF_FFFF_FFFF_FFFF

  /** Swift's `Int(_:)` on a 64-bit platform: the signed text, or none on overflow. */
  function ParseInt(s: string): (r: Option<int>)
    ensures r.Some? ==> Int64Min <= r.value <= Int64Max
  {
    match ParseSigned(s)
    case Some(v) => if Int64Min <= v <= Int64Max then Some(v) else None
    case None => None
  }

  lemma ParseSignedDecimal(n: int)
    ensures ParseSigned(Decimal(n)) == Some(n)
  {
    if n < 0 {
      var r := Decimal(n);
      assert r[1..] == Digits(-n);
      DigitsValueOfDigits(-n);
    } else {
      DigitsValueOfDigits(n);
    }
  }

  lemma ParseIntDecimal(n: int)
    requires Int64Min <= n <= Int64Max
    ensures ParseInt(Decimal(n)) == Some(n)
  {
    ParseSignedDecimal(n);
  }
}
