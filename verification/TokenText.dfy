/** The texts a page token is made of: decimal i64, hyphenated UUID, and standard base64 (section 4 of
    RFC 4648, with padding). */
module TokenText {
  import opened Basics

  // ----- Decimal -----

  const I64_MIN := -0x8000_0000_0000_0000
  const I64_MAX := 0x7FFF_FFFF_FFFF_FFFF

  predicate IsDigit(c: char) {
    '0' <= c <= '9'
  }

  function DigitChar(d: nat): char
    requires d < 10
  {
    (d + '0' as int) as char
  }

  function DigitValue(c: char): nat
    requires IsDigit(c)
  {
    c as int - '0' as int
  }

  function PrintNat(n: nat): (s: string)
    ensures s != [] && forall i :: 0 <= i < |s| ==> IsDigit(s[i])
  {
    if n < 10 then [DigitChar(n)] else PrintNat(n / 10) + [DigitChar(n % 10)]
  }

  function PrintInt(n: int): string {
    if n < 0 then "-" + PrintNat(-n) else PrintNat(n)
  }

  function ParseNat(s: string): Option<nat> {
    if s == "" then None
    else
      var last := s[|s| - 1];
      if !IsDigit(last) then None
      else if |s| == 1 then Some(DigitValue(last))
      else
        match ParseNat(s[..|s| - 1])
        case None => None
        case Some(n) => Some(10 * n + DigitValue(last))
  }

  /** `i64::from_str`: one optional sign, digits, and the range. */
  function ParseI64(s: string): Option<int> {
    if s == "" then None
    else
      var digits := ParseNat(if s[0] == '-' || s[0] == '+' then s[1..] else s);
      if digits.None? then None
      else
        var magnitude: int := digits.value;
        var n := if s[0] == '-' then -magnitude else magnitude;
        if I64_MIN <= n <= I64_MAX then Some(n) else None
  }

  lemma {:induction false} NatRoundTrip(n: nat)
    ensures ParseNat(PrintNat(n)) == Some(n)
  {
    if n >= 10 {
      NatRoundTrip(n / 10);
      var s := PrintNat(n);
      assert s[..|s| - 1] == PrintNat(n / 10);
    }
  }

  lemma IntRoundTrip(n: int)
    requires I64_MIN <= n <= I64_MAX
    ensures ParseI64(PrintInt(n)) == Some(n)
  {
    var s := PrintInt(n);
    if n < 0 {
      NatRoundTrip(-n);
      assert s[0] == '-' && s[1..] == PrintNat(-n);
    } else {
      NatRoundTrip(n);
      assert IsDigit(s[0]) && s[0] != '-' && s[0] != '+';
    }
  }

  lemma PrintedIntHasNoColon(n: int)
    ensures ':' !in PrintInt(n)
  {
  }

  // ----- UUID -----

  const UUID_LIMIT := 0x1_0000_0000_0000_0000_0000_0000_0000_0000

  function HexChar(d: nat): char
    requires d < 16
  {
    if d < 10 then (d + '0' as int) as char else (d - 10 + 'a' as int) as char
  }

  function HexValue(c: char): Option<nat> {
    if '0' <= c <= '9' then Some(c as int - '0' as int)
    else if 'a' <= c <= 'f' then Some(c as int - 'a' as int + 10)
    else if 'A' <= c <= 'F' then Some(c as int - 'A' as int + 10)
    else None
  }

  /** `count` digits, most significant first. */
  function PrintHex(n: nat, count: nat): (s: string)
    ensures |s| == count
  {
    if count == 0 then "" else PrintHex(n / 16, count - 1) + [HexChar(n % 16)]
  }

  function ParseHex(s: string): Option<nat> {
    if s == "" then Some(0)
    else
      match (ParseHex(s[..|s| - 1]), HexValue(s[|s| - 1]))
      case (Some(n), Some(d)) => Some(16 * n + d)
      case _ => None
  }

  function Power16(count: nat): nat {
    if count == 0 then 1 else 16 * Power16(count - 1)
  }

  lemma {:induction false} HexRoundTrip(n: nat, count: nat)
    requires n < Power16(count)
    ensures ParseHex(PrintHex(n, count)) == Some(n)
  {
    if count > 0 {
      HexRoundTrip(n / 16, count - 1);
      var s := PrintHex(n, count);
      assert s[..|s| - 1] == PrintHex(n / 16, count - 1);
    }
  }

  lemma UuidWidth()
    ensures Power16(32) == UUID_LIMIT
  {
    assert Power16(8) == 0x1_0000_0000 by {
      assert Power16(4) == 0x1_0000;
    }
    assert Power16(16) == 0x1_0000_0000_0000_0000 by {
      assert Power16(12) == 0x1_0000_0000_0000;
    }
    assert Power16(24) == 0x1_0000_0000_0000_0000_0000_0000 by {
      assert Power16(20) == 0x1_0000_0000_0000_0000_0000;
    }
    assert Power16(28) == 0x1_0000_0000_0000_0000_0000_0000_0000;
  }

  function Hyphenate(h: string): string
    requires |h| == 32
  {
    h[..8] + "-" + h[8..12] + "-" + h[12..16] + "-" + h[16..20] + "-" + h[20..]
  }

  function PrintUuid(id: nat): string {
    Hyphenate(PrintHex(id, 32))
  }

  function ParseHyphenated(s: string): Option<nat>
    requires |s| == 36
  {
    if s[8] == s[13] == s[18] == s[23] == '-'
    then ParseHex(s[..8] + s[9..13] + s[14..18] + s[19..23] + s[24..]) else None
  }

  /** The forms that are read: plain, hyphenated, braced and URN. */
  function ParseUuid(s: string): Option<nat> {
    if |s| == 32 then ParseHex(s)
    else if |s| == 36 then ParseHyphenated(s)
    else if |s| == 38 && s[0] == '{' && s[37] == '}' then ParseHyphenated(s[1..37])
    else if |s| == 45 && s[..9] == "urn:uuid:" then ParseHyphenated(s[9..])
    else None
  }

  lemma UuidRoundTrip(id: nat)
    requires id < UUID_LIMIT
    ensures ParseUuid(PrintUuid(id)) == Some(id)
  {
    UuidWidth();
    HexRoundTrip(id, 32);
    HyphensComeOff(PrintHex(id, 32));
  }

  lemma HyphensComeOff(h: string)
    requires |h| == 32
    ensures |Hyphenate(h)| == 36 && ParseHyphenated(Hyphenate(h)) == ParseHex(h)
  {
    var s := Hyphenate(h);
    assert s[..8] == h[..8] && s[9..13] == h[8..12] && s[14..18] == h[12..16];
    assert s[19..23] == h[16..20] && s[24..] == h[20..];
    assert h[..8] + h[8..12] + h[12..16] + h[16..20] + h[20..] == h;
  }

  // ----- Base64 -----

  function Sextet(n: nat): char
    requires n < 64
  {
    if n < 26 then (n + 'A' as int) as char
    else if n < 52 then (n - 26 + 'a' as int) as char
    else if n < 62 then (n - 52 + '0' as int) as char
    else if n == 62 then '+' else '/'
  }

  function SextetValue(c: char): (v: Option<nat>)
    ensures v.Some? ==> v.value < 64 && Sextet(v.value) == c
  {
    if 'A' <= c <= 'Z' then Some(c as int - 'A' as int)
    else if 'a' <= c <= 'z' then Some(c as int - 'a' as int + 26)
    else if '0' <= c <= '9' then Some(c as int - '0' as int + 52)
    else if c == '+' then Some(62)
    else if c == '/' then Some(63)
    else None
  }

  lemma SextetRoundTrip(n: nat)
    requires n < 64
    ensures SextetValue(Sextet(n)) == Some(n) && Sextet(n) != '='
  {
  }

  function EncodeOne(a: nat): string
    requires a < 256
  {
    [Sextet(a / 4), Sextet(a % 4 * 16), '=', '=']
  }

  function EncodeTwo(a: nat, b: nat): string
    requires a < 256 && b < 256
  {
    [Sextet(a / 4), Sextet(a % 4 * 16 + b / 16), Sextet(b % 16 * 4), '=']
  }

  function EncodeThree(a: nat, b: nat, c: nat): string
    requires a < 256 && b < 256 && c < 256
  {
    [Sextet(a / 4), Sextet(a % 4 * 16 + b / 16), Sextet(b % 16 * 4 + c / 64), Sextet(c % 64)]
  }

  function Encode(bytes: Bytes): string {
    if |bytes| == 0 then ""
    else if |bytes| == 1 then EncodeOne(bytes[0] as int)
    else if |bytes| == 2 then EncodeTwo(bytes[0] as int, bytes[1] as int)
    else EncodeThree(bytes[0] as int, bytes[1] as int, bytes[2] as int) + Encode(bytes[3..])
  }

  /** One quantum: the padded forms only at the end, with their spare bits zero. */
  function DecodeQuad(q: string, final: bool): Option<Bytes>
    requires |q| == 4
  {
    match (SextetValue(q[0]), SextetValue(q[1]), SextetValue(q[2]), SextetValue(q[3]))
    case (Some(w), Some(x), Some(y), Some(z)) =>
      Some([(w * 4 + x / 16) as Byte, (x % 16 * 16 + y / 4) as Byte, (y % 4 * 64 + z) as Byte])
    case (Some(w), Some(x), Some(y), None) =>
      if final && q[3] == '=' && y % 4 == 0
      then Some([(w * 4 + x / 16) as Byte, (x % 16 * 16 + y / 4) as Byte]) else None
    case (Some(w), Some(x), None, None) =>
      if final && q[2] == '=' && q[3] == '=' && x % 16 == 0 then Some([(w * 4 + x / 16) as Byte]) else None
    case _ => None
  }

  function Decode(s: string): Option<Bytes> {
    if s == "" then Some([])
    else if |s| < 4 then None
    else
      match (DecodeQuad(s[..4], |s| == 4), Decode(s[4..]))
      case (Some(head), Some(tail)) => Some(head + tail)
      case _ => None
  }

  lemma OneRoundTrip(a: Byte)
    ensures DecodeQuad(EncodeOne(a as int), true) == Some([a])
  {
    SextetRoundTrip(a as int / 4);
    SextetRoundTrip(a as int % 4 * 16);
    assert SextetValue('=').None?;
  }

  lemma TwoRoundTrip(a: Byte, b: Byte)
    ensures DecodeQuad(EncodeTwo(a as int, b as int), true) == Some([a, b])
  {
    SextetRoundTrip(a as int / 4);
    SextetRoundTrip(a as int % 4 * 16 + b as int / 16);
    SextetRoundTrip(b as int % 16 * 4);
    assert SextetValue('=').None?;
  }

  lemma ThreeBytesCameBack(a: nat, b: nat, c: nat)
    requires a < 256 && b < 256 && c < 256
    ensures var w, x, y, z := a / 4, a % 4 * 16 + b / 16, b % 16 * 4 + c / 64, c % 64;
            w * 4 + x / 16 == a && x % 16 * 16 + y / 4 == b && y % 4 * 64 + z == c
  {
  }

  lemma ThreeRoundTrip(a: Byte, b: Byte, c: Byte, final: bool)
    ensures DecodeQuad(EncodeThree(a as int, b as int, c as int), final) == Some([a, b, c])
  {
    var w, x := a as int / 4, a as int % 4 * 16 + b as int / 16;
    var y, z := b as int % 16 * 4 + c as int / 64, c as int % 64;
    SextetRoundTrip(w);
    SextetRoundTrip(x);
    SextetRoundTrip(y);
    SextetRoundTrip(z);
    ThreeBytesCameBack(a as int, b as int, c as int);
    assert DecodeQuad([Sextet(w), Sextet(x), Sextet(y), Sextet(z)], final)
        == Some([(w * 4 + x / 16) as Byte, (x % 16 * 16 + y / 4) as Byte, (y % 4 * 64 + z) as Byte]);
  }

  lemma DecodeStep(quad: string, rest: string, head: Bytes, tail: Bytes)
    requires |quad| == 4 && DecodeQuad(quad, rest == "") == Some(head) && Decode(rest) == Some(tail)
    ensures Decode(quad + rest) == Some(head + tail)
  {
    var s := quad + rest;
    assert s[..4] == quad && s[4..] == rest;
  }

  lemma EncodesOne(a: Byte)
    ensures Encode([a]) == EncodeOne(a as int)
  {
  }

  lemma EncodesTwo(a: Byte, b: Byte)
    ensures Encode([a, b]) == EncodeTwo(a as int, b as int)
  {
  }

  lemma EncodesThree(a: Byte, b: Byte, c: Byte, tail: Bytes)
    ensures Encode([a, b, c] + tail) == EncodeThree(a as int, b as int, c as int) + Encode(tail)
  {
    assert ([a, b, c] + tail)[3..] == tail;
  }

  /** Examples of section 10 of RFC 4648, and one with the last two letters of the alphabet. */
  lemma ShortEncodings()
    ensures Encode([]) == "" && Encode([102]) == "Zg==" && Encode([102, 111]) == "Zm8="
    ensures Encode([102, 111, 111]) == "Zm9v" && Encode([102, 111, 111, 98]) == "Zm9vYg=="
    ensures Encode([251, 255]) == "+/8="
  {
  }

  lemma {:induction false} Base64RoundTrip(bytes: Bytes)
    ensures Decode(Encode(bytes)) == Some(bytes)
    decreases |bytes|
  {
    if |bytes| == 0 {
    } else if |bytes| == 1 {
      var a := bytes[0];
      assert bytes == [a] && bytes == bytes + [];
      OneRoundTrip(a);
      EncodesOne(a);
      assert Encode(bytes) == Encode(bytes) + "";
      DecodeStep(Encode(bytes), "", bytes, []);
    } else if |bytes| == 2 {
      var a, b := bytes[0], bytes[1];
      assert bytes == [a, b] && bytes == bytes + [];
      TwoRoundTrip(a, b);
      EncodesTwo(a, b);
      assert Encode(bytes) == Encode(bytes) + "";
      DecodeStep(Encode(bytes), "", bytes, []);
    } else {
      var a, b, c, tail := bytes[0], bytes[1], bytes[2], bytes[3..];
      assert bytes == [a, b, c] + tail;
      Base64RoundTrip(tail);
      ThreeRoundTrip(a, b, c, Encode(tail) == "");
      EncodesThree(a, b, c, tail);
      DecodeStep(EncodeThree(a as int, b as int, c as int), Encode(tail), [a, b, c], tail);
    }
  }

  lemma QuadOfThree(w: nat, x: nat, y: nat, z: nat)
    requires w < 64 && x < 64 && y < 64 && z < 64
    ensures EncodeThree(w * 4 + x / 16, x % 16 * 16 + y / 4, y % 4 * 64 + z)
         == [Sextet(w), Sextet(x), Sextet(y), Sextet(z)]
  {
    var a, b, c := w * 4 + x / 16, x % 16 * 16 + y / 4, y % 4 * 64 + z;
    assert a / 4 == w && a % 4 == x / 16;
    assert b / 16 == x % 16 && b % 16 == y / 4;
    assert c / 64 == y % 4 && c % 64 == z;
  }

  lemma QuadOfTwo(w: nat, x: nat, y: nat)
    requires w < 64 && x < 64 && y < 64 && y % 4 == 0
    ensures EncodeTwo(w * 4 + x / 16, x % 16 * 16 + y / 4) == [Sextet(w), Sextet(x), Sextet(y), '=']
  {
    var a, b := w * 4 + x / 16, x % 16 * 16 + y / 4;
    assert a / 4 == w && a % 4 == x / 16;
    assert b / 16 == x % 16 && b % 16 == y / 4;
  }

  lemma QuadOfOne(w: nat, x: nat)
    requires w < 64 && x < 64 && x % 16 == 0
    ensures EncodeOne(w * 4 + x / 16) == [Sextet(w), Sextet(x), '=', '=']
  {
    var a := w * 4 + x / 16;
    assert a / 4 == w && a % 4 == x / 16;
  }

  lemma PaddedTwice(quad: string, final: bool, head: Bytes)
    requires |quad| == 4 && SextetValue(quad[2]).None? && DecodeQuad(quad, final) == Some(head)
    ensures final && |head| == 1 && quad == EncodeOne(head[0] as int)
  {
    var w, x := SextetValue(quad[0]).value, SextetValue(quad[1]).value;
    assert head == [(w * 4 + x / 16) as Byte];
    QuadOfOne(w, x);
    assert quad == [Sextet(w), Sextet(x), '=', '='];
  }

  lemma PaddedOnce(quad: string, final: bool, head: Bytes)
    requires |quad| == 4 && SextetValue(quad[2]).Some? && SextetValue(quad[3]).None?
    requires DecodeQuad(quad, final) == Some(head)
    ensures final && |head| == 2 && quad == EncodeTwo(head[0] as int, head[1] as int)
  {
    var w, x, y := SextetValue(quad[0]).value, SextetValue(quad[1]).value, SextetValue(quad[2]).value;
    assert head == [(w * 4 + x / 16) as Byte, (x % 16 * 16 + y / 4) as Byte];
    QuadOfTwo(w, x, y);
    assert quad == [Sextet(w), Sextet(x), Sextet(y), '='];
  }

  lemma NotPadded(quad: string, final: bool, head: Bytes)
    requires |quad| == 4 && SextetValue(quad[2]).Some? && SextetValue(quad[3]).Some?
    requires DecodeQuad(quad, final) == Some(head)
    ensures |head| == 3 && quad == EncodeThree(head[0] as int, head[1] as int, head[2] as int)
  {
    var w, x, y, z :=
      SextetValue(quad[0]).value, SextetValue(quad[1]).value, SextetValue(quad[2]).value, SextetValue(quad[3]).value;
    assert head == [(w * 4 + x / 16) as Byte, (x % 16 * 16 + y / 4) as Byte, (y % 4 * 64 + z) as Byte];
    QuadOfThree(w, x, y, z);
    assert quad == [Sextet(w), Sextet(x), Sextet(y), Sextet(z)];
  }

  lemma EncodeStep(quad: string, rest: string, head: Bytes, tail: Bytes)
    requires |quad| == 4 && DecodeQuad(quad, rest == "") == Some(head)
    requires Encode(tail) == rest && (rest == "" ==> tail == [])
    ensures Encode(head + tail) == quad + rest
  {
    if SextetValue(quad[2]).None? {
      PaddedTwice(quad, rest == "", head);
      assert head + tail == [head[0]];
      EncodesOne(head[0]);
    } else if SextetValue(quad[3]).None? {
      PaddedOnce(quad, rest == "", head);
      assert head + tail == [head[0], head[1]];
      EncodesTwo(head[0], head[1]);
    } else {
      NotPadded(quad, rest == "", head);
      assert head + tail == [head[0], head[1], head[2]] + tail;
      EncodesThree(head[0], head[1], head[2], tail);
    }
  }

  /** Decoding accepts nothing but encodings. */
  lemma {:induction false} Base64IsCanonical(s: string, bytes: Bytes)
    requires Decode(s) == Some(bytes)
    ensures Encode(bytes) == s
    decreases |s|
  {
    if s != "" {
      var quad, rest := s[..4], s[4..];
      assert s == quad + rest;
      Base64IsCanonical(rest, Decode(rest).value);
      EncodeStep(quad, rest, DecodeQuad(quad, rest == "").value, Decode(rest).value);
    }
  }
}
