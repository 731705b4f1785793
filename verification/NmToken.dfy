// Numbers and byte strings as NMTOKENs.

module NmToken {
  import opened Common

  type Byte = b: nat | b < 256
  type Sextet = v: nat | v < 64

  // ---------------------------------------------------------------- URL-safe base64, section 5 of RFC 4648

  function Digit(v: Sextet): (c: char) {
    if v < 26 then 'A' + v as char
    else if v < 52 then 'a' + (v - 26) as char
    else if v < 62 then '0' + (v - 52) as char
    else if v == 62 then '-'
    else '_'
  }

  function DigitValue(c: char): Sextet {
    if 'A' <= c <= 'Z' then (c - 'A') as int
    else if 'a' <= c <= 'z' then (c - 'a') as int + 26
    else if '0' <= c <= '9' then (c - '0') as int + 52
    else if c == '-' then 62
    else 63
  }

  predicate IsDigit(c: char) {
    'A' <= c <= 'Z' || 'a' <= c <= 'z' || '0' <= c <= '9' || c == '-' || c == '_'
  }

  lemma DigitReadsBack(v: Sextet)
    ensures DigitValue(Digit(v)) == v && IsDigit(Digit(v))
  {
  }

  /** With padding. */
  function Encode(b: seq<Byte>): string {
    if b == [] then ""
    else if |b| == 1 then [Digit(b[0] / 4), Digit(b[0] % 4 * 16), '=', '=']
    else if |b| == 2 then [Digit(b[0] / 4), Digit(b[0] % 4 * 16 + b[1] / 16), Digit(b[1] % 16 * 4), '=']
    else FourDigits(b[0], b[1], b[2]) + Encode(b[3..])
  }

  function FourDigits(x: Byte, y: Byte, z: Byte): string {
    [Digit(x / 4), Digit(x % 4 * 16 + y / 16), Digit(y % 16 * 4 + z / 64), Digit(z % 64)]
  }

  function StripRight(s: string, c: char): string {
    if s != [] && s[|s| - 1] == c then StripRight(s[..|s| - 1], c) else s
  }

  /** Without padding. */
  function Decode(s: string): seq<Byte> {
    if |s| < 2 then []
    else
      var d0, d1 := DigitValue(s[0]), DigitValue(s[1]);
      if |s| == 2 then [d0 * 4 + d1 / 16]
      else
        var d2 := DigitValue(s[2]);
        if |s| == 3 then [d0 * 4 + d1 / 16, d1 % 16 * 16 + d2 / 4]
        else [d0 * 4 + d1 / 16, d1 % 16 * 16 + d2 / 4, d2 % 4 * 64 + DigitValue(s[3])] + Decode(s[4..])
  }

  ghost predicate AllDigits(s: string) {
    forall i :: 0 <= i < |s| ==> IsDigit(s[i])
  }

  lemma {:induction false} StripLast(a: string, b: string, c: char)
    requires a == [] || a[|a| - 1] != c
    requires forall i :: 0 <= i < |b| ==> b[i] == c
    ensures StripRight(a + b, c) == a
  {
    if b == [] {
      assert a + b == a;
    } else {
      assert (a + b)[..|a + b| - 1] == a + b[..|b| - 1];
      StripLast(a, b[..|b| - 1], c);
    }
  }

  /** A text and its padding, as the encoding is made of them: the text alone decodes. */
  lemma {:induction false} EncodedReadsBack(b: seq<Byte>) returns (text: string, padding: string)
    ensures Encode(b) == text + padding && AllDigits(text) && Decode(text) == b
    ensures forall i :: 0 <= i < |padding| ==> padding[i] == '='
    ensures text == [] <==> b == []
  {
    if b == [] {
      text, padding := "", "";
    } else if |b| <= 2 {
      text, padding := ShortReadsBack(b);
    } else {
      hide AllDigits, Decode;
      var rest;
      rest, padding := EncodedReadsBack(b[3..]);
      text := FourDigits(b[0], b[1], b[2]) + rest;
      FourReadBack(b[0], b[1], b[2], rest);
      assert b == [b[0], b[1], b[2]] + b[3..];
    }
  }

  lemma ShortReadsBack(b: seq<Byte>) returns (text: string, padding: string)
    requires 1 <= |b| <= 2
    ensures Encode(b) == text + padding && AllDigits(text) && Decode(text) == b && text != []
    ensures forall i :: 0 <= i < |padding| ==> padding[i] == '='
  {
    hide Digit, DigitValue, IsDigit;
    DigitReadsBack(b[0] / 4);
    if |b| == 1 {
      DigitReadsBack(b[0] % 4 * 16);
      text, padding := [Digit(b[0] / 4), Digit(b[0] % 4 * 16)], "==";
    } else {
      DigitReadsBack(b[0] % 4 * 16 + b[1] / 16);
      DigitReadsBack(b[1] % 16 * 4);
      text, padding := [Digit(b[0] / 4), Digit(b[0] % 4 * 16 + b[1] / 16), Digit(b[1] % 16 * 4)], "=";
    }
  }

  lemma SextetsReadBack(x: Byte, y: Byte, z: Byte)
    ensures var s0, s1, s2, s3 := x / 4, x % 4 * 16 + y / 16, y % 16 * 4 + z / 64, z % 64;
      s0 * 4 + s1 / 16 == x && s1 % 16 * 16 + s2 / 4 == y && s2 % 4 * 64 + s3 == z
  {
    var s0, s1, s2, s3 := x / 4, x % 4 * 16 + y / 16, y % 16 * 4 + z / 64, z % 64;
    assert s1 / 16 == x % 4 && s1 % 16 == y / 16;
    assert s2 / 4 == y % 16 && s2 % 4 == z / 64;
  }

  lemma DecodeFour(d: string, rest: string)
    requires |d| == 4
    ensures var s0, s1, s2, s3 := DigitValue(d[0]), DigitValue(d[1]), DigitValue(d[2]), DigitValue(d[3]);
      Decode(d + rest) == [s0 * 4 + s1 / 16, s1 % 16 * 16 + s2 / 4, s2 % 4 * 64 + s3] + Decode(rest)
  {
    hide DigitValue;
    assert (d + rest)[4..] == rest;
  }

  lemma FourReadBack(x: Byte, y: Byte, z: Byte, rest: string)
    requires AllDigits(rest)
    ensures AllDigits(FourDigits(x, y, z) + rest) && Decode(FourDigits(x, y, z) + rest) == [x, y, z] + Decode(rest)
  {
    hide Digit, DigitValue, IsDigit, Decode;
    DigitReadsBack(x / 4);
    DigitReadsBack(x % 4 * 16 + y / 16);
    DigitReadsBack(y % 16 * 4 + z / 64);
    DigitReadsBack(z % 64);
    SextetsReadBack(x, y, z);
    DecodeFour(FourDigits(x, y, z), rest);
  }

  // ---------------------------------------------------------------- numbers as bytes

  function BitLength(n: nat): nat {
    if n == 0 then 0 else 1 + BitLength(n / 2)
  }

  function LittleEndian(n: nat, length: nat): seq<Byte> {
    if length == 0 then [] else [n % 256] + LittleEndian(n / 256, length - 1)
  }

  function FromLittleEndian(b: seq<Byte>): nat {
    if b == [] then 0 else b[0] + 256 * FromLittleEndian(b[1..])
  }

  lemma {:induction false} BitsOfShifted(n: nat)
    ensures n < 256 ==> BitLength(n) <= 8
    ensures n >= 256 ==> BitLength(n) == 8 + BitLength(n / 256)
  {
    hide BitLength;
    BitsQuartered(n);
    BitsQuartered(n / 4);
    BitsQuartered(n / 4 / 4);
    BitsQuartered(n / 4 / 4 / 4);
    assert n / 4 / 4 / 4 / 4 == n / 256;
  }

  lemma BitsQuartered(n: nat)
    ensures n >= 4 ==> BitLength(n) == 2 + BitLength(n / 4)
    ensures n < 4 ==> BitLength(n) <= 2
  {
    assert n / 2 / 2 == n / 4;
    assert BitLength(0) == 0 && BitLength(1) == 1;
    assert n < 4 ==> n / 2 == 0 || n / 2 == 1;
  }

  /** The number survives in as many bytes as its bit length, rounded up, calls for. */
  lemma {:induction false} BytesReadBack(n: nat, length: nat)
    requires BitLength(n) <= 8 * length
    ensures FromLittleEndian(LittleEndian(n, length)) == n
    decreases length
  {
    if length > 0 {
      BitsOfShifted(n);
      BytesReadBack(n / 256, length - 1);
      assert LittleEndian(n, length)[1..] == LittleEndian(n / 256, length - 1);
    }
  }

  // ---------------------------------------------------------------- tokens

  datatype Token = Number(n: int) | Bytes(b: seq<Byte>)

  function Unpadded(b: seq<Byte>): string {
    StripRight(Encode(b), '=')
  }

  /** As many bytes as the bit length, rounded up, calls for; least significant first. */
  function NumberBytes(n: nat): seq<Byte> {
    LittleEndian(n, (BitLength(n) + 7) / 8)
  }

  /** None is the OverflowError that `int.to_bytes` raises for a negative number. */
  function ToNmtoken(t: Token): (r: Option<string>)
    ensures r.None? <==> t.Number? && t.n < 0
  {
    match t
    case Number(n) =>
      if n < 0 then None else Some(":" + Unpadded(NumberBytes(n)))
    case Bytes(b) =>
      var e := Unpadded(b);
      Some(if e == "" then "." else e)
  }

  function FromNmtoken(s: string): Token {
    if s == [] then Bytes([])
    else if s[0] == ':' then Number(FromLittleEndian(Decode(s[1..])))
    else if s == "." then Bytes([])
    else Bytes(Decode(s))
  }

  lemma UnpaddedReadsBack(b: seq<Byte>)
    ensures Decode(Unpadded(b)) == b && AllDigits(Unpadded(b))
    ensures Unpadded(b) == "" <==> b == []
  {
    var text, padding := EncodedReadsBack(b);
    assert text != [] ==> IsDigit(text[|text| - 1]);
    StripLast(text, padding, '=');
  }

  // ---------------------------------------------------------------- what is written, as a number

  /** A number and the bytes after it, most significant first. */
  function BigEndian(high: nat, b: seq<Byte>): nat
    decreases |b|
  {
    if b == [] then high else BigEndian(high * 256 + b[0], b[1..])
  }

  /** A number and the digits after it, most significant first. */
  function Sextets(high: nat, text: string): nat
    decreases |text|
  {
    if text == "" then high else Sextets(high * 64 + DigitValue(text[0]), text[1..])
  }

  /** The number that `n` bytes make, with the zero bits that fill up the last digit. */
  function Filled(v: nat, n: nat): nat {
    if n % 3 == 0 then v else if n % 3 == 1 then v * 16 else v * 4
  }

  lemma FilledAgain(v: nat, n: nat)
    ensures Filled(v, n + 3) == Filled(v, n) && (8 * (n + 3) + 5) / 6 == 4 + (8 * n + 5) / 6
  {
    assert (n + 3) % 3 == n % 3;
  }

  lemma FilledShort(v: nat)
    ensures Filled(v, 0) == v && Filled(v, 1) == v * 16 && Filled(v, 2) == v * 4
  {
  }

  lemma UnpaddedOne(x: Byte)
    ensures Unpadded([x]) == [Digit(x / 4), Digit(x % 4 * 16)]
  {
    DigitReadsBack(x % 4 * 16);
    var text := [Digit(x / 4), Digit(x % 4 * 16)];
    assert Encode([x]) == text + "==";
    StripLast(text, "==", '=');
  }

  lemma UnpaddedTwo(x: Byte, y: Byte)
    ensures Unpadded([x, y]) == [Digit(x / 4), Digit(x % 4 * 16 + y / 16), Digit(y % 16 * 4)]
  {
    DigitReadsBack(y % 16 * 4);
    var text := [Digit(x / 4), Digit(x % 4 * 16 + y / 16), Digit(y % 16 * 4)];
    assert Encode([x, y]) == text + "=";
    StripLast(text, "=", '=');
  }

  lemma UnpaddedMore(b: seq<Byte>)
    requires |b| >= 3
    ensures Unpadded(b) == FourDigits(b[0], b[1], b[2]) + Unpadded(b[3..])
  {
    var text, padding := EncodedReadsBack(b[3..]);
    var four := FourDigits(b[0], b[1], b[2]);
    assert text != [] ==> IsDigit(text[|text| - 1]);
    StripLast(text, padding, '=');
    assert Encode(b) == (four + text) + padding;
    DigitReadsBack(b[2] % 64);
    StripLast(four + text, padding, '=');
  }

  function OfThree(high: nat, x: nat, y: nat, z: nat): nat {
    high * 16777216 + x * 65536 + y * 256 + z
  }

  lemma SextetsNext(high: nat, c: char, rest: string)
    ensures Sextets(high, [c] + rest) == Sextets(high * 64 + DigitValue(c), rest)
  {
    assert ([c] + rest)[1..] == rest;
  }

  lemma FourAsNumber(high: nat, x: Byte, y: Byte, z: Byte)
    ensures (((high * 64 + x / 4) * 64 + (x % 4 * 16 + y / 16)) * 64 + (y % 16 * 4 + z / 64)) * 64 + z % 64
      == OfThree(high, x, y, z)
  {
  }

  lemma SextetsOfFour(high: nat, x: Byte, y: Byte, z: Byte, rest: string)
    ensures Sextets(high, FourDigits(x, y, z) + rest) == Sextets(OfThree(high, x, y, z), rest)
  {
    var a, b, c, d := Digit(x / 4), Digit(x % 4 * 16 + y / 16), Digit(y % 16 * 4 + z / 64), Digit(z % 64);
    DigitReadsBack(x / 4);
    DigitReadsBack(x % 4 * 16 + y / 16);
    DigitReadsBack(y % 16 * 4 + z / 64);
    DigitReadsBack(z % 64);
    FourAsNumber(high, x, y, z);
    hide Digit, DigitValue, Sextets, OfThree;
    assert FourDigits(x, y, z) + rest == [a] + ([b] + ([c] + ([d] + rest)));
    SextetsNext(high, a, [b] + ([c] + ([d] + rest)));
    SextetsNext(high * 64 + x / 4, b, [c] + ([d] + rest));
    SextetsNext((high * 64 + x / 4) * 64 + (x % 4 * 16 + y / 16), c, [d] + rest);
    SextetsNext(((high * 64 + x / 4) * 64 + (x % 4 * 16 + y / 16)) * 64 + (y % 16 * 4 + z / 64), d, rest);
  }

  lemma BytesOfThree(high: nat, b: seq<Byte>)
    requires |b| >= 3
    ensures BigEndian(high, b) == BigEndian(OfThree(high, b[0], b[1], b[2]), b[3..])
  {
    assert b[1..][0] == b[1] && b[1..][1..] == b[2..] && b[2..][0] == b[2] && b[2..][1..] == b[3..];
    assert BigEndian(high, b) == BigEndian(high * 256 + b[0], b[1..]);
    assert BigEndian(high * 256 + b[0], b[1..]) == BigEndian((high * 256 + b[0]) * 256 + b[1], b[2..]);
  }

  lemma TextOfOne(high: nat, x: Byte)
    ensures |Unpadded([x])| == 2 && Sextets(high, Unpadded([x])) == BigEndian(high, [x]) * 16
  {
    var c, d := Digit(x / 4), Digit(x % 4 * 16);
    UnpaddedOne(x);
    DigitReadsBack(x / 4);
    DigitReadsBack(x % 4 * 16);
    assert BigEndian(high, [x]) == high * 256 + x;
    assert Sextets((high * 64 + x / 4) * 64 + x % 4 * 16, "") == (high * 64 + x / 4) * 64 + x % 4 * 16;
    hide Digit, DigitValue, Unpadded, Sextets, BigEndian;
    assert [c, d] == [c] + ([d] + "");
    SextetsNext(high, c, [d] + "");
    SextetsNext(high * 64 + x / 4, d, "");
  }

  lemma TextOfTwo(high: nat, x: Byte, y: Byte)
    ensures |Unpadded([x, y])| == 3 && Sextets(high, Unpadded([x, y])) == BigEndian(high, [x, y]) * 4
  {
    var c, d, e := Digit(x / 4), Digit(x % 4 * 16 + y / 16), Digit(y % 16 * 4);
    UnpaddedTwo(x, y);
    DigitReadsBack(x / 4);
    DigitReadsBack(x % 4 * 16 + y / 16);
    DigitReadsBack(y % 16 * 4);
    BytesOfTwo(high, x, y);
    var v := ((high * 64 + x / 4) * 64 + (x % 4 * 16 + y / 16)) * 64 + y % 16 * 4;
    assert Sextets(v, "") == v;
    hide Digit, DigitValue, Unpadded, Sextets, BigEndian;
    assert [c, d, e] == [c] + ([d] + ([e] + ""));
    SextetsNext(high, c, [d] + ([e] + ""));
    SextetsNext(high * 64 + x / 4, d, [e] + "");
    SextetsNext((high * 64 + x / 4) * 64 + (x % 4 * 16 + y / 16), e, "");
  }

  lemma BytesOfTwo(high: nat, x: Byte, y: Byte)
    ensures BigEndian(high, [x, y]) == (high * 256 + x) * 256 + y
  {
    assert [x, y][1..] == [y];
    assert BigEndian(high, [x, y]) == BigEndian(high * 256 + x, [y]);
  }

  lemma NoText()
    ensures Unpadded([]) == "" && forall high: nat :: Sextets(high, "") == high == BigEndian(high, [])
  {
  }

  /** The digits, six bits each, are the bits of the bytes, most significant first, and as few zeros as fill a digit. */
  lemma {:induction false} TextIsNumber(high: nat, b: seq<Byte>)
    ensures |Unpadded(b)| == (8 * |b| + 5) / 6
    ensures Sextets(high, Unpadded(b)) == Filled(BigEndian(high, b), |b|)
    decreases |b|
  {
    hide Unpadded, BigEndian, Sextets, OfThree, Filled;
    FilledShort(BigEndian(high, b));
    if b == [] {
      NoText();
    } else if |b| == 1 {
      assert b == [b[0]];
      TextOfOne(high, b[0]);
    } else if |b| == 2 {
      assert b == [b[0], b[1]];
      TextOfTwo(high, b[0], b[1]);
    } else {
      UnpaddedMore(b);
      BytesOfThree(high, b);
      SextetsOfFour(high, b[0], b[1], b[2], Unpadded(b[3..]));
      TextIsNumber(OfThree(high, b[0], b[1], b[2]), b[3..]);
      FilledAgain(BigEndian(high, b), |b| - 3);
    }
  }

  /** A number is written in as few bytes as it can be: the last one, the most significant, is not zero. */
  lemma {:induction false} FewestBytes(n: nat)
    ensures var b := NumberBytes(n);
      && (b == [] <==> n == 0) && (b != [] ==> b[|b| - 1] != 0) && FromLittleEndian(b) == n
    decreases n
  {
    BitsOfShifted(n);
    BytesReadBack(n, (BitLength(n) + 7) / 8);
    assert n > 0 ==> BitLength(n) > 0;
    if n >= 256 {
      FewestBytes(n / 256);
      hide BitLength;
      assert (BitLength(n) + 7) / 8 == 1 + (BitLength(n / 256) + 7) / 8;
    }
  }

  /** Every token can be read back from its NMTOKEN. */
  lemma TokenReadsBack(t: Token)
    requires ToNmtoken(t).Some?
    ensures FromNmtoken(ToNmtoken(t).value) == t
  {
    hide Unpadded, Decode, NumberBytes, FromLittleEndian;
    match t
    case Number(n) =>
      UnpaddedReadsBack(NumberBytes(n));
      FewestBytes(n);
      assert ToNmtoken(t).value[1..] == Unpadded(NumberBytes(n));
    case Bytes(b) =>
      UnpaddedReadsBack(b);
      var e := Unpadded(b);
      assert e != "" ==> IsDigit(e[0]);
  }

  /** Different tokens, numbers and byte strings taken together, have different NMTOKENs. */
  lemma Injective(a: Token, b: Token)
    requires ToNmtoken(a).Some? && ToNmtoken(a) == ToNmtoken(b)
    ensures a == b
  {
    TokenReadsBack(a);
    TokenReadsBack(b);
  }

  predicate IsNameChar(c: char) {
    IsDigit(c) || c == ':' || c == '.'
  }

  /** Only name characters occur, and at least one. */
  lemma IsNmtoken(t: Token)
    requires ToNmtoken(t).Some?
    ensures ToNmtoken(t).value != "" && forall c :: c in ToNmtoken(t).value ==> IsNameChar(c)
  {
    hide Unpadded, IsDigit, NumberBytes, Decode;
    match t
    case Number(n) => UnpaddedReadsBack(NumberBytes(n));
    case Bytes(b) => UnpaddedReadsBack(b);
  }
}
