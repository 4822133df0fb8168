/** Hexadecimal and base64 text (sections 8 and 4 of RFC 4648), as the probe DSL uses them. */
module Encodings {
  import opened Wrappers
  import opened Words

  predicate IsAsciiSpace(b: byte) {
    b == 0x20 || b == 0x09 || b == 0x0a || b == 0x0c || b == 0x0d
  }

  function DropSpaces(s: Bytes): (r: Bytes)
    ensures |r| <= |s|
  {
    if s == [] then []
    else if IsAsciiSpace(s[0]) then DropSpaces(s[1..])
    else [s[0]] + DropSpaces(s[1..])
  }

  // ----- hexadecimal

  function Nibble(c: byte): (r: Option<int>)
    ensures r.Some? ==> 0 <= r.value < 16
  {
    if 48 <= c <= 57 then Some(c as int - 48)
    else if 97 <= c <= 102 then Some(c as int - 87)
    else if 65 <= c <= 70 then Some(c as int - 55)
    else None
  }

  function HexDecode(s: Bytes): (r: Option<Bytes>)
    ensures r.Some? ==> |r.value| == |s| / 2
  {
    if s == [] then Some([])
    else if |s| == 1 then None
    else
      var high :- Nibble(s[0]);
      var low :- Nibble(s[1]);
      var rest :- HexDecode(s[2..]);
      Some([(16 * high + low) as byte] + rest)
  }

  /** `parse_hex`: white space between digits is ignored. */
  function ParseHex(s: Bytes): Option<Bytes> {
    HexDecode(DropSpaces(s))
  }

  function HexDigit(n: int, upper: bool): byte
    requires 0 <= n < 16
  {
    (if n < 10 then 48 + n else (if upper then 55 else 87) + n) as byte
  }

  /** The bytes as hexadecimal text, each digit in either case, with any spaces between digits. */
  datatype Printed = Printed(n: byte, upperHigh: bool, upperLow: bool, between: Bytes, after: Bytes) {
    predicate Spaced() {
      (forall i :: 0 <= i < |between| ==> IsAsciiSpace(between[i])) && (forall i :: 0 <= i < |after| ==> IsAsciiSpace(after[i]))
    }

    function Digits(): Bytes {
      [HexDigit(n as int / 16, upperHigh), HexDigit(n as int % 16, upperLow)]
    }

    function Text(): Bytes {
      [HexDigit(n as int / 16, upperHigh)] + between + [HexDigit(n as int % 16, upperLow)] + after
    }
  }

  function PrintHex(bytes: seq<Printed>): Bytes {
    if bytes == [] then [] else bytes[0].Text() + PrintHex(bytes[1..])
  }

  function ValuesOf(bytes: seq<Printed>): Bytes {
    seq(|bytes|, i requires 0 <= i < |bytes| => bytes[i].n)
  }

  lemma {:induction false} DropsSpaces(spaces: Bytes, rest: Bytes)
    requires forall i :: 0 <= i < |spaces| ==> IsAsciiSpace(spaces[i])
    ensures DropSpaces(spaces + rest) == DropSpaces(rest)
  {
    if spaces == [] {
      assert spaces + rest == rest;
    } else {
      DropsSpaces(spaces[1..], rest);
      assert (spaces + rest)[1..] == spaces[1..] + rest;
    }
  }

  lemma KeepsDigit(digit: byte, rest: Bytes)
    requires !IsAsciiSpace(digit)
    ensures DropSpaces([digit] + rest) == [digit] + DropSpaces(rest)
  {
    assert ([digit] + rest)[1..] == rest;
  }

  lemma DropsFirst(b: Printed, rest: Bytes)
    requires b.Spaced()
    ensures DropSpaces(b.Text() + rest) == b.Digits() + DropSpaces(rest)
  {
    var high, low := HexDigit(b.n as int / 16, b.upperHigh), HexDigit(b.n as int % 16, b.upperLow);
    assert !IsAsciiSpace(high) && !IsAsciiSpace(low);
    hide DropSpaces, HexDigit, IsAsciiSpace;
    assert b.Text() + rest == [high] + (b.between + ([low] + (b.after + rest)));
    KeepsDigit(high, b.between + ([low] + (b.after + rest)));
    DropsSpaces(b.between, [low] + (b.after + rest));
    KeepsDigit(low, b.after + rest);
    DropsSpaces(b.after, rest);
    assert [high] + ([low] + DropSpaces(rest)) == b.Digits() + DropSpaces(rest);
  }

  lemma DigitReads(n: int, upper: bool)
    requires 0 <= n < 16
    ensures Nibble(HexDigit(n, upper)) == Some(n)
  {}

  lemma DecodesTwo(text: Bytes, high: int, low: int)
    requires |text| >= 2 && Nibble(text[0]) == Some(high) && Nibble(text[1]) == Some(low)
    ensures HexDecode(text) ==
            if HexDecode(text[2..]).Some? then Some([(16 * high + low) as byte] + HexDecode(text[2..]).value) else None
  {
    hide Nibble;
  }

  lemma DecodesFirst(b: Printed, rest: Bytes)
    ensures HexDecode(b.Digits() + rest) == if HexDecode(rest).Some? then Some([b.n] + HexDecode(rest).value) else None
  {
    hide Nibble, HexDigit, HexDecode;
    var text := b.Digits() + rest;
    var high, low := b.n as int / 16, b.n as int % 16;
    assert text[0] == HexDigit(high, b.upperHigh) && text[1] == HexDigit(low, b.upperLow) && text[2..] == rest;
    DigitReads(high, b.upperHigh);
    DigitReads(low, b.upperLow);
    assert 16 * high + low == b.n as int;
    DecodesTwo(text, high, low);
  }

  /** Hexadecimal text of either case decodes to the bytes it prints, wherever it is spaced. */
  lemma {:induction false} ParsesPrintedHex(bytes: seq<Printed>)
    requires forall i :: 0 <= i < |bytes| ==> bytes[i].Spaced()
    ensures ParseHex(PrintHex(bytes)) == Some(ValuesOf(bytes))
  {
    if bytes != [] {
      hide DropSpaces, HexDecode, Printed.Text, Printed.Digits, Printed.Spaced;
      ParsesPrintedHex(bytes[1..]);
      DropsFirst(bytes[0], PrintHex(bytes[1..]));
      DecodesFirst(bytes[0], DropSpaces(PrintHex(bytes[1..])));
      assert ValuesOf(bytes) == [bytes[0].n] + ValuesOf(bytes[1..]);
    }
  }

  // ----- base64, worked on bit strings

  const PAD: bv8 := 61

  function Letter(d: bv8): bv8
    requires d < 64
  {
    if d < 26 then d + 65
    else if d < 52 then d + 71
    else if d < 62 then d - 4
    else if d == 62 then 43
    else 47
  }

  function Digit(c: bv8): Option<bv8> {
    if 65 <= c <= 90 then Some(c - 65)
    else if 97 <= c <= 122 then Some(c - 71)
    else if 48 <= c <= 57 then Some(c + 4)
    else if c == 43 then Some(62)
    else if c == 47 then Some(63)
    else None
  }

  /** The four sextets of three octets. */
  function Sextet0(a: bv8): bv8 { a >> 2 }
  function Sextet1(a: bv8, b: bv8): bv8 { ((a & 3) << 4) | (b >> 4) }
  function Sextet2(b: bv8, c: bv8): bv8 { ((b & 15) << 2) | (c >> 6) }
  function Sextet3(c: bv8): bv8 { c & 63 }

  /** The three octets of four sextets. */
  function Octet0(p: bv8, q: bv8): bv8 { (p << 2) | (q >> 4) }
  function Octet1(q: bv8, u: bv8): bv8 { (q << 4) | (u >> 2) }
  function Octet2(u: bv8, v: bv8): bv8 { (u << 6) | v }

  function EncodeGroup(s: seq<bv8>): (r: seq<bv8>)
    requires 1 <= |s| <= 3
    ensures |r| == 4
  {
    if |s| == 1 then [Letter(Sextet0(s[0])), Letter(Sextet1(s[0], 0)), PAD, PAD]
    else if |s| == 2 then
      [Letter(Sextet0(s[0])), Letter(Sextet1(s[0], s[1])), Letter(Sextet2(s[1], 0)), PAD]
    else
      [Letter(Sextet0(s[0])), Letter(Sextet1(s[0], s[1])), Letter(Sextet2(s[1], s[2])), Letter(Sextet3(s[2]))]
  }

  function EncodeBits(s: seq<bv8>): (r: seq<bv8>)
    ensures |r| == (|s| + 2) / 3 * 4
  {
    if s == [] then []
    else if |s| <= 3 then EncodeGroup(s)
    else EncodeGroup(s[..3]) + EncodeBits(s[3..])
  }

  /** The octets of one group of four letters; padding and unused bits must be canonical. */
  function DecodeGroup(s: seq<bv8>): (r: Option<seq<bv8>>)
    requires |s| == 4
    ensures r.Some? ==> 1 <= |r.value| <= 3
  {
    var p :- Digit(s[0]);
    var q :- Digit(s[1]);
    if s[2] == PAD && s[3] == PAD then
      if q & 15 == 0 then Some([Octet0(p, q)]) else None
    else
      var u :- Digit(s[2]);
      if s[3] == PAD then
        if u & 3 == 0 then Some([Octet0(p, q), Octet1(q, u)]) else None
      else
        var v :- Digit(s[3]);
        Some([Octet0(p, q), Octet1(q, u), Octet2(u, v)])
  }

  /** The strict standard decoder: padding is required, and allowed in the last group only. */
  function DecodeBits(s: seq<bv8>): (r: Option<seq<bv8>>)
    ensures r.Some? ==> |r.value| <= |s|
  {
    if s == [] then Some([])
    else if |s| < 4 then None
    else
      var first :- DecodeGroup(s[..4]);
      if |s| > 4 && |first| < 3 then None
      else
        var rest :- DecodeBits(s[4..]);
        Some(first + rest)
  }

  function Base64Encode(s: Bytes): (r: Bytes)
    ensures |r| == (|s| + 2) / 3 * 4
  {
    Numbers(EncodeBits(Bits(s)))
  }

  function Base64Decode(s: Bytes): (r: Option<Bytes>)
    ensures r.Some? ==> |r.value| <= |s|
  {
    var bits :- DecodeBits(Bits(s));
    Some(Numbers(bits))
  }

  lemma DigitOfLetter(d: bv8)
    requires d < 64
    ensures Digit(Letter(d)) == Some(d) && Letter(d) != PAD
  {}

  lemma LetterOfDigit(c: bv8)
    requires Digit(c).Some?
    ensures Digit(c).value < 64 && Letter(Digit(c).value) == c
  {}

  lemma OctetsOfSextets(a: bv8, b: bv8, c: bv8)
    ensures Octet0(Sextet0(a), Sextet1(a, b)) == a
    ensures Octet1(Sextet1(a, b), Sextet2(b, c)) == b
    ensures Octet2(Sextet2(b, c), Sextet3(c)) == c
    ensures Sextet1(a, 0) & 15 == 0 && Sextet2(b, 0) & 3 == 0
    ensures Sextet0(a) < 64 && Sextet1(a, b) < 64 && Sextet2(b, c) < 64 && Sextet3(c) < 64
  {}

  lemma SextetsOfOctets(p: bv8, q: bv8, u: bv8, v: bv8)
    requires p < 64 && q < 64 && u < 64 && v < 64
    ensures Sextet0(Octet0(p, q)) == p
    ensures Sextet1(Octet0(p, q), Octet1(q, u)) == q
    ensures Sextet2(Octet1(q, u), Octet2(u, v)) == u
    ensures Sextet3(Octet2(u, v)) == v
    ensures q & 15 == 0 ==> Sextet1(Octet0(p, q), 0) == q
    ensures u & 3 == 0 ==> Sextet2(Octet1(q, u), 0) == u
  {}

  lemma GroupOfEncoding(s: seq<bv8>)
    requires 1 <= |s| <= 3
    ensures DecodeGroup(EncodeGroup(s)) == Some(s)
  {
    var a, b, c := s[0], if |s| > 1 then s[1] else 0, if |s| > 2 then s[2] else 0;
    OctetsOfSextets(a, b, c);
    DigitOfLetter(Sextet0(a));
    DigitOfLetter(Sextet1(a, b));
    DigitOfLetter(Sextet2(b, c));
    DigitOfLetter(Sextet3(c));
    assert s == if |s| == 1 then [a] else if |s| == 2 then [a, b] else [a, b, c];
  }

  lemma EncodingOfGroup(s: seq<bv8>)
    requires |s| == 4 && DecodeGroup(s).Some?
    ensures EncodeGroup(DecodeGroup(s).value) == s
  {
    LetterOfDigit(s[0]);
    LetterOfDigit(s[1]);
    var p, q := Digit(s[0]).value, Digit(s[1]).value;
    if s[2] == PAD {
      SextetsOfOctets(p, q, 0, 0);
    } else {
      LetterOfDigit(s[2]);
      var u := Digit(s[2]).value;
      if s[3] == PAD {
        SextetsOfOctets(p, q, u, 0);
      } else {
        LetterOfDigit(s[3]);
        SextetsOfOctets(p, q, u, Digit(s[3]).value);
      }
    }
  }

  lemma {:induction false} DecodeEncodedBits(s: seq<bv8>)
    ensures DecodeBits(EncodeBits(s)) == Some(s)
  {
    hide EncodeGroup, DecodeGroup;
    if s != [] {
      var first, rest := s[..if |s| < 3 then |s| else 3], s[if |s| < 3 then |s| else 3..];
      GroupOfEncoding(first);
      DecodeEncodedBits(rest);
      assert |s| <= 3 ==> first == s;
      var code := EncodeBits(s);
      assert code[..4] == EncodeGroup(first) && code[4..] == EncodeBits(rest);
      assert s == first + rest;
    }
  }

  lemma {:induction false} EncodeDecodedBits(s: seq<bv8>)
    requires DecodeBits(s).Some?
    ensures EncodeBits(DecodeBits(s).value) == s
  {
    hide EncodeGroup, DecodeGroup;
    if s != [] {
      EncodingOfGroup(s[..4]);
      EncodeDecodedBits(s[4..]);
      var first, rest := DecodeGroup(s[..4]).value, DecodeBits(s[4..]).value;
      if |s| > 4 {
        assert (first + rest)[..3] == first && (first + rest)[3..] == rest;
        assert rest != [];
      } else {
        assert first + rest == first;
      }
      assert s == s[..4] + s[4..];
    }
  }

  /** Decoding inverts encoding for every byte string. */
  lemma DecodeAfterEncode(s: Bytes)
    ensures Base64Decode(Base64Encode(s)) == Some(s)
  {
    hide EncodeBits, DecodeBits, Bits, Numbers;
    BitsRoundTrip(EncodeBits(Bits(s)));
    DecodeEncodedBits(Bits(s));
    NumbersRoundTrip(s);
  }

  /** Only canonical text decodes: encoding inverts every successful decoding. */
  lemma EncodeAfterDecode(s: Bytes)
    requires Base64Decode(s).Some?
    ensures Base64Encode(Base64Decode(s).value) == s
  {
    hide EncodeBits, DecodeBits, Bits, Numbers;
    BitsRoundTrip(DecodeBits(Bits(s)).value);
    EncodeDecodedBits(Bits(s));
    NumbersRoundTrip(s);
  }

  /** Vectors of section 10 of RFC 4648: "f", "fo", "foo" and "foob". */
  lemma PublishedVectors()
    ensures Base64Encode([102]) == [90, 103, 61, 61]
    ensures Base64Encode([102, 111]) == [90, 109, 56, 61]
    ensures Base64Encode([102, 111, 111]) == [90, 109, 57, 118]
    ensures Base64Encode([102, 111, 111, 98]) == [90, 109, 57, 118, 89, 103, 61, 61]
  {
    hide EncodeGroup;
    GroupVectors();
    GroupEncoded([102]);
    GroupEncoded([102, 111]);
    GroupEncoded([102, 111, 111]);
    TwoGroupsEncoded([102, 111, 111], [98]);
    assert [102, 111, 111] + [98] == [102, 111, 111, 98];
    hide Base64Encode;
    assert Bits([102]) == [102] && Bits([98]) == [98];
    assert Bits([102, 111]) == [102, 111];
    assert Bits([102, 111, 111]) == [102, 111, 111];
  }

  lemma GroupEncoded(s: Bytes)
    requires 1 <= |s| <= 3
    ensures Base64Encode(s) == Numbers(EncodeGroup(Bits(s)))
  {
    hide EncodeGroup, Numbers;
    var bits := Bits(s);
    hide Bits;
    assert bits != [] && |bits| <= 3;
  }

  lemma TwoGroupsEncoded(s: Bytes, t: Bytes)
    requires |s| == 3 && 1 <= |t| <= 3
    ensures Base64Encode(s + t) == Numbers(EncodeGroup(Bits(s))) + Numbers(EncodeGroup(Bits(t)))
  {
    hide EncodeGroup, Numbers;
    var bits, first, second := Bits(s + t), Bits(s), Bits(t);
    assert bits[..3] == first && bits[3..] == second;
    hide Bits;
    assert EncodeBits(bits) == EncodeGroup(first) + EncodeBits(second) && EncodeBits(second) == EncodeGroup(second);
    NumbersJoin(EncodeGroup(first), EncodeGroup(second));
  }

  lemma NumbersJoin(a: seq<bv8>, b: seq<bv8>)
    ensures Numbers(a + b) == Numbers(a) + Numbers(b)
  {}

  lemma GroupVectors()
    ensures EncodeGroup([102]) == [90, 103, 61, 61]
    ensures EncodeGroup([102, 111]) == [90, 109, 56, 61]
    ensures EncodeGroup([102, 111, 111]) == [90, 109, 57, 118]
    ensures EncodeGroup([98]) == [89, 103, 61, 61]
  {}

  /** The alphabet of table 1 of RFC 4648: upper-case letters, lower-case letters, digits, plus and slash. */
  lemma AlphabetIs(d: bv8)
    requires d < 64
    ensures d < 26 ==> Letter(d) as int == 'A' as int + d as int
    ensures 26 <= d < 52 ==> Letter(d) as int == 'a' as int + (d as int - 26)
    ensures 52 <= d < 62 ==> Letter(d) as int == '0' as int + (d as int - 52)
    ensures d == 62 ==> Letter(d) as int == '+' as int
    ensures d == 63 ==> Letter(d) as int == '/' as int
  {}
}
