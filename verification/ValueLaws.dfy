/** What comparisons, arithmetic and extraction mean as numbers and as places in a buffer. */
module ValueLaws {
  import opened Wrappers
  import opened Words
  import opened Transport
  import opened Sessions
  import Encodings
  import MsgPack
  import Rc4
  import Ir
  import Schema

  // ----- comparison

  function LowByte(v: u64): bv8 {
    (v & 0xff) as bv8
  }

  function Higher(v: u64): u64 {
    v >> 8
  }

  /** The number whose `n` bytes, from the lowest, are those of `v`. */
  function Magnitude(v: u64, n: nat): nat {
    if n == 0 then 0 else LowByte(v) as int + 256 * Magnitude(Higher(v), n - 1)
  }

  /** The number a word stands for. */
  function Unsigned(v: u64): nat {
    Magnitude(v, 8)
  }

  /** No byte of `v` lies above the lowest `n`. */
  predicate Below(v: u64, n: nat) {
    if n == 0 then v == 0 else Below(Higher(v), n - 1)
  }

  predicate Less(a: u64, b: u64) {
    a < b
  }

  predicate LessByte(a: bv8, b: bv8) {
    a < b
  }

  /** The lowest byte, still as a word. */
  function Masked(v: u64): u64 {
    v & 0xff
  }

  lemma Asymmetric(a: u64, b: u64)
    ensures !(Less(a, b) && Less(b, a))
  {}

  lemma HigherDecides(a: u64, b: u64)
    ensures Less(Higher(a), Higher(b)) ==> Less(a, b)
  {}

  lemma LowerDecides(a: u64, b: u64)
    ensures Higher(a) == Higher(b) && Less(Masked(a), Masked(b)) ==> Less(a, b)
  {}

  lemma PartsDecide(a: u64, b: u64)
    ensures Higher(a) == Higher(b) && LowByte(a) == LowByte(b) ==> a == b
  {}

  lemma LessLow(a: u64, b: u64)
    ensures LessByte(LowByte(a), LowByte(b)) <==> Less(Masked(a), Masked(b))
  {}

  lemma LessByteIs(a: bv8, b: bv8)
    ensures LessByte(a, b) <==> a as int < b as int
    ensures a == b <==> a as int == b as int
    ensures 0 <= a as int < 256
  {}

  lemma MagnitudeStep(v: u64, n: nat)
    requires n > 0
    ensures Magnitude(v, n) == LowByte(v) as int + 256 * Magnitude(Higher(v), n - 1)
  {
    hide LowByte, Higher;
  }

  /** A word below another stands for a smaller number, and only itself for its own. */
  lemma {:induction false} MagnitudeOrders(a: u64, b: u64, n: nat)
    requires Below(a, n) && Below(b, n)
    ensures Magnitude(a, n) < Magnitude(b, n) ==> Less(a, b)
    ensures Magnitude(a, n) == Magnitude(b, n) ==> a == b
    decreases n
  {
    hide Less, LessByte, LowByte, Higher, Masked, Magnitude;
    if n > 0 {
      MagnitudeOrders(Higher(a), Higher(b), n - 1);
      MagnitudeStep(a, n);
      MagnitudeStep(b, n);
      LessByteIs(LowByte(a), LowByte(b));
      LessByteIs(LowByte(b), LowByte(a));
      HigherDecides(a, b);
      LowerDecides(a, b);
      PartsDecide(a, b);
      LessLow(a, b);
    }  else {
      NoMagnitude(a);
      NoMagnitude(b);
    }
  }

  lemma NoMagnitude(v: u64)
    ensures Magnitude(v, 0) == 0
  {}

  lemma LessIs(a: u64, b: u64)
    ensures Less(a, b) <==> Unsigned(a) < Unsigned(b)
    ensures a == b <==> Unsigned(a) == Unsigned(b)
  {
    hide Less, Below, Magnitude;
    AllBelow(a);
    AllBelow(b);
    MagnitudeOrders(a, b, 8);
    MagnitudeOrders(b, a, 8);
    Asymmetric(a, b);
    Asymmetric(a, a);
  }

  lemma AllBelow(v: u64)
    ensures Below(v, 8)
  {
    EightBytes(v);
    hide Higher;
    var two := Higher(Higher(v));
    var four := Higher(Higher(two));
    var six := Higher(Higher(four));
    assert Below(Higher(Higher(six)), 0) && Below(Higher(six), 1) && Below(six, 2);
    assert Below(Higher(four), 3) && Below(four, 4);
    assert Below(Higher(two), 5) && Below(two, 6);
    assert Below(Higher(v), 7);
  }

  lemma EightBytes(v: u64)
    ensures Higher(Higher(Higher(Higher(Higher(Higher(Higher(Higher(v)))))))) == 0
  {}

  lemma LtIsLess(a: u64, b: u64)
    ensures ApplyCompare(Schema.Lt, a, b) == Less(a, b)
  {}

  lemma GtIsLess(a: u64, b: u64)
    ensures ApplyCompare(Schema.Gt, a, b) == Less(b, a)
  {}

  lemma EqIsEqual(a: u64, b: u64)
    ensures ApplyCompare(Schema.Eq, a, b) == (a == b)
  {}

  lemma NeIsUnequal(a: u64, b: u64)
    ensures ApplyCompare(Schema.Ne, a, b) == (a != b)
  {}

  /** The four comparisons are those of the numbers. */
  lemma ComparesNumbers(a: u64, b: u64)
    ensures ApplyCompare(Schema.Eq, a, b) <==> Unsigned(a) == Unsigned(b)
    ensures ApplyCompare(Schema.Ne, a, b) <==> Unsigned(a) != Unsigned(b)
    ensures ApplyCompare(Schema.Lt, a, b) <==> Unsigned(a) < Unsigned(b)
    ensures ApplyCompare(Schema.Gt, a, b) <==> Unsigned(a) > Unsigned(b)
  {
    hide Less, Unsigned, ApplyCompare;
    LtIsLess(a, b);
    GtIsLess(a, b);
    EqIsEqual(a, b);
    NeIsUnequal(a, b);
    LessIs(a, b);
    LessIs(b, a);
  }

  // ----- arithmetic

  function Added(a: u64, b: u64): u64 {
    ApplyBinary(Schema.Add, a, b)
  }

  function Taken(a: u64, b: u64): u64 {
    ApplyBinary(Schema.Sub, a, b)
  }

  /** Addition and subtraction wrap at both ends; nothing is added by zero, and all is taken by itself. */
  lemma ArithmeticWraps(a: u64, b: u64)
    ensures Added(a, b) == Added(b, a) && Added(a, 0) == a
    ensures Taken(a, 0) == a && Taken(a, a) == 0
    ensures Added(0xffff_ffff_ffff_ffff, 1) == 0 && Taken(0, 1) == 0xffff_ffff_ffff_ffff
  {
    hide Added, Taken;
    Commutes(a, b);
    AddsNothing(a);
    TakesNothing(a);
    TakesAll(a);
    WrapsUp();
    WrapsDown();
  }

  lemma Commutes(a: u64, b: u64)
    ensures Added(a, b) == Added(b, a)
  {}

  lemma AddsNothing(a: u64)
    ensures Added(a, 0) == a
  {}

  lemma TakesNothing(a: u64)
    ensures Taken(a, 0) == a
  {}

  lemma TakesAll(a: u64)
    ensures Taken(a, a) == 0
  {}

  lemma WrapsUp()
    ensures Added(0xffff_ffff_ffff_ffff, 1) == 0
  {}

  lemma WrapsDown()
    ensures Taken(0, 1) == 0xffff_ffff_ffff_ffff
  {}

  predicate LowBit(v: u64) {
    v & 1 == 1
  }

  function AllButLow(v: u64): u64 {
    v >> 1
  }

  /** The connectives work on each bit: on the lowest, and on the others as on the words they form. */
  lemma ConnectivesWorkOnBits(a: u64, b: u64)
    ensures LowBit(ApplyBinary(Schema.And, a, b)) <==> LowBit(a) && LowBit(b)
    ensures LowBit(ApplyBinary(Schema.Or, a, b)) <==> LowBit(a) || LowBit(b)
    ensures LowBit(ApplyBinary(Schema.Xor, a, b)) <==> LowBit(a) != LowBit(b)
    ensures forall k: Schema.BinaryKind :: k.And? || k.Or? || k.Xor? ==>
              AllButLow(ApplyBinary(k, a, b)) == ApplyBinary(k, AllButLow(a), AllButLow(b))
  {
    hide LowBit, AllButLow, ApplyBinary;
    AndLow(a, b);
    OrLow(a, b);
    XorLow(a, b);
    AndRest(a, b);
    OrRest(a, b);
    XorRest(a, b);
  }

  lemma AndLow(a: u64, b: u64)
    ensures LowBit(ApplyBinary(Schema.And, a, b)) <==> LowBit(a) && LowBit(b)
  {}

  lemma OrLow(a: u64, b: u64)
    ensures LowBit(ApplyBinary(Schema.Or, a, b)) <==> LowBit(a) || LowBit(b)
  {}

  lemma XorLow(a: u64, b: u64)
    ensures LowBit(ApplyBinary(Schema.Xor, a, b)) <==> LowBit(a) != LowBit(b)
  {}

  lemma AndRest(a: u64, b: u64)
    ensures AllButLow(ApplyBinary(Schema.And, a, b)) == ApplyBinary(Schema.And, AllButLow(a), AllButLow(b))
  {}

  lemma OrRest(a: u64, b: u64)
    ensures AllButLow(ApplyBinary(Schema.Or, a, b)) == ApplyBinary(Schema.Or, AllButLow(a), AllButLow(b))
  {}

  lemma XorRest(a: u64, b: u64)
    ensures AllButLow(ApplyBinary(Schema.Xor, a, b)) == ApplyBinary(Schema.Xor, AllButLow(a), AllButLow(b))
  {}

  /** How far a shift goes: the low six bits of its right operand. */
  function Amount(b: u64): u64 {
    b & 63
  }

  function Left(a: u64, n: u64): u64 {
    if n < 64 then a << n else 0
  }

  function Right(a: u64, n: u64): u64 {
    if n < 64 then a >> n else 0
  }

  function Doubled(a: u64): u64 {
    a << 1
  }

  function Halved(a: u64): u64 {
    a >> 1
  }

  function OneLess(n: u64): u64 {
    n - 1
  }

  predicate Shifting(n: u64) {
    0 < n < 64
  }

  /** Shifts double and halve as often as the low six bits of their right operand say. */
  lemma ShiftsDouble(a: u64, b: u64)
    ensures Amount(b) == 0 ==> ApplyBinary(Schema.ShiftLeft, a, b) == a && ApplyBinary(Schema.ShiftRight, a, b) == a
    ensures Amount(b) != 0 ==> ApplyBinary(Schema.ShiftLeft, a, b) == ApplyBinary(Schema.ShiftLeft, Doubled(a), OneLess(b))
    ensures Amount(b) != 0 ==> ApplyBinary(Schema.ShiftRight, a, b) == ApplyBinary(Schema.ShiftRight, Halved(a), OneLess(b))
  {
    hide Amount, ApplyBinary, Doubled, Halved, OneLess, Left, Right, Shifting;
    ShiftsBy(a, b);
    ShiftsBy(Doubled(a), OneLess(b));
    ShiftsBy(Halved(a), OneLess(b));
    ShiftsNothing(a);
    if Amount(b) != 0 {
      AmountLess(b);
      LeftStep(a, Amount(b));
      RightStep(a, Amount(b));
    }
  }

  lemma ShiftsBy(a: u64, b: u64)
    ensures ApplyBinary(Schema.ShiftLeft, a, b) == Left(a, Amount(b))
    ensures ApplyBinary(Schema.ShiftRight, a, b) == Right(a, Amount(b))
  {}

  lemma ShiftsNothing(a: u64)
    ensures Left(a, 0) == a && Right(a, 0) == a
  {}

  lemma AmountLess(b: u64)
    ensures Amount(b) != 0 ==> Shifting(Amount(b)) && Amount(OneLess(b)) == OneLess(Amount(b))
  {}

  lemma LeftIs(a: u64, n: u64)
    requires Shifting(n)
    ensures Left(a, n) == a << n && Left(Doubled(a), OneLess(n)) == (a << 1) << (n - 1)
  {
    assert n < 64 && n - 1 < 64 by { InRange(n); }
    hide Shifting;
    assert Doubled(a) == a << 1 && OneLess(n) == n - 1;
    assert Left(a, n) == a << n;
    hide OneLess, Doubled;
    assert Left(a << 1, n - 1) == (a << 1) << (n - 1);
  }

  lemma InRange(n: u64)
    requires Shifting(n)
    ensures n < 64 && n - 1 < 64
  {}

  lemma LeftStep(a: u64, n: u64)
    requires Shifting(n)
    ensures Left(a, n) == Left(Doubled(a), OneLess(n))
  {
    hide Left, Doubled, OneLess;
    LeftIs(a, n);
    if n < 16 {
      LeftNear(a, n);
    } else if n < 32 {
      LeftFar(a, n);
    } else if n < 48 {
      LeftFarther(a, n);
    } else {
      LeftFarthest(a, n);
    }
  }

  lemma LeftNear(a: u64, n: u64)
    requires 0 < n < 16
    ensures a << n == (a << 1) << (n - 1)
  {}

  lemma LeftFar(a: u64, n: u64)
    requires 16 <= n < 32
    ensures a << n == (a << 1) << (n - 1)
  {}

  lemma LeftFarther(a: u64, n: u64)
    requires 32 <= n < 48
    ensures a << n == (a << 1) << (n - 1)
  {}

  lemma LeftFarthest(a: u64, n: u64)
    requires 48 <= n < 64
    ensures a << n == (a << 1) << (n - 1)
  {}

  lemma RightIs(a: u64, n: u64)
    requires Shifting(n)
    ensures Right(a, n) == a >> n && Right(Halved(a), OneLess(n)) == (a >> 1) >> (n - 1)
  {
    assert n < 64 && n - 1 < 64 by { InRange(n); }
    hide Shifting;
    assert Halved(a) == a >> 1 && OneLess(n) == n - 1;
    assert Right(a, n) == a >> n;
    hide OneLess, Halved;
    assert Right(a >> 1, n - 1) == (a >> 1) >> (n - 1);
  }

  lemma RightStep(a: u64, n: u64)
    requires Shifting(n)
    ensures Right(a, n) == Right(Halved(a), OneLess(n))
  {
    hide Right, Halved, OneLess;
    RightIs(a, n);
    if n < 16 {
      RightNear(a, n);
    } else if n < 32 {
      RightFar(a, n);
    } else if n < 48 {
      RightFarther(a, n);
    } else {
      RightFarthest(a, n);
    }
  }

  lemma RightNear(a: u64, n: u64)
    requires 0 < n < 16
    ensures a >> n == (a >> 1) >> (n - 1)
  {}

  lemma RightFar(a: u64, n: u64)
    requires 16 <= n < 32
    ensures a >> n == (a >> 1) >> (n - 1)
  {}

  lemma RightFarther(a: u64, n: u64)
    requires 32 <= n < 48
    ensures a >> n == (a >> 1) >> (n - 1)
  {}

  lemma RightFarthest(a: u64, n: u64)
    requires 48 <= n < 64
    ensures a >> n == (a >> 1) >> (n - 1)
  {}

  // ----- extraction

  /** A packed number anywhere in a buffer is extracted as what its width kept of it. */
  lemma ExtractsPacked(before: Bytes, v: u64, kind: NumberKind, after: Bytes)
    ensures Sessions.ExtractNumber(before + PackNum(v, kind) + after, |before|, kind) == Ok(Kept(v, kind))
  {
    hide PackNum, ReadNumber, Kept, NumberKind.Size;
    PackTruncates(v, kind);
    var s := before + PackNum(v, kind) + after;
    assert s[|before|..|before| + kind.Size()] == PackNum(v, kind);
  }

  /** The checksum is that of the bytes at the offset; out of range there is none. */
  lemma ExtractsCrc(lib: Library, before: Bytes, part: Bytes, after: Bytes)
    ensures ExtractCrc(lib, before + part + after, |before|, |part|) == Ok(lib.crc32(part) as bv64)
    ensures forall n: nat :: n > |part| ==> ExtractCrc(lib, before + part, |before|, n) == Err(InvalidResponse)
  {
    var s := before + part + after;
    assert s[|before|..|before| + |part|] == part;
  }

  /** Packing fails only for a value that would lose bits and may not. */
  lemma PacksIff(v: u64, kind: NumberKind, wrap: bool)
    ensures PackValue(v, kind, wrap) == if wrap || Kept(v, kind) == v then Ok(PackNum(v, kind)) else Err(InternalError)
  {
    hide PackNum, NumberKind.Holds, Kept;
    HoldsIff(v, kind);
  }

  // ----- buffers in conditions

  /** Bytes are at an offset if and only if the buffer is something of that length, they, and a rest. */
  lemma BytesAtIff(s: Bytes, offset: nat, bytes: Bytes)
    ensures BytesAt(s, offset, bytes) <==> exists before: Bytes, after: Bytes :: |before| == offset && s == before + bytes + after
  {
    if BytesAt(s, offset, bytes) {
      assert s == s[..offset] + bytes + s[offset + |bytes|..];
    }
    forall before: Bytes, after: Bytes | |before| == offset && s == before + bytes + after
      ensures BytesAt(s, offset, bytes)
    {
      assert (before + bytes + after)[|before|..|before| + |bytes|] == bytes;
    }
  }

  /** Bytes are contained if and only if they stand between something and a rest. */
  lemma ContainsIff(s: Bytes, bytes: Bytes)
    ensures Contains(s, bytes) <==> exists before: Bytes, after: Bytes :: s == before + bytes + after
  {
    forall i: nat
      ensures BytesAt(s, i, bytes) <==> exists before: Bytes, after: Bytes :: |before| == i && s == before + bytes + after
    {
      BytesAtIff(s, i, bytes);
    }
    forall before: Bytes, after: Bytes | s == before + bytes + after
      ensures Contains(s, bytes)
    {
      assert |before| <= |s| && BytesAt(s, |before|, bytes);
    }
  }

  // ----- transforms

  lemma {:induction false} PlainStays(text: Bytes)
    requires forall i :: 0 <= i < |text| ==> !Encodings.IsAsciiSpace(text[i])
    ensures Encodings.DropSpaces(text) == text
  {
    if text != [] {
      assert !Encodings.IsAsciiSpace(text[0]);
      PlainStays(text[1..]);
      assert [text[0]] + text[1..] == text;
    }
  }

  /** Hexadecimal without spaces gives the bytes it prints; the spaces that `parse_hex` skips are refused here. */
  lemma TransformsHex(lib: Library, bytes: seq<Encodings.Printed>)
    requires forall i :: 0 <= i < |bytes| ==> bytes[i].Spaced()
    requires forall i :: 0 <= i < |Encodings.PrintHex(bytes)| ==> !Encodings.IsAsciiSpace(Encodings.PrintHex(bytes)[i])
    ensures TransformBytes(lib, Encodings.PrintHex(bytes), Ir.AsciiHexDecode) == Ok(Encodings.ValuesOf(bytes))
  {
    Encodings.ParsesPrintedHex(bytes);
    PlainStays(Encodings.PrintHex(bytes));
    hide Encodings.PrintHex, Encodings.HexDecode, Encodings.DropSpaces, Encodings.ValuesOf;
  }

  lemma HexRefusesSpace(lib: Library, text: Bytes, i: nat)
    requires i < |text| && Encodings.IsAsciiSpace(text[i])
    ensures TransformBytes(lib, text, Ir.AsciiHexDecode) == Err(InvalidResponse)
  {
    SpaceNotHex(text, i);
    hide Encodings.HexDecode;
  }

  lemma {:induction false} SpaceNotHex(text: Bytes, i: nat)
    requires i < |text| && Encodings.IsAsciiSpace(text[i])
    ensures Encodings.HexDecode(text).None?
    decreases |text|
  {
    if i >= 2 {
      SpaceNotHex(text[2..], i - 2);
    }
  }

  /** Base64 decodes to what it encodes, with white space anywhere in it, and encodes back. */
  lemma TransformsBase64(lib: Library, data: Bytes, spaced: Bytes)
    requires Encodings.DropSpaces(spaced) == Encodings.Base64Encode(data)
    ensures TransformBytes(lib, spaced, Ir.Base64Decode) == Ok(data)
    ensures TransformBytes(lib, data, Ir.Base64Encode) == Ok(Encodings.DropSpaces(spaced))
  {
    Encodings.DecodeAfterEncode(data);
    hide Encodings.Base64Encode, Encodings.Base64Decode, Encodings.DropSpaces;
  }

  /** The `rc4` transform gives the output of the cipher for its key. */
  lemma TransformsCipher(lib: Library, data: Bytes, key: Bytes, output: Bytes)
    requires 1 <= |key| <= 256
    ensures TransformBytes(lib, data, Ir.Rc4(key)) == Ok(output) <==> Rc4.IsCipher(data, key, output)
  {
    hide Rc4.IsCipher, Rc4.Rc4;
    Rc4.CipherIff(data, key, output);
  }

  /** The `msgpack_string` transform gives the last value of the key in an encoded map. */
  lemma TransformsMap(lib: Library, wanted: Bytes, pairs: seq<MsgPack.Pair>)
    requires 1 <= |pairs| <= 15 && forall i :: 0 <= i < |pairs| ==> pairs[i].Encodable()
    ensures TransformBytes(lib, MsgPack.EncodeMap(pairs), Ir.MsgpackString(wanted)) ==
            if MsgPack.LastValue(pairs, wanted).Some? then Ok(MsgPack.LastValue(pairs, wanted).value) else Err(InvalidResponse)
  {
    MsgPack.LookupInverts(pairs, wanted);
    hide MsgPack.MsgpackString, MsgPack.EncodeMap, MsgPack.LastValue;
  }

  /** Decompression starts at the offset; one byte more than the limit is asked for, so that more is noticed. */
  lemma TransformsGzip(lib: Library, before: Bytes, packed: Bytes, max: nat)
    ensures var out := lib.gunzip(packed, max + 1);
            TransformBytes(lib, before + packed, Ir.GzipDecompress(|before|, max)) ==
            if out.Some? && |out.value| <= max then Ok(out.value) else Err(InvalidResponse)
  {
    assert (before + packed)[|before|..] == packed;
  }
}
