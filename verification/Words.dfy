/** Machine words and their byte encodings (`NumberKind`, `pack_num`, `read_number`). */
module Words {

  newtype byte = x: int | 0 <= x < 256
  type Bytes = seq<byte>
  type u64 = bv64

  datatype NumberKind = U8 | U16Le | U16Be | U32Le | U32Be | U64Le | U64Be {
    function Size(): nat {
      match this
      case U8 => 1
      case U16Le | U16Be => 2
      case U32Le | U32Be => 4
      case U64Le | U64Be => 8
    }

    predicate BigEndian() {
      U16Be? || U32Be? || U64Be?
    }

    /** Largest value representable in this width. */
    function MaxValue(): u64 {
      match this
      case U8 => 0xff
      case U16Le | U16Be => 0xffff
      case U32Le | U32Be => 0xffff_ffff
      case U64Le | U64Be => 0xffff_ffff_ffff_ffff
    }

    /** Whether the value fits this width. */
    predicate Holds(v: u64) {
      v <= MaxValue()
    }
  }

  /** `n as u64` for a length or a parsed number: keeps the low 64 bits. */
  function ToU64(n: nat): u64 {
    (n % 0x1_0000_0000_0000_0000) as bv64
  }

  // A byte is a small integer in text and frames, and eight bits inside a word.

  function Bits(s: Bytes): (r: seq<bv8>)
    ensures |r| == |s|
  {
    seq(|s|, i requires 0 <= i < |s| => s[i] as bv8)
  }

  function Numbers(s: seq<bv8>): (r: Bytes)
    ensures |r| == |s|
  {
    seq(|s|, i requires 0 <= i < |s| => s[i] as byte)
  }

  lemma NumberOfBits(b: byte)
    ensures (b as bv8) as byte == b
  {
    var bits := BitsFor(b as nat);
    BitsOfNumber(bits);
  }

  /** Some bits stand for each number below 256. */
  lemma BitsFor(n: nat) returns (bits: bv8)
    requires n < 256
    ensures bits as int == n
  {
    if n == 0 {
      bits := 0;
    } else {
      var fewer := BitsFor(n - 1);
      SuccessorBits(fewer);
      bits := fewer + 1;
    }
  }

  lemma SuccessorBits(b: bv8)
    requires b != 255
    ensures (b + 1) as int == b as int + 1
  {}

  lemma BitsRoundTrip(s: seq<bv8>)
    ensures Bits(Numbers(s)) == s
  {}

  lemma NumbersRoundTrip(s: Bytes)
    ensures Numbers(Bits(s)) == s
  {
    forall i | 0 <= i < |s|
      ensures Numbers(Bits(s))[i] == s[i]
    {
      NumberOfBits(s[i]);
    }
  }

  function Xored(a: byte, b: byte): byte {
    ((a as bv8) ^ (b as bv8)) as byte
  }

  lemma XorTwice(a: byte, b: byte)
    ensures Xored(Xored(a, b), b) == a
  {
    var mixed := (a as bv8) ^ (b as bv8);
    BitsOfNumber(mixed);
    XorTwiceBits(a as bv8, b as bv8);
    NumberOfBits(a);
  }

  lemma BitsOfNumber(b: bv8)
    ensures (b as byte) as bv8 == b
  {}

  lemma XorTwiceBits(a: bv8, b: bv8)
    ensures (a ^ b) ^ b == a
  {}

  function Reversed(s: seq<bv8>): (r: seq<bv8>)
    ensures |r| == |s|
    ensures forall i :: 0 <= i < |s| ==> r[i] == s[|s| - 1 - i]
  {
    seq(|s|, i requires 0 <= i < |s| => s[|s| - 1 - i])
  }

  function Octet(v: u64, shift: bv64): bv8
    requires shift <= 56
  {
    ((v >> shift) & 0xff) as bv8
  }

  function Low1(v: u64): seq<bv8> { [Octet(v, 0)] }

  function Low2(v: u64): seq<bv8> { [Octet(v, 0), Octet(v, 8)] }

  function Low4(v: u64): seq<bv8> { [Octet(v, 0), Octet(v, 8), Octet(v, 16), Octet(v, 24)] }

  function Low8(v: u64): seq<bv8> {
    [Octet(v, 0), Octet(v, 8), Octet(v, 16), Octet(v, 24), Octet(v, 32), Octet(v, 40), Octet(v, 48), Octet(v, 56)]
  }

  function Join2(b: seq<bv8>): u64
    requires |b| == 2
  {
    (b[0] as bv64) | ((b[1] as bv64) << 8)
  }

  function Join4(b: seq<bv8>): u64
    requires |b| == 4
  {
    (b[0] as bv64) | ((b[1] as bv64) << 8) | ((b[2] as bv64) << 16) | ((b[3] as bv64) << 24)
  }

  function Join8(b: seq<bv8>): u64
    requires |b| == 8
  {
    (b[0] as bv64) | ((b[1] as bv64) << 8) | ((b[2] as bv64) << 16) | ((b[3] as bv64) << 24) |
    ((b[4] as bv64) << 32) | ((b[5] as bv64) << 40) | ((b[6] as bv64) << 48) | ((b[7] as bv64) << 56)
  }

  /** The low `kind.Size()` bytes of `v`, least significant first. */
  function LowBytes(v: u64, kind: NumberKind): (r: seq<bv8>)
    ensures |r| == kind.Size()
  {
    match kind
    case U8 => Low1(v)
    case U16Le | U16Be => Low2(v)
    case U32Le | U32Be => Low4(v)
    case U64Le | U64Be => Low8(v)
  }

  /** The number whose bytes, least significant first, are `b`. */
  function Join(b: seq<bv8>, kind: NumberKind): u64
    requires |b| == kind.Size()
  {
    match kind
    case U8 => b[0] as bv64
    case U16Le | U16Be => Join2(b)
    case U32Le | U32Be => Join4(b)
    case U64Le | U64Be => Join8(b)
  }

  function PackNum(v: u64, kind: NumberKind): (r: Bytes)
    ensures |r| == kind.Size()
  {
    var low := LowBytes(v, kind);
    Numbers(if kind.BigEndian() then Reversed(low) else low)
  }

  function ReadNumber(b: Bytes, kind: NumberKind): u64
    requires |b| == kind.Size()
  {
    Join(if kind.BigEndian() then Reversed(Bits(b)) else Bits(b), kind)
  }

  lemma JoinLow1(v: u64)
    requires v <= 0xff
    ensures (Low1(v)[0] as bv64) == v
  {}

  lemma JoinLow2(v: u64)
    requires v <= 0xffff
    ensures Join2(Low2(v)) == v
  {}

  lemma JoinLow4(v: u64)
    requires v <= 0xffff_ffff
    ensures Join4(Low4(v)) == v
  {}

  lemma JoinLow8(v: u64)
    ensures Join8(Low8(v)) == v
  {}


  lemma LowJoin1(b: seq<bv8>)
    requires |b| == 1
    ensures Low1(b[0] as bv64) == b && (b[0] as bv64) <= 0xff
  {}

  lemma LowJoin2(b: seq<bv8>)
    requires |b| == 2
    ensures Low2(Join2(b)) == b && Join2(b) <= 0xffff
  {}

  lemma LowJoin4(b: seq<bv8>)
    requires |b| == 4
    ensures Low4(Join4(b)) == b && Join4(b) <= 0xffff_ffff
  {}

  lemma LowJoin8(b: seq<bv8>)
    requires |b| == 8
    ensures Low8(Join8(b)) == b
  {}

  lemma JoinLow(v: u64, kind: NumberKind)
    requires kind.Holds(v)
    ensures Join(LowBytes(v, kind), kind) == v
  {
    hide Low1, Low2, Low4, Low8, Join2, Join4, Join8;
    match kind
    case U8 => JoinLow1(v);
    case U16Le | U16Be => JoinLow2(v);
    case U32Le | U32Be => JoinLow4(v);
    case U64Le | U64Be => JoinLow8(v);
  }

  lemma LowJoin(b: seq<bv8>, kind: NumberKind)
    requires |b| == kind.Size()
    ensures LowBytes(Join(b, kind), kind) == b
    ensures kind.Holds(Join(b, kind))
  {
    hide Low1, Low2, Low4, Low8, Join2, Join4, Join8;
    match kind
    case U8 => LowJoin1(b);
    case U16Le | U16Be => LowJoin2(b);
    case U32Le | U32Be => LowJoin4(b);
    case U64Le | U64Be => LowJoin8(b);
  }

  /** Nothing is lost by packing a value that fits. */
  lemma ReadAfterPack(v: u64, kind: NumberKind)
    requires kind.Holds(v)
    ensures ReadNumber(PackNum(v, kind), kind) == v
  {
    hide LowBytes, Join, NumberKind.Holds, Bits, Numbers;
    var low := LowBytes(v, kind);
    BitsRoundTrip(if kind.BigEndian() then Reversed(low) else low);
    assert Reversed(Reversed(low)) == low;
    JoinLow(v, kind);
  }

  /** Packing what was read restores the bytes, and a number read never exceeds its width. */
  lemma PackAfterRead(b: Bytes, kind: NumberKind)
    requires |b| == kind.Size()
    ensures PackNum(ReadNumber(b, kind), kind) == b
    ensures kind.Holds(ReadNumber(b, kind))
  {
    hide LowBytes, Join, NumberKind.Holds, Bits, Numbers;
    var bits := Bits(b);
    NumbersRoundTrip(b);
    assert Reversed(Reversed(bits)) == bits;
    LowJoin(if kind.BigEndian() then Reversed(bits) else bits, kind);
  }

  lemma Truncates1(v: u64)
    ensures (Low1(v)[0] as bv64) == v & 0xff
  {}

  lemma Truncates2(v: u64)
    ensures Join2(Low2(v)) == v & 0xffff
  {}

  lemma Truncates4(v: u64)
    ensures Join4(Low4(v)) == v & 0xffff_ffff
  {}

  lemma Truncates8(v: u64)
    ensures Join8(Low8(v)) == v & 0xffff_ffff_ffff_ffff
  {}

  /** The low bits of a value that a width keeps. */
  function Kept(v: u64, kind: NumberKind): u64 {
    match kind
    case U8 => v & 0xff
    case U16Le | U16Be => v & 0xffff
    case U32Le | U32Be => v & 0xffff_ffff
    case U64Le | U64Be => v & 0xffff_ffff_ffff_ffff
  }

  /** A value fits a width if and only if no bit of it would be dropped. */
  lemma HoldsIff(v: u64, kind: NumberKind)
    ensures kind.Holds(v) <==> Kept(v, kind) == v
  {
    match kind
    case U8 =>
      assert kind.Holds(v) == (v <= 0xff) && Kept(v, kind) == v & 0xff;
      hide NumberKind.Holds, Kept;
      Fits1(v);
    case U16Le | U16Be =>
      assert kind.Holds(v) == (v <= 0xffff) && Kept(v, kind) == v & 0xffff;
      hide NumberKind.Holds, Kept;
      Fits2(v);
    case U32Le | U32Be =>
      assert kind.Holds(v) == (v <= 0xffff_ffff) && Kept(v, kind) == v & 0xffff_ffff;
      hide NumberKind.Holds, Kept;
      Fits4(v);
    case U64Le | U64Be =>
      assert kind.Holds(v) == (v <= 0xffff_ffff_ffff_ffff) && Kept(v, kind) == v & 0xffff_ffff_ffff_ffff;
      hide NumberKind.Holds, Kept;
      Fits8(v);
  }

  lemma Fits1(v: u64)
    ensures v <= 0xff <==> v & 0xff == v
  {}

  lemma Fits2(v: u64)
    ensures v <= 0xffff <==> v & 0xffff == v
  {}

  lemma Fits4(v: u64)
    ensures v <= 0xffff_ffff <==> v & 0xffff_ffff == v
  {}

  lemma Fits8(v: u64)
    ensures v <= 0xffff_ffff_ffff_ffff <==> v & 0xffff_ffff_ffff_ffff == v
  {}

  lemma TruncatesLow(v: u64, kind: NumberKind)
    ensures Join(LowBytes(v, kind), kind) == Kept(v, kind)
  {
    hide Low1, Low2, Low4, Low8, Join2, Join4, Join8;
    match kind
    case U8 => Truncates1(v);
    case U16Le | U16Be => Truncates2(v);
    case U32Le | U32Be => Truncates4(v);
    case U64Le | U64Be => Truncates8(v);
  }

  /** Packing keeps the low bits of any value and drops the rest. */
  lemma PackTruncates(v: u64, kind: NumberKind)
    ensures ReadNumber(PackNum(v, kind), kind) == Kept(v, kind)
  {
    hide LowBytes, Join, Bits, Numbers, Kept;
    var low := LowBytes(v, kind);
    BitsRoundTrip(if kind.BigEndian() then Reversed(low) else low);
    assert Reversed(Reversed(low)) == low;
    TruncatesLow(v, kind);
  }

  /** Byte `i` of a value, counted from the least significant. */
  function ByteAt(v: u64, i: nat): byte
    requires i < 8
  {
    Octet(v, [0, 8, 16, 24, 32, 40, 48, 56][i]) as byte
  }

  /** Little-endian forms put byte `i` at `i`, big-endian forms count from the other end. */
  lemma ByteOrder(v: u64, kind: NumberKind, i: nat)
    requires i < kind.Size()
    ensures PackNum(v, kind)[i] == ByteAt(v, if kind.BigEndian() then kind.Size() - 1 - i else i)
  {
    hide LowBytes, ByteAt;
    var low := LowBytes(v, kind);
    NumbersAt(if kind.BigEndian() then Reversed(low) else low, i);
    LowAt(v, kind, if kind.BigEndian() then kind.Size() - 1 - i else i);
  }

  lemma NumbersAt(bits: seq<bv8>, i: nat)
    requires i < |bits|
    ensures Numbers(bits)[i] == bits[i] as byte
  {}

  lemma LowAt(v: u64, kind: NumberKind, i: nat)
    requires i < kind.Size()
    ensures LowBytes(v, kind)[i] as byte == ByteAt(v, i)
  {
    hide Octet;
    match kind
    case U8 => assert LowBytes(v, kind) == Low1(v);
    case U16Le | U16Be => assert LowBytes(v, kind) == Low2(v);
    case U32Le | U32Be => assert LowBytes(v, kind) == Low4(v);
    case U64Le | U64Be => assert LowBytes(v, kind) == Low8(v);
  }
}
