/** The text conventions shared by HTTP/1.1 requests and responses (RFC 9110, RFC 9112). */
module HttpText {
  import opened Wrappers
  import opened Words

  const CR: byte := 13
  const LF: byte := 10
  const SPACE: byte := 32
  const COLON: byte := 58
  const CRLF: Bytes := [CR, LF]

  /** The bytes of a string of ASCII characters. */
  function Ascii(s: string): (r: Bytes)
    ensures |r| == |s|
  {
    seq(|s|, i requires 0 <= i < |s| => (s[i] as int % 256) as byte)
  }

  predicate IsDigit(b: byte) { 48 <= b <= 57 }

  predicate IsAlphanumeric(b: byte) {
    IsDigit(b) || 65 <= b <= 90 || 97 <= b <= 122
  }

  /** A token character: a letter, a digit or one of the fifteen marks of section 5.6.2 of RFC 9110. */
  predicate IsTokenByte(b: byte) {
    IsAlphanumeric(b) || b == 33 || 35 <= b <= 39 || b == 42 || b == 43 || b == 45 || b == 46 ||
    94 <= b <= 96 || b == 124 || b == 126
  }

  predicate IsToken(s: Bytes) {
    s != [] && forall i :: 0 <= i < |s| ==> IsTokenByte(s[i])
  }

  predicate NoLineBreak(s: Bytes) {
    CR !in s && LF !in s
  }

  function Lower(s: Bytes): (r: Bytes)
    ensures |r| == |s|
  {
    seq(|s|, i requires 0 <= i < |s| => if 65 <= s[i] <= 90 then s[i] + 32 else s[i])
  }

  const CONTENT_LENGTH: Bytes := Ascii("content-length")
  const TRANSFER_ENCODING: Bytes := Ascii("transfer-encoding")

  // ----- lines

  /** Every line followed by CRLF. */
  function JoinLines(lines: seq<Bytes>): Bytes {
    if lines == [] then [] else lines[0] + CRLF + JoinLines(lines[1..])
  }

  predicate StartsWith(s: Bytes, prefix: Bytes) {
    |prefix| <= |s| && s[..|prefix|] == prefix
  }

  /** The offset of the first `mark` in `s`. */
  function Find(s: Bytes, mark: Bytes): (r: Option<nat>)
    ensures r.Some? ==> r.value + |mark| <= |s| && StartsWith(s[r.value..], mark)
    ensures forall i :: 0 <= i <= |s| && (r.Some? ==> i < r.value) ==> !StartsWith(s[i..], mark)
  {
    if StartsWith(s, mark) then Some(0)
    else if s == [] then None
    else
      match Find(s[1..], mark)
      case None =>
        assert forall i :: 1 <= i <= |s| ==> s[i..] == s[1..][i - 1..];
        None
      case Some(n) =>
        assert forall i :: 1 <= i <= |s| ==> s[i..] == s[1..][i - 1..];
        Some(n + 1)
  }

  /** `str::split("\r\n")`: the pieces between line breaks; an empty text is one empty piece. */
  function Split(s: Bytes): (r: seq<Bytes>)
    ensures r != []
    decreases |s|
  {
    match Find(s, CRLF)
    case None => [s]
    case Some(n) => [s[..n]] + Split(s[n + 2..])
  }

  /** A text that does not start with `mark` at any offset up to `n`, and does at `n`. */
  lemma FindIs(s: Bytes, mark: Bytes, n: nat)
    requires n <= |s| && StartsWith(s[n..], mark)
    requires forall i :: 0 <= i < n ==> !StartsWith(s[i..], mark)
    ensures Find(s, mark) == Some(n)
  {}

  lemma CutAtSpace(word: Bytes, rest: Bytes)
    requires SPACE !in word
    ensures var s := word + [SPACE] + rest;
            Find(s, [SPACE]) == Some(|word|) && s[..|word|] == word && s[|word| + 1..] == rest
  {
    var s := word + [SPACE] + rest;
    assert s[|word|..] == [SPACE] + rest;
    forall i | 0 <= i < |word|
      ensures !StartsWith(s[i..], [SPACE])
    {
      assert s[i..][0] == word[i];
    }
    FindIs(s, [SPACE], |word|);
  }

  lemma {:induction false} FirstBreak(line: Bytes, rest: Bytes)
    requires NoLineBreak(line)
    ensures Find(line + CRLF + rest, CRLF) == Some(|line|)
  {
    var s := line + CRLF + rest;
    assert s[|line|..] == CRLF + rest;
    forall i | 0 <= i < |line|
      ensures !StartsWith(s[i..], CRLF)
    {
      assert s[i] == line[i];
    }
    FindIs(s, CRLF, |line|);
  }

  lemma NoBreak(line: Bytes)
    requires NoLineBreak(line)
    ensures Find(line, CRLF) == None
  {
    forall i | 0 <= i <= |line|
      ensures !StartsWith(line[i..], CRLF)
    {
      assert i < |line| ==> line[i..][0] == line[i];
    }
  }

  /** Splitting undoes joining, when the final line break is left off. */
  lemma {:induction false} SplitJoined(lines: seq<Bytes>)
    requires lines != [] && forall i :: 0 <= i < |lines| ==> NoLineBreak(lines[i])
    ensures |JoinLines(lines)| >= 2
    ensures Split(JoinLines(lines)[..|JoinLines(lines)| - 2]) == lines
  {
    hide Find;
    var text := JoinLines(lines);
    if |lines| == 1 {
      assert text == lines[0] + CRLF;
      assert text[..|text| - 2] == lines[0];
      NoBreak(lines[0]);
    } else {
      var rest := JoinLines(lines[1..]);
      SplitJoined(lines[1..]);
      var body := rest[..|rest| - 2];
      assert text[..|text| - 2] == lines[0] + CRLF + body;
      FirstBreak(lines[0], body);
      assert (lines[0] + CRLF + body)[..|lines[0]|] == lines[0];
      assert (lines[0] + CRLF + body)[|lines[0]| + 2..] == body;
    }
  }

  lemma {:induction false} EndsWithBreak(lines: seq<Bytes>)
    requires lines != []
    ensures |JoinLines(lines)| >= 2 && JoinLines(lines)[|JoinLines(lines)| - 2..] == CRLF
  {
    if |lines| == 1 {
      assert JoinLines(lines) == lines[0] + CRLF;
    } else {
      EndsWithBreak(lines[1..]);
    }
  }

  lemma TokenIsPlain(s: Bytes)
    requires IsToken(s)
    ensures NoLineBreak(s)
  {
    forall i | 0 <= i < |s|
      ensures s[i] != CR && s[i] != LF
    {
      assert IsTokenByte(s[i]);
    }
  }

  // ----- decimal numbers

  predicate AllDigits(s: Bytes) {
    forall i :: 0 <= i < |s| ==> IsDigit(s[i])
  }

  function Decimal(n: nat): (r: Bytes)
    ensures r != [] && AllDigits(r)
  {
    if n < 10 then [(48 + n) as byte] else Decimal(n / 10) + [(48 + n % 10) as byte]
  }

  function DigitsValue(s: Bytes): nat
    requires AllDigits(s)
  {
    if s == [] then 0
    else
      var last := s[|s| - 1];
      assert IsDigit(last);
      10 * DigitsValue(s[..|s| - 1]) + (last as int - 48)
  }

  /** `str::parse` at an unsigned type of greatest value `max`: one leading plus sign is accepted. */
  function ParseUnsigned(s: Bytes, max: nat): (r: Option<nat>)
    ensures r.Some? ==> r.value <= max
  {
    var digits := if s != [] && s[0] == 43 then s[1..] else s;
    if digits == [] || !AllDigits(digits) || DigitsValue(digits) > max then None
    else Some(DigitsValue(digits))
  }

  lemma {:induction false} DecimalValue(n: nat)
    ensures DigitsValue(Decimal(n)) == n
  {
    if n >= 10 {
      DecimalValue(n / 10);
      assert Decimal(n)[..|Decimal(n)| - 1] == Decimal(n / 10);
    }
  }

  /** A printed number reads back, and so does the same number after a plus sign. */
  lemma ParsePrinted(n: nat, max: nat)
    ensures ParseUnsigned(Decimal(n), max) == if n <= max then Some(n) else None
    ensures ParseUnsigned([43] + Decimal(n), max) == ParseUnsigned(Decimal(n), max)
  {
    DecimalValue(n);
    assert ([43] + Decimal(n))[1..] == Decimal(n);
  }

  lemma DigitsArePlain(s: Bytes)
    requires AllDigits(s)
    ensures NoLineBreak(s)
  {
    forall i | 0 <= i < |s|
      ensures s[i] != CR && s[i] != LF
    {
      assert IsDigit(s[i]);
    }
  }
}
