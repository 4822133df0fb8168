/** Where the numbers of an accepted header block leave the grammar of RFC 9112 and RFC 9110. */
module HttpGrammar {
  import opened Wrappers
  import opened Words
  import opened Transport
  import opened HttpText
  import opened HttpResponse
  import HttpRequest

  const TAB: byte := 9

  const PLUS: byte := 43

  predicate IsLengthField(line: Bytes) {
    FieldOf(line).Some? && Lower(FieldOf(line).value.name) == CONTENT_LENGTH
  }

  predicate OptionalSpace(s: Bytes) {
    forall i :: 0 <= i < |s| ==> s[i] == SPACE || s[i] == TAB
  }

  /** `status-code = 3DIGIT` (section 4 of RFC 9112). */
  predicate StatusCode(s: Bytes) {
    |s| == 3 && AllDigits(s)
  }

  /** `OWS 1*DIGIT OWS` (section 5 of RFC 9112 and section 8.6 of RFC 9110). */
  ghost predicate LengthValue(s: Bytes) {
    exists before, digits, after :: Delimited(s, before, digits, after)
  }

  ghost predicate Delimited(s: Bytes, before: Bytes, digits: Bytes, after: Bytes) {
    s == before + digits + after && OptionalSpace(before) && OptionalSpace(after) && digits != [] && AllDigits(digits)
  }

  function LinesOf(header: Bytes): (r: seq<Bytes>)
    ensures r != []
  {
    Split(if |header| < 4 then [] else header[..|header| - 4])
  }

  /** The status and every Content-Length are written as the grammar says. */
  ghost predicate Grammatical(header: Bytes) {
    var lines := LinesOf(header);
    && StatusCode(StatusText(lines[0]))
    && forall i :: 1 <= i < |lines| && IsLengthField(lines[i]) ==> LengthValue(FieldOf(lines[i]).value.value)
  }

  predicate PlainByte(b: byte) {
    IsDigit(b) || b == SPACE || b == TAB
  }

  predicate PlainBytes(s: Bytes) {
    forall i :: 0 <= i < |s| ==> PlainByte(s[i])
  }

  /** Three bytes of status that do not start with a plus sign; digits, spaces and tabs only in a length. */
  predicate Plain(header: Bytes) {
    var lines := LinesOf(header);
    && |StatusText(lines[0])| == 3 && StatusText(lines[0])[0] != PLUS
    && forall i :: 1 <= i < |lines| && IsLengthField(lines[i]) ==> PlainBytes(FieldOf(lines[i]).value.value)
  }

  // ----- one number

  lemma StatusIff(line: Bytes)
    requires StatusOf(line).Some?
    ensures StatusCode(StatusText(line)) <==> |StatusText(line)| == 3 && StatusText(line)[0] != PLUS
  {
    hide Find;
    var s := StatusText(line);
    assert ParseUnsigned(s, 0xffff).Some?;
    if StatusCode(s) {
      assert IsDigit(s[0]);
    }
  }

  /** Among digits, spaces and tabs, only a space or a tab is trimmed, one byte at a time. */
  lemma PlainEdges(s: Bytes)
    requires PlainBytes(s)
    ensures LeadingSpace(s) != 0 ==> LeadingSpace(s) == 1 && OptionalSpace(s[..1])
    ensures TrailingSpace(s) != 0 ==> TrailingSpace(s) == 1 && OptionalSpace(s[|s| - 1..])
  {
    if s != [] {
      assert PlainByte(s[0]) && PlainByte(s[|s| - 1]);
    }
  }

  lemma TrimsOne(s: Bytes)
    ensures TrimStart(s) == if LeadingSpace(s) == 0 then s else TrimStart(s[LeadingSpace(s)..])
    ensures TrimEnd(s) == if TrailingSpace(s) == 0 then s else TrimEnd(s[..|s| - TrailingSpace(s)])
  {
    hide LeadingSpace, TrailingSpace;
  }

  lemma PlainSlices(s: Bytes, n: nat)
    requires PlainBytes(s) && n <= |s|
    ensures PlainBytes(s[..n]) && PlainBytes(s[n..])
  {}

  lemma SpacesJoin(a: Bytes, b: Bytes)
    requires OptionalSpace(a) && OptionalSpace(b)
    ensures OptionalSpace(a + b)
  {}

  lemma {:induction false} TrimStartPlain(s: Bytes) returns (before: Bytes)
    requires PlainBytes(s)
    ensures s == before + TrimStart(s) && OptionalSpace(before) && PlainBytes(TrimStart(s))
    decreases |s|
  {
    hide LeadingSpace, PlainBytes, TrimStart;
    before := [];
    TrimsOne(s);
    if LeadingSpace(s) != 0 {
      PlainEdges(s);
      PlainSlices(s, 1);
      var rest := TrimStartPlain(s[1..]);
      SpacesJoin(s[..1], rest);
      before := s[..1] + rest;
      assert s == s[..1] + s[1..];
    }
  }

  lemma {:induction false} TrimEndPlain(s: Bytes) returns (after: Bytes)
    requires PlainBytes(s)
    ensures s == TrimEnd(s) + after && OptionalSpace(after) && PlainBytes(TrimEnd(s))
    decreases |s|
  {
    hide TrailingSpace, PlainBytes, TrimEnd;
    after := [];
    TrimsOne(s);
    if TrailingSpace(s) != 0 {
      var n := |s| - 1;
      PlainEdges(s);
      PlainSlices(s, n);
      var rest := TrimEndPlain(s[..n]);
      SpacesJoin(rest, s[n..]);
      after := rest + s[n..];
      assert s == s[..n] + s[n..];
    }
  }

  lemma PlainIsDelimited(s: Bytes)
    requires ParseUnsigned(Trim(s), MAX_USIZE).Some? && PlainBytes(s)
    ensures LengthValue(s)
  {
    hide TrimStart, TrimEnd, DigitsValue;
    var before := TrimStartPlain(s);
    var after := TrimEndPlain(TrimStart(s));
    var digits := Trim(s);
    assert digits != [] ==> PlainByte(digits[0]);
    assert s == before + digits + after;
    assert Delimited(s, before, digits, after);
  }

  lemma DelimitedIsPlain(s: Bytes, before: Bytes, digits: Bytes, after: Bytes)
    requires Delimited(s, before, digits, after)
    ensures PlainBytes(s)
  {
    forall i | 0 <= i < |s|
      ensures PlainByte(s[i])
    {
      if i < |before| {
        assert s[i] == before[i];
      } else if i < |before| + |digits| {
        assert s[i] == digits[i - |before|];
        assert IsDigit(digits[i - |before|]);
      } else {
        assert s[i] == after[i - |before| - |digits|];
      }
    }
  }

  lemma LengthIff(s: Bytes)
    requires ParseUnsigned(Trim(s), MAX_USIZE).Some?
    ensures LengthValue(s) <==> PlainBytes(s)
  {
    hide ParseUnsigned, Trim, PlainBytes, Delimited;
    if PlainBytes(s) {
      PlainIsDelimited(s);
    }
    if LengthValue(s) {
      var before, digits, after :| Delimited(s, before, digits, after);
      DelimitedIsPlain(s, before, digits, after);
    }
  }

  // ----- accepted blocks

  lemma {:induction false} LengthsParse(lines: seq<Bytes>, maxBody: nat, seen: Seen, i: nat)
    requires TakeFields(lines, maxBody, seen).Some? && i < |lines| && IsLengthField(lines[i])
    ensures ParseUnsigned(Trim(FieldOf(lines[i]).value.value), MAX_USIZE).Some?
    decreases lines
  {
    hide FieldOf, Lower, IsToken, ParseUnsigned, Trim;
    if i > 0 {
      LengthsParse(lines[1..], maxBody, TakeField(lines[0], maxBody, seen).value, i - 1);
    }
  }

  /**
   * The numbers of an accepted block are written as the grammar says if and only if the status has
   * three bytes without a leading plus sign, and each Content-Length consists of digits, spaces and
   * tabs.
   */
  lemma GrammaticalIff(header: Bytes, maxBody: nat)
    requires ParseHeader(header, maxBody).Ok?
    ensures Grammatical(header) <==> Plain(header)
  {
    hide ValidUtf8, StatusOf, StatusText, StatusCode, LengthValue, PlainBytes, FieldOf, TakeField, Split, Lower;
    var lines := LinesOf(header);
    StatusIff(lines[0]);
    forall i | 1 <= i < |lines| && IsLengthField(lines[i])
      ensures LengthValue(FieldOf(lines[i]).value.value) <==> PlainBytes(FieldOf(lines[i]).value.value)
    {
      assert lines[1..][i - 1] == lines[i];
      LengthsParse(lines[1..], maxBody, NOTHING_SEEN, i - 1);
      LengthIff(FieldOf(lines[i]).value.value);
    }
  }

  // ----- blocks that are accepted and not grammatical

  /** A block with these texts as status and as Content-Length. */
  function Block(status: Bytes, length: Bytes): Bytes {
    JoinLines(BlockLines(status, length)) + CRLF
  }

  function BlockLines(status: Bytes, length: Bytes): seq<Bytes> {
    [VersionText(Http11) + [SPACE] + status + [SPACE] + [], CONTENT_LENGTH + [COLON] + length]
  }

  /** ASCII without line breaks. */
  predicate OneLine(s: Bytes) {
    forall i :: 0 <= i < |s| ==> s[i] < 0x80 && s[i] != CR && s[i] != LF
  }

  lemma StatusReads(status: Bytes, length: Bytes)
    requires SPACE !in status
    ensures StatusText(BlockLines(status, length)[0]) == status
    ensures ParseUnsigned(status, 0xffff).Some? && 100 <= ParseUnsigned(status, 0xffff).value <= 599 ==>
              StatusOf(BlockLines(status, length)[0]) == ParseUnsigned(status, 0xffff)
  {
    var version, line := VersionText(Http11), BlockLines(status, length)[0];
    assert line == version + [SPACE] + (status + [SPACE] + []);
    VersionHasNoSpace(Http11);
    CutAtSpace(version, status + [SPACE] + []);
    CutAtSpace(status, []);
  }

  lemma LengthReads(status: Bytes, length: Bytes)
    ensures FieldOf(BlockLines(status, length)[1]) == Some(Field(CONTENT_LENGTH, length))
  {
    LengthNameIsLower();
    NameReads(CONTENT_LENGTH, length);
  }

  lemma NameReads(name: Bytes, value: Bytes)
    requires IsToken(name)
    ensures FieldOf(name + [COLON] + value) == Some(Field(name, value))
  {
    hide Find;
    var line := name + [COLON] + value;
    assert line[|name|..] == [COLON] + value;
    forall i | 0 <= i < |name|
      ensures !StartsWith(line[i..], [COLON])
    {
      assert IsTokenByte(name[i]);
      assert line[i..][0] == name[i];
    }
    FindIs(line, [COLON], |name|);
    assert line[..|name|] == name && line[|name| + 1..] == value;
  }

  lemma LengthNameIsLower()
    ensures IsToken(CONTENT_LENGTH) && Lower(CONTENT_LENGTH) == CONTENT_LENGTH && CONTENT_LENGTH != TRANSFER_ENCODING
  {
    HttpRequest.LengthNameBytes();
    assert |CONTENT_LENGTH| != |TRANSFER_ENCODING|;
    hide Ascii;
    assert Lower(HttpRequest.LOWER_BYTES) == HttpRequest.LOWER_BYTES;
  }

  lemma LinesArePlain(status: Bytes, length: Bytes)
    requires OneLine(status) && OneLine(length)
    ensures forall line :: line in BlockLines(status, length) ==> NoLineBreak(line) && ValidUtf8(line)
  {
    hide OneLine, NoLineBreak, ValidUtf8;
    NamesAreOneLine();
    var first, second := BlockLines(status, length)[0], BlockLines(status, length)[1];
    OneLineJoined(VersionText(Http11), [SPACE]);
    OneLineJoined(VersionText(Http11) + [SPACE], status);
    OneLineJoined(VersionText(Http11) + [SPACE] + status, [SPACE]);
    assert first == VersionText(Http11) + [SPACE] + status + [SPACE];
    OneLineJoined(CONTENT_LENGTH, [COLON]);
    OneLineJoined(CONTENT_LENGTH + [COLON], length);
    OneLineIsPlain(first);
    OneLineIsPlain(second);
  }

  lemma NamesAreOneLine()
    ensures OneLine(VersionText(Http11)) && OneLine([SPACE]) && OneLine([COLON]) && OneLine(CONTENT_LENGTH)
  {
    HttpRequest.LengthNameBytes();
  }

  lemma OneLineJoined(a: Bytes, b: Bytes)
    requires OneLine(a) && OneLine(b)
    ensures OneLine(a + b)
  {}

  lemma OneLineIsPlain(s: Bytes)
    requires OneLine(s)
    ensures NoLineBreak(s) && ValidUtf8(s)
  {
    AsciiIsUtf8(s);
  }

  lemma BlockSplits(status: Bytes, length: Bytes)
    requires OneLine(status) && OneLine(length)
    ensures ValidUtf8(Block(status, length)) && EndsWith(Block(status, length), CRLF + CRLF)
    ensures LinesOf(Block(status, length)) == BlockLines(status, length)
  {
    hide ValidUtf8, NoLineBreak, OneLine, BlockLines, Split, JoinLines;
    var lines := BlockLines(status, length);
    assert |lines| == 2 by { CountLines(status, length); }
    LinesArePlain(status, length);
    JoinedIsUtf8(lines);
    SplitJoined(lines);
    EndsWithBreak(lines);
    var head := JoinLines(lines);
    var header := head + CRLF;
    assert header[|header| - 4..] == head[|head| - 2..] + CRLF;
    assert header[..|header| - 4] == head[..|head| - 2];
  }

  lemma BlockParses(status: Bytes, length: Bytes, maxBody: nat)
    requires OneLine(status) && OneLine(length) && SPACE !in status
    requires var code := ParseUnsigned(status, 0xffff); code.Some? && 100 <= code.value <= 599
    requires var n := ParseUnsigned(Trim(length), MAX_USIZE); n.Some? && n.value <= maxBody
    ensures ParseHeader(Block(status, length), maxBody) ==
            Ok(Response(ParseUnsigned(status, 0xffff).value, ParseUnsigned(Trim(length), MAX_USIZE)))
    ensures Plain(Block(status, length)) <==> |status| == 3 && status[0] != PLUS && PlainBytes(length)
  {
    hide ValidUtf8, Split, JoinLines, BlockLines, StatusOf, StatusText, FieldOf, Lower, IsToken, Trim, ParseUnsigned, OneLine,
      PlainBytes;
    var lines := BlockLines(status, length);
    assert |lines| == 2 by { CountLines(status, length); }
    BlockSplits(status, length);
    StatusReads(status, length);
    LengthReads(status, length);
    LengthNameIsLower();
    assert lines[1..] == [lines[1]];
    TakeOne(lines[1], length, maxBody);
    assert IsLengthField(lines[1]);
  }

  lemma CountLines(status: Bytes, length: Bytes)
    ensures |BlockLines(status, length)| == 2
  {}

  lemma TakeOne(line: Bytes, length: Bytes, maxBody: nat)
    requires FieldOf(line) == Some(Field(CONTENT_LENGTH, length))
    requires IsToken(CONTENT_LENGTH) && Lower(CONTENT_LENGTH) == CONTENT_LENGTH && CONTENT_LENGTH != TRANSFER_ENCODING
    requires var n := ParseUnsigned(Trim(length), MAX_USIZE); n.Some? && n.value <= maxBody
    ensures TakeFields([line], maxBody, NOTHING_SEEN) ==
            Some(Seen({CONTENT_LENGTH}, ParseUnsigned(Trim(length), MAX_USIZE)))
  {
    hide FieldOf, Lower, IsToken, Trim, ParseUnsigned;
    assert {} + {CONTENT_LENGTH} == {CONTENT_LENGTH};
  }

  /** A number behind one byte that is not part of it is plain ASCII without spaces. */
  lemma PrefixedIsOneLine(b: byte, n: nat)
    requires b < 0x80 && b != CR && b != LF && b != SPACE
    ensures OneLine([b] + Decimal(n)) && SPACE !in [b] + Decimal(n)
  {
    assert forall i :: 0 <= i < |Decimal(n)| ==> IsDigit(Decimal(n)[i]);
    DigitsHaveNoSpace(Decimal(n));
  }

  lemma TrimPlus(n: nat)
    ensures Trim([PLUS] + Decimal(n)) == [PLUS] + Decimal(n)
  {
    var s := [PLUS] + Decimal(n);
    assert s[|s| - 1] == Decimal(n)[|Decimal(n)| - 1];
    assert IsDigit(s[|s| - 1]);
    assert LeadingSpace(s) == 0 && TrailingSpace(s) == 0;
  }

  lemma TrimVerticalTab(n: nat)
    ensures Trim([11] + Decimal(n)) == Decimal(n)
  {
    var digits := Decimal(n);
    DigitsHaveNoEdges(digits);
    assert ([11] + digits)[1..] == digits;
    assert TrimStart(digits) == digits && TrimEnd(digits) == digits;
  }

  lemma ZeroInFront(n: nat)
    ensures ParseUnsigned([48] + Decimal(n), 0xffff) == ParseUnsigned(Decimal(n), 0xffff)
  {
    var digits := Decimal(n);
    assert IsDigit(digits[0]);
    ZeroAddsNothing(digits);
  }

  lemma {:induction false} ZeroAddsNothing(digits: Bytes)
    requires AllDigits(digits)
    ensures AllDigits([48] + digits) && DigitsValue([48] + digits) == DigitsValue(digits)
  {
    var s := [48] + digits;
    if digits == [] {
      assert s[..0] == [];
    } else {
      var n := |digits| - 1;
      assert s[..n + 1] == [48] + digits[..n];
      ZeroAddsNothing(digits[..n]);
    }
  }

  /**
   * Every status and every length that is accepted is also accepted behind a plus sign, and behind
   * a zero and a vertical tab; neither block is grammatical.
   */
  lemma LooseNumbersAccepted(status: nat, n: nat, maxBody: nat)
    requires 100 <= status <= 599 && n <= maxBody && n <= MAX_USIZE
    ensures var signed := Block([PLUS] + Decimal(status), [PLUS] + Decimal(n));
            ParseHeader(signed, maxBody) == Ok(Response(status, Some(n))) && !Grammatical(signed)
    ensures var padded := Block([48] + Decimal(status), [11] + Decimal(n));
            ParseHeader(padded, maxBody) == Ok(Response(status, Some(n))) && !Grammatical(padded)
  {
    hide Block, Grammatical, ParseHeader, Decimal;
    SignedAccepted(status, n, maxBody);
    PaddedAccepted(status, n, maxBody);
  }

  lemma SignedAccepted(status: nat, n: nat, maxBody: nat)
    requires 100 <= status <= 599 && n <= maxBody && n <= MAX_USIZE
    ensures var signed := Block([PLUS] + Decimal(status), [PLUS] + Decimal(n));
            ParseHeader(signed, maxBody) == Ok(Response(status, Some(n))) && !Grammatical(signed)
  {
    hide Block, Grammatical, Plain, ParseHeader, Decimal, ParseUnsigned, Trim, OneLine;
    var code, length := [PLUS] + Decimal(status), [PLUS] + Decimal(n);
    ParsePrinted(status, 0xffff);
    ParsePrinted(n, MAX_USIZE);
    PrefixedIsOneLine(PLUS, status);
    PrefixedIsOneLine(PLUS, n);
    TrimPlus(n);
    BlockParses(code, length, maxBody);
    GrammaticalIff(Block(code, length), maxBody);
  }

  lemma PaddedAccepted(status: nat, n: nat, maxBody: nat)
    requires 100 <= status <= 599 && n <= maxBody && n <= MAX_USIZE
    ensures var padded := Block([48] + Decimal(status), [11] + Decimal(n));
            ParseHeader(padded, maxBody) == Ok(Response(status, Some(n))) && !Grammatical(padded)
  {
    hide Block, Grammatical, Plain, ParseHeader, Decimal, ParseUnsigned, Trim, OneLine;
    var code, length := [48] + Decimal(status), [11] + Decimal(n);
    ParsePrinted(status, 0xffff);
    ParsePrinted(n, MAX_USIZE);
    PrefixedIsOneLine(48, status);
    PrefixedIsOneLine(11, n);
    ZeroInFront(status);
    TrimVerticalTab(n);
    BlockParses(code, length, maxBody);
    assert !PlainByte(length[0]);
    GrammaticalIff(Block(code, length), maxBody);
  }
}
