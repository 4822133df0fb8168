/** Parsing the header block of a `recv_http` step. */
module HttpResponse {
  import opened Wrappers
  import opened Words
  import opened Transport
  import opened HttpText

  // ----- UTF-8 (`str::from_utf8`)

  predicate Between(b: byte, low: byte, high: byte) { low <= b <= high }

  /** The number of bytes of the well-formed character at the head of `s`; zero if there is none. */
  function CharLength(s: Bytes): (n: nat)
    requires s != []
    ensures n <= |s| && n <= 4
  {
    var b := s[0];
    if b < 0x80 then 1
    else if |s| < 2 then 0
    else if Between(b, 0xc2, 0xdf) then if Continues(s, 1) then 2 else 0
    else if |s| < 3 then 0
    else if Between(b, 0xe0, 0xef) then
      if Between(s[1], if b == 0xe0 then 0xa0 else 0x80, if b == 0xed then 0x9f else 0xbf) && Continues(s, 2) then 3
      else 0
    else if |s| < 4 then 0
    else if Between(b, 0xf0, 0xf4) then
      if Between(s[1], if b == 0xf0 then 0x90 else 0x80, if b == 0xf4 then 0x8f else 0xbf) &&
         Continues(s, 2) && Continues(s, 3) then 4
      else 0
    else 0
  }

  predicate Continues(s: Bytes, i: nat)
    requires i < |s|
  {
    Between(s[i], 0x80, 0xbf)
  }

  predicate ValidUtf8(s: Bytes)
    decreases |s|
  {
    s == [] || (CharLength(s) > 0 && ValidUtf8(s[CharLength(s)..]))
  }

  // ----- white space (`str::trim`)

  /** The bytes of the white space character at the head of `s`; zero if there is none. */
  function LeadingSpace(s: Bytes): (n: nat)
    ensures n <= |s|
  {
    if s == [] then 0
    else if 9 <= s[0] <= 13 || s[0] == 32 then 1
    else if |s| >= 2 && IsWideSpace2(s[0], s[1]) then 2
    else if |s| >= 3 && IsWideSpace3(s[0], s[1], s[2]) then 3
    else 0
  }

  function TrailingSpace(s: Bytes): (n: nat)
    ensures n <= |s|
  {
    var k := |s|;
    if k == 0 then 0
    else if 9 <= s[k - 1] <= 13 || s[k - 1] == 32 then 1
    else if k >= 2 && IsWideSpace2(s[k - 2], s[k - 1]) then 2
    else if k >= 3 && IsWideSpace3(s[k - 3], s[k - 2], s[k - 1]) then 3
    else 0
  }

  /** U+0085 and U+00A0. */
  predicate IsWideSpace2(a: byte, b: byte) {
    a == 0xc2 && (b == 0x85 || b == 0xa0)
  }

  /** U+1680, U+2000 to U+200A, U+2028, U+2029, U+202F, U+205F and U+3000. */
  predicate IsWideSpace3(a: byte, b: byte, c: byte) {
    (a == 0xe1 && b == 0x9a && c == 0x80) ||
    (a == 0xe2 && b == 0x80 && (0x80 <= c <= 0x8a || c == 0xa8 || c == 0xa9 || c == 0xaf)) ||
    (a == 0xe2 && b == 0x81 && c == 0x9f) ||
    (a == 0xe3 && b == 0x80 && c == 0x80)
  }

  function TrimStart(s: Bytes): (r: Bytes)
    ensures |r| <= |s|
    decreases |s|
  {
    if LeadingSpace(s) == 0 then s else TrimStart(s[LeadingSpace(s)..])
  }

  function TrimEnd(s: Bytes): (r: Bytes)
    ensures |r| <= |s|
    decreases |s|
  {
    if TrailingSpace(s) == 0 then s else TrimEnd(s[..|s| - TrailingSpace(s)])
  }

  function Trim(s: Bytes): Bytes {
    TrimEnd(TrimStart(s))
  }

  // ----- the header block

  datatype Response = Response(status: nat, contentLength: Option<nat>)

  datatype Field = Field(name: Bytes, value: Bytes)

  /** `split_once(':')`. */
  function FieldOf(line: Bytes): Option<Field> {
    match Find(line, [COLON])
    case None => None
    case Some(n) => Some(Field(line[..n], line[n + 1..]))
  }

  /** The status code as it is written: what stands between the first two spaces. */
  function StatusText(line: Bytes): Bytes {
    match Find(line, [SPACE])
    case None => []
    case Some(n) =>
      var rest := line[n + 1..];
      match Find(rest, [SPACE]) case None => rest case Some(m) => rest[..m]
  }

  /** Status and version of the first line, which `splitn(3, ' ')` cuts at its first two spaces. */
  function StatusOf(line: Bytes): Option<nat> {
    match Find(line, [SPACE])
    case None => None
    case Some(n) =>
      var status :- ParseUnsigned(StatusText(line), 0xffff);
      if (line[..n] == Ascii("HTTP/1.0") || line[..n] == Ascii("HTTP/1.1")) && 100 <= status <= 599
      then Some(status) else None
  }

  /** What the field loop remembers. */
  datatype Seen = Seen(names: set<Bytes>, contentLength: Option<nat>)

  const MAX_USIZE: nat := 0xffff_ffff_ffff_ffff

  function TakeField(line: Bytes, maxBody: nat, seen: Seen): Option<Seen> {
    var f :- FieldOf(line);
    if !IsToken(f.name) then None
    else
      var name := Lower(f.name);
      if name in seen.names || name == TRANSFER_ENCODING then None
      else
        var names := seen.names + {name};
        if name != CONTENT_LENGTH then Some(Seen(names, seen.contentLength))
        else
          var length :- ParseUnsigned(Trim(f.value), MAX_USIZE);
          if length > maxBody then None else Some(Seen(names, Some(length)))
  }

  function TakeFields(lines: seq<Bytes>, maxBody: nat, seen: Seen): Option<Seen> {
    if lines == [] then Some(seen)
    else
      var next :- TakeField(lines[0], maxBody, seen);
      TakeFields(lines[1..], maxBody, next)
  }

  const NOTHING_SEEN: Seen := Seen({}, None)

  function ParseHeader(header: Bytes, maxBody: nat): (r: Result<Response, Failure>)
    ensures r.Err? ==> r.error == InvalidResponse
  {
    if !ValidUtf8(header) || !EndsWith(header, CRLF + CRLF) then Err(InvalidResponse)
    else
      var lines := Split(header[..|header| - 4]);
      match StatusOf(lines[0])
      case None => Err(InvalidResponse)
      case Some(status) =>
        match TakeFields(lines[1..], maxBody, NOTHING_SEEN)
        case None => Err(InvalidResponse)
        case Some(seen) => Ok(Response(status, seen.contentLength))
  }

  method ParseHttpHeader(header: Bytes, maxBody: nat) returns (r: Result<Response, Failure>)
    ensures r == ParseHeader(header, maxBody)
  {
    hide TakeField;
    if !ValidUtf8(header) || !EndsWith(header, CRLF + CRLF) {
      return Err(InvalidResponse);
    }
    var lines := Split(header[..|header| - 4]);
    var status := StatusOf(lines[0]);
    if status.None? {
      return Err(InvalidResponse);
    }
    var seen := NOTHING_SEEN;
    for i := 1 to |lines|
      invariant TakeFields(lines[1..], maxBody, NOTHING_SEEN) == TakeFields(lines[i..], maxBody, seen)
    {
      var next := TakeField(lines[i], maxBody, seen);
      if next.None? {
        return Err(InvalidResponse);
      }
      seen := next.value;
    }
    return Ok(Response(status.value, seen.contentLength));
  }

  // ----- what an accepted block satisfies

  /** The fields of a block, one per line, when every line has one. */
  ghost predicate HasFields(lines: seq<Bytes>, fields: seq<Field>) {
    |fields| == |lines| && forall i :: 0 <= i < |lines| ==> FieldOf(lines[i]) == Some(fields[i])
  }

  ghost predicate DistinctNames(fields: seq<Field>) {
    forall i, j :: 0 <= i < j < |fields| ==> Lower(fields[i].name) != Lower(fields[j].name)
  }

  predicate GoodField(f: Field, maxBody: nat) {
    && IsToken(f.name)
    && Lower(f.name) != TRANSFER_ENCODING
    && (Lower(f.name) == CONTENT_LENGTH ==>
          var length := ParseUnsigned(Trim(f.value), MAX_USIZE);
          length.Some? && length.value <= maxBody)
  }

  /** The length the fields declare. */
  function DeclaredLength(fields: seq<Field>): Option<nat> {
    if fields == [] then None
    else
      var last := fields[|fields| - 1];
      if Lower(last.name) == CONTENT_LENGTH then ParseUnsigned(Trim(last.value), MAX_USIZE)
      else DeclaredLength(fields[..|fields| - 1])
  }

  ghost predicate GoodFields(fields: seq<Field>, maxBody: nat) {
    DistinctNames(fields) && forall i :: 0 <= i < |fields| ==> GoodField(fields[i], maxBody)
  }

  /** The loop state after these fields. */
  ghost function SeenAfter(fields: seq<Field>): Seen {
    Seen(set i | 0 <= i < |fields| :: Lower(fields[i].name), DeclaredLength(fields))
  }

  lemma TakeOneMore(done: seq<Field>, line: Bytes, maxBody: nat)
    requires GoodFields(done, maxBody)
    ensures var next := TakeField(line, maxBody, SeenAfter(done));
            if FieldOf(line).Some? && GoodFields(done + [FieldOf(line).value], maxBody)
            then next == Some(SeenAfter(done + [FieldOf(line).value]))
            else next == None
  {
    hide Lower, Trim, ParseUnsigned, IsToken, FieldOf;
    if FieldOf(line).Some? {
      var f := FieldOf(line).value;
      var more := done + [f];
      var name := Lower(f.name);
      assert more[..|done|] == done;
      assert more[|done|] == f;
      if name in SeenAfter(done).names {
        var i :| 0 <= i < |done| && Lower(done[i].name) == name;
        assert Lower(more[i].name) == Lower(more[|done|].name);
      } else if GoodField(f, maxBody) {
        assert SeenAfter(more).names == SeenAfter(done).names + {name} by {
          assert forall i :: 0 <= i < |done| ==> more[i] == done[i];
        }
        forall i, j | 0 <= i < j < |more|
          ensures Lower(more[i].name) != Lower(more[j].name)
        {
          assert j == |done| ==> Lower(done[i].name) in SeenAfter(done).names;
        }
      }
    }
  }

  lemma {:induction false} TakeAll(done: seq<Field>, lines: seq<Bytes>, fields: seq<Field>, maxBody: nat)
    requires GoodFields(done, maxBody) && HasFields(lines, fields)
    ensures TakeFields(lines, maxBody, SeenAfter(done)) ==
            if GoodFields(done + fields, maxBody) then Some(SeenAfter(done + fields)) else None
    decreases |lines|
  {
    hide TakeField, GoodField, SeenAfter;
    if lines == [] {
      assert done + fields == done;
    } else {
      var more := done + [fields[0]];
      TakeOneMore(done, lines[0], maxBody);
      assert more + fields[1..] == done + fields;
      if GoodFields(more, maxBody) {
        TakeAll(more, lines[1..], fields[1..], maxBody);
      } else {
        PrefixOfGood(more, fields[1..], maxBody);
      }
    }
  }

  lemma PrefixOfGood(a: seq<Field>, b: seq<Field>, maxBody: nat)
    ensures GoodFields(a + b, maxBody) ==> GoodFields(a, maxBody)
  {
    hide GoodField, Lower;
    assert forall i :: 0 <= i < |a| ==> (a + b)[i] == a[i];
  }

  lemma {:induction false} FieldsOfAccepted(lines: seq<Bytes>, maxBody: nat, seen: Seen) returns (fields: seq<Field>)
    requires TakeFields(lines, maxBody, seen).Some?
    ensures HasFields(lines, fields)
  {
    if lines == [] {
      fields := [];
    } else {
      var rest := FieldsOfAccepted(lines[1..], maxBody, TakeField(lines[0], maxBody, seen).value);
      fields := [FieldOf(lines[0]).value] + rest;
    }
  }

  /**
   * Acceptance, exactly. A block is accepted with a status and a length when it is UTF-8, ends in
   * a blank line, has a good status line, and every other line is a field; the names are tokens
   * that differ even when case is ignored, none is Transfer-Encoding, and a Content-Length is a
   * number within the limit, which is then the length reported.
   */
  lemma AcceptedIff(header: Bytes, maxBody: nat, r: Response)
    ensures ParseHeader(header, maxBody) == Ok(r) <==>
            (ValidUtf8(header) && EndsWith(header, CRLF + CRLF) &&
             var lines := Split(header[..|header| - 4]);
             StatusOf(lines[0]) == Some(r.status) &&
             exists fields :: HasFields(lines[1..], fields) && GoodFields(fields, maxBody) &&
                              r.contentLength == DeclaredLength(fields))
  {
    hide ValidUtf8, StatusOf, Split, TakeField, GoodField;
    if ValidUtf8(header) && EndsWith(header, CRLF + CRLF) {
      var lines := Split(header[..|header| - 4])[1..];
      EmptySeen();
      if TakeFields(lines, maxBody, NOTHING_SEEN).Some? {
        var fields := FieldsOfAccepted(lines, maxBody, NOTHING_SEEN);
        TakeAll([], lines, fields, maxBody);
        assert [] + fields == fields;
      }
      forall fields | HasFields(lines, fields)
        ensures TakeFields(lines, maxBody, NOTHING_SEEN) ==
                if GoodFields(fields, maxBody) then Some(SeenAfter(fields)) else None
      {
        TakeAll([], lines, fields, maxBody);
        assert [] + fields == fields;
      }
    }
  }

  lemma EmptySeen()
    ensures SeenAfter([]) == NOTHING_SEEN && forall max :: GoodFields([], max)
  {}

  /** Every accepted block has a status in range, a length within the limit, and distinct names. */
  lemma AcceptedBounds(header: Bytes, maxBody: nat)
    requires ParseHeader(header, maxBody).Ok?
    ensures var r := ParseHeader(header, maxBody).value;
            100 <= r.status <= 599 && (r.contentLength.Some? ==> r.contentLength.value <= maxBody)
  {
    hide ValidUtf8, StatusOf, Split, TakeFields, GoodFields;
    var r := ParseHeader(header, maxBody).value;
    AcceptedIff(header, maxBody, r);
    var lines := Split(header[..|header| - 4]);
    var fields :| HasFields(lines[1..], fields) && GoodFields(fields, maxBody) &&
                  r.contentLength == DeclaredLength(fields);
    if r.contentLength.Some? {
      DeclaredWithin(fields, maxBody);
    }
    StatusInRange(lines[0]);
  }

  lemma StatusInRange(line: Bytes)
    ensures StatusOf(line).Some? ==> 100 <= StatusOf(line).value <= 599
  {}

  lemma {:induction false} DeclaredWithin(fields: seq<Field>, maxBody: nat)
    requires GoodFields(fields, maxBody) && DeclaredLength(fields).Some?
    ensures DeclaredLength(fields).value <= maxBody
  {
    var n := |fields| - 1;
    assert GoodField(fields[n], maxBody);
    if Lower(fields[n].name) != CONTENT_LENGTH {
      DeclaredWithin(fields[..n], maxBody);
    }
  }

  // ----- printing

  datatype Version = Http10 | Http11

  function VersionText(v: Version): Bytes {
    Ascii(if v.Http10? then "HTTP/1.0" else "HTTP/1.1")
  }

  function FieldLine(f: Field): Bytes {
    f.name + [COLON, SPACE] + f.value
  }

  function FieldLines(fields: seq<Field>): (r: seq<Bytes>)
    ensures |r| == |fields| && forall i :: 0 <= i < |r| ==> r[i] == FieldLine(fields[i])
  {
    seq(|fields|, i requires 0 <= i < |fields| => FieldLine(fields[i]))
  }

  function StatusLine(v: Version, status: nat, reason: Bytes): Bytes {
    VersionText(v) + [SPACE] + Decimal(status) + [SPACE] + reason
  }

  function PrintHeader(v: Version, status: nat, reason: Bytes, fields: seq<Field>): Bytes {
    JoinLines([StatusLine(v, status, reason)] + FieldLines(fields)) + CRLF
  }

  lemma StatusLineReads(v: Version, status: nat, reason: Bytes)
    requires 100 <= status <= 599
    ensures StatusOf(StatusLine(v, status, reason)) == Some(status)
  {
    var version, digits := VersionText(v), Decimal(status);
    var line := StatusLine(v, status, reason);
    assert line == version + [SPACE] + (digits + [SPACE] + reason);
    VersionHasNoSpace(v);
    CutAtSpace(version, digits + [SPACE] + reason);
    DigitsHaveNoSpace(digits);
    CutAtSpace(digits, reason);
    ParsePrinted(status, 0xffff);
  }

  lemma VersionHasNoSpace(v: Version)
    ensures SPACE !in VersionText(v)
  {}

  lemma DigitsHaveNoSpace(digits: Bytes)
    requires AllDigits(digits)
    ensures SPACE !in digits
  {
    forall i | 0 <= i < |digits|
      ensures digits[i] != SPACE
    {
      assert IsDigit(digits[i]);
    }
  }

  lemma FieldLineReads(f: Field)
    requires IsToken(f.name)
    ensures FieldOf(FieldLine(f)) == Some(Field(f.name, [SPACE] + f.value))
  {
    hide Find, IsToken;
    var line := FieldLine(f);
    ColonEndsName(f);
    assert line[..|f.name|] == f.name && line[|f.name| + 1..] == [SPACE] + f.value;
  }

  lemma ColonEndsName(f: Field)
    requires IsToken(f.name)
    ensures Find(FieldLine(f), [COLON]) == Some(|f.name|)
  {
    hide Find;
    var line := FieldLine(f);
    assert line[|f.name|..] == [COLON, SPACE] + f.value;
    forall i | 0 <= i < |f.name|
      ensures !StartsWith(line[i..], [COLON])
    {
      assert IsTokenByte(f.name[i]);
      assert line[i..][0] == f.name[i];
    }
    FindIs(line, [COLON], |f.name|);
  }

  // ----- UTF-8 of a printed block

  lemma {:induction false} Utf8Append(a: Bytes, b: Bytes)
    requires ValidUtf8(a) && ValidUtf8(b)
    ensures ValidUtf8(a + b)
    decreases |a|
  {
    hide CharLength;
    if a == [] {
      assert a + b == b;
    } else {
      var n := CharLength(a);
      CharLengthAppend(a, b);
      Utf8Append(a[n..], b);
      assert (a + b)[n..] == a[n..] + b;
    }
  }

  lemma CharLengthAppend(a: Bytes, b: Bytes)
    requires a != [] && CharLength(a) > 0
    ensures CharLength(a + b) == CharLength(a)
  {}

  lemma {:induction false} AsciiIsUtf8(s: Bytes)
    requires forall i :: 0 <= i < |s| ==> s[i] < 0x80
    ensures ValidUtf8(s)
  {
    if s != [] {
      AsciiIsUtf8(s[1..]);
    }
  }

  lemma TokenIsUtf8(s: Bytes)
    requires IsToken(s)
    ensures ValidUtf8(s)
  {
    assert forall i :: 0 <= i < |s| ==> IsTokenByte(s[i]);
    AsciiIsUtf8(s);
  }

  lemma FieldLineIsUtf8(f: Field)
    requires IsToken(f.name) && ValidUtf8(f.value)
    ensures ValidUtf8(FieldLine(f))
  {
    TokenIsUtf8(f.name);
    AsciiIsUtf8([COLON, SPACE]);
    Utf8Append(f.name, [COLON, SPACE]);
    Utf8Append(f.name + [COLON, SPACE], f.value);
  }

  lemma StatusLineIsUtf8(v: Version, status: nat, reason: Bytes)
    requires ValidUtf8(reason)
    ensures ValidUtf8(StatusLine(v, status, reason))
  {
    var head := VersionText(v) + [SPACE] + Decimal(status) + [SPACE];
    assert forall i :: 0 <= i < |Decimal(status)| ==> IsDigit(Decimal(status)[i]);
    AsciiIsUtf8(head);
    Utf8Append(head, reason);
  }

  lemma {:induction false} JoinedIsUtf8(lines: seq<Bytes>)
    requires forall i :: 0 <= i < |lines| ==> ValidUtf8(lines[i])
    ensures ValidUtf8(JoinLines(lines) + CRLF)
  {
    hide ValidUtf8;
    AsciiIsUtf8(CRLF);
    if lines == [] {
      assert JoinLines(lines) + CRLF == CRLF;
    } else {
      JoinedIsUtf8(lines[1..]);
      Utf8Append(CRLF, JoinLines(lines[1..]) + CRLF);
      Utf8Append(lines[0], CRLF + (JoinLines(lines[1..]) + CRLF));
      assert JoinLines(lines) + CRLF == lines[0] + (CRLF + (JoinLines(lines[1..]) + CRLF));
    }
  }

  // ----- round trip

  /** A field list a server may send to this parser. */
  ghost predicate Printable(fields: seq<Field>, maxBody: nat) {
    && DistinctNames(fields)
    && forall i :: 0 <= i < |fields| ==>
         && IsToken(fields[i].name) && Lower(fields[i].name) != TRANSFER_ENCODING
         && NoLineBreak(fields[i].value) && ValidUtf8(fields[i].value)
         && (Lower(fields[i].name) == CONTENT_LENGTH ==>
               exists n: nat :: n <= maxBody && n <= MAX_USIZE && fields[i].value == Decimal(n))
  }

  /** The length printed in the field list. */
  ghost predicate PrintedLength(fields: seq<Field>, length: Option<nat>) {
    match length
    case None => forall i :: 0 <= i < |fields| ==> Lower(fields[i].name) != CONTENT_LENGTH
    case Some(n) => exists i :: 0 <= i < |fields| && Lower(fields[i].name) == CONTENT_LENGTH &&
                                fields[i].value == Decimal(n)
  }

  lemma TrimDigits(digits: Bytes)
    requires digits != [] && AllDigits(digits)
    ensures Trim([SPACE] + digits) == digits
  {
    hide LeadingSpace, TrailingSpace, AllDigits;
    var s := [SPACE] + digits;
    DigitsHaveNoEdges(digits);
    assert s[1..] == digits;
    assert TrimStart(digits) == digits;
    assert TrimEnd(digits) == digits;
  }

  lemma DigitsHaveNoEdges(digits: Bytes)
    requires digits != [] && AllDigits(digits)
    ensures LeadingSpace([SPACE] + digits) == 1 && LeadingSpace(digits) == 0 && TrailingSpace(digits) == 0
  {
    assert IsDigit(digits[0]) && IsDigit(digits[|digits| - 1]);
  }

  lemma PrintedLengthReads(n: nat)
    ensures ParseUnsigned(Trim([SPACE] + Decimal(n)), MAX_USIZE) == if n <= MAX_USIZE then Some(n) else None
  {
    TrimDigits(Decimal(n));
    ParsePrinted(n, MAX_USIZE);
  }

  /** The fields as the parser sees them: the space after the colon belongs to the value. */
  function AsParsed(fields: seq<Field>): (r: seq<Field>)
    ensures |r| == |fields|
    ensures forall i :: 0 <= i < |r| ==> r[i] == Field(fields[i].name, [SPACE] + fields[i].value)
  {
    seq(|fields|, i requires 0 <= i < |fields| => Field(fields[i].name, [SPACE] + fields[i].value))
  }

  lemma PrintableIsGood(fields: seq<Field>, maxBody: nat)
    requires Printable(fields, maxBody)
    ensures GoodFields(AsParsed(fields), maxBody)
  {
    hide Lower, IsToken, ValidUtf8, Decimal, Trim, ParseUnsigned;
    var parsed := AsParsed(fields);
    forall i | 0 <= i < |parsed|
      ensures GoodField(parsed[i], maxBody)
    {
      if Lower(fields[i].name) == CONTENT_LENGTH {
        var n: nat :| n <= maxBody && n <= MAX_USIZE && fields[i].value == Decimal(n);
        PrintedLengthReads(n);
      }
    }
  }

  lemma {:induction false} DeclaredIsPrinted(fields: seq<Field>, maxBody: nat, length: Option<nat>)
    requires Printable(fields, maxBody) && PrintedLength(fields, length)
    ensures DeclaredLength(AsParsed(fields)) == length
  {
    hide Lower, IsToken, ValidUtf8, Decimal, Trim, ParseUnsigned;
    var n := |fields| - 1;
    if fields != [] {
      if Lower(fields[n].name) == CONTENT_LENGTH {
        var i :| 0 <= i < |fields| && Lower(fields[i].name) == CONTENT_LENGTH && fields[i].value == Decimal(length.value);
        assert i == n;
        var m: nat :| m <= maxBody && m <= MAX_USIZE && fields[n].value == Decimal(m);
        DecimalValue(m);
        DecimalValue(length.value);
        PrintedLengthReads(length.value);
      } else {
        assert AsParsed(fields)[..n] == AsParsed(fields[..n]);
        DeclaredIsPrinted(fields[..n], maxBody, length);
      }
    }
  }

  /** Parsing a printed block returns its status and the length its fields declare. */
  lemma ParsePrintedHeader(v: Version, status: nat, reason: Bytes, fields: seq<Field>, maxBody: nat, length: Option<nat>)
    requires 100 <= status <= 599 && NoLineBreak(reason) && ValidUtf8(reason)
    requires Printable(fields, maxBody) && PrintedLength(fields, length)
    ensures ParseHeader(PrintHeader(v, status, reason, fields), maxBody) == Ok(Response(status, length))
  {
    var header := PrintHeader(v, status, reason, fields);
    PrintedBlockSplits(v, status, reason, fields, maxBody);
    StatusLineReads(v, status, reason);
    FieldsRead(fields);
    PrintableIsGood(fields, maxBody);
    DeclaredIsPrinted(fields, maxBody, length);
    AcceptedIff(header, maxBody, Response(status, length));
    hide *;
    assert ([StatusLine(v, status, reason)] + FieldLines(fields))[1..] == FieldLines(fields);
  }

  lemma FieldsRead(fields: seq<Field>)
    requires forall i :: 0 <= i < |fields| ==> IsToken(fields[i].name)
    ensures HasFields(FieldLines(fields), AsParsed(fields))
  {
    forall i | 0 <= i < |fields|
      ensures FieldOf(FieldLines(fields)[i]) == Some(AsParsed(fields)[i])
    {
      FieldLineReads(fields[i]);
    }
  }

  lemma FieldLineIsPlain(f: Field)
    requires IsToken(f.name) && NoLineBreak(f.value)
    ensures NoLineBreak(FieldLine(f))
  {
    TokenIsPlain(f.name);
  }

  lemma StatusLineIsPlain(v: Version, status: nat, reason: Bytes)
    requires NoLineBreak(reason)
    ensures NoLineBreak(StatusLine(v, status, reason))
  {
    DigitsArePlain(Decimal(status));
    assert NoLineBreak(VersionText(v));
  }

  lemma PrintedBlockSplits(v: Version, status: nat, reason: Bytes, fields: seq<Field>, maxBody: nat)
    requires NoLineBreak(reason) && ValidUtf8(reason) && Printable(fields, maxBody)
    ensures var header := PrintHeader(v, status, reason, fields);
            ValidUtf8(header) && EndsWith(header, CRLF + CRLF) &&
            Split(header[..|header| - 4]) == [StatusLine(v, status, reason)] + FieldLines(fields)
  {
    hide ValidUtf8, NoLineBreak, StatusLine, FieldLine, JoinLines, Split;
    var lines := [StatusLine(v, status, reason)] + FieldLines(fields);
    forall i | 0 <= i < |lines|
      ensures NoLineBreak(lines[i]) && ValidUtf8(lines[i])
    {
      if i == 0 {
        StatusLineIsPlain(v, status, reason);
        StatusLineIsUtf8(v, status, reason);
      } else {
        FieldLineIsPlain(fields[i - 1]);
        FieldLineIsUtf8(fields[i - 1]);
      }
    }
    JoinedIsUtf8(lines);
    SplitJoined(lines);
    EndsWithBreak(lines);
    var head := JoinLines(lines);
    var header := head + CRLF;
    assert header[|header| - 4..] == head[|head| - 2..] + CRLF;
    assert header[..|header| - 4] == head[..|head| - 2];
  }
}
