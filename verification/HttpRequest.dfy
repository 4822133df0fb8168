/** Building the request of a `send_http` step, and what its bytes mean to an HTTP/1.1 server. */
module HttpRequest {
  import opened Wrappers
  import opened Words
  import opened Transport
  import opened HttpText

  const MAX_REQUEST: nat := 1024 * 1024
  const TARGET_IP: Bytes := Ascii("$target_ip")

  datatype Header = Header(name: Bytes, value: Bytes)

  // ----- what the compiler checks

  predicate ValidToken(s: Bytes) {
    IsToken(s) && |s| <= 128
  }

  predicate ValidPath(s: Bytes) {
    s != [] && |s| <= 2048 && s[0] == 47 && NoLineBreak(s) && 0 !in s
  }

  predicate ValidValue(s: Bytes) {
    NoLineBreak(s) && |s| <= 4096
  }

  predicate ValidHeaders(headers: seq<Header>) {
    forall i :: 0 <= i < |headers| ==> ValidToken(headers[i].name) && ValidValue(headers[i].value)
  }

  // ----- the request as lines

  const VERSION: Bytes := Ascii("HTTP/1.1")

  function RequestLine(verb: Bytes, path: Bytes): Bytes {
    verb + [SPACE] + path + [SPACE] + VERSION
  }

  function Substituted(value: Bytes, ip: Bytes): Bytes {
    if value == TARGET_IP then ip else value
  }

  function HeaderLine(h: Header, ip: Bytes): Bytes {
    h.name + [COLON, SPACE] + Substituted(h.value, ip)
  }

  function HeaderLines(headers: seq<Header>, ip: Bytes): seq<Bytes> {
    if headers == [] then [] else [HeaderLine(headers[0], ip)] + HeaderLines(headers[1..], ip)
  }

  predicate DeclaresLength(headers: seq<Header>) {
    exists i :: 0 <= i < |headers| && Lower(headers[i].name) == CONTENT_LENGTH
  }

  function LengthLine(n: nat): Bytes {
    Ascii("Content-Length: ") + Decimal(n)
  }

  function RequestLines(ip: Bytes, verb: Bytes, path: Bytes, headers: seq<Header>, body: Bytes): seq<Bytes> {
    [RequestLine(verb, path)] + HeaderLines(headers, ip) +
    (if body != [] && !DeclaresLength(headers) then [LengthLine(|body|)] else [])
  }

  function BuildRequest(ip: Bytes, verb: Bytes, path: Bytes, headers: seq<Header>, body: Bytes)
    : Result<Bytes, Failure>
  {
    var request := JoinLines(RequestLines(ip, verb, path, headers, body)) + CRLF + body;
    if |request| > MAX_REQUEST then Err(InternalError) else Ok(request)
  }

  // ----- the loop that appends the pieces

  lemma {:induction false} JoinLinesAppend(lines: seq<Bytes>, line: Bytes)
    ensures JoinLines(lines + [line]) == JoinLines(lines) + line + CRLF
  {
    if lines == [] {
      assert JoinLines([line]) == line + CRLF + JoinLines([]);
    } else {
      JoinLinesAppend(lines[1..], line);
      assert (lines + [line])[1..] == lines[1..] + [line];
    }
  }

  lemma HeaderLinesAppend(headers: seq<Header>, i: nat, ip: Bytes)
    requires i < |headers|
    ensures HeaderLines(headers[..i + 1], ip) == HeaderLines(headers[..i], ip) + [HeaderLine(headers[i], ip)]
  {
    if i > 0 {
      HeaderLinesAppend(headers[1..], i - 1, ip);
      assert headers[..i + 1][1..] == headers[1..][..i] && headers[..i][1..] == headers[1..][..i - 1];
    }
  }

  lemma NoneDeclares()
    ensures !DeclaresLength([])
  {}

  lemma DeclaresMore(headers: seq<Header>, i: nat)
    requires i < |headers|
    ensures DeclaresLength(headers[..i + 1]) <==> DeclaresLength(headers[..i]) || Lower(headers[i].name) == CONTENT_LENGTH
  {
    hide Lower;
    assert headers[..i + 1] == headers[..i] + [headers[i]];
  }

  method BuildHttpRequest(ip: Bytes, verb: Bytes, path: Bytes, headers: seq<Header>, body: Bytes)
      returns (r: Result<Bytes, Failure>)
    ensures r == BuildRequest(ip, verb, path, headers, body)
  {
    var request := RequestLine(verb, path) + CRLF;
    ghost var lines := [RequestLine(verb, path)];
    assert JoinLines(lines) == request + JoinLines([]);
    hide JoinLines, HeaderLine, RequestLine, LengthLine, Lower, DeclaresLength;
    NoneDeclares();
    var declared := false;
    for i := 0 to |headers|
      invariant lines == [RequestLine(verb, path)] + HeaderLines(headers[..i], ip)
      invariant request == JoinLines(lines)
      invariant declared <==> DeclaresLength(headers[..i])
    {
      hide HeaderLines;
      HeaderLinesAppend(headers, i, ip);
      JoinLinesAppend(lines, HeaderLine(headers[i], ip));
      lines := lines + [HeaderLine(headers[i], ip)];
      request := request + HeaderLine(headers[i], ip) + CRLF;
      DeclaresMore(headers, i);
      declared := declared || Lower(headers[i].name) == CONTENT_LENGTH;
    }
    assert headers[..|headers|] == headers;
    if body != [] && !declared {
      JoinLinesAppend(lines, LengthLine(|body|));
      lines := lines + [LengthLine(|body|)];
      request := request + LengthLine(|body|) + CRLF;
    } else {
      assert lines + [] == lines;
    }
    assert lines == RequestLines(ip, verb, path, headers, body);
    request := request + CRLF + body;
    if |request| > MAX_REQUEST {
      return Err(InternalError);
    }
    return Ok(request);
  }

  // ----- framing

  predicate PlainLine(line: Bytes) {
    line != [] && NoLineBreak(line)
  }

  /** In a block of plain lines, a line break never meets another one before the end. */
  lemma {:induction false} NoEarlyBlankLine(lines: seq<Bytes>, rest: Bytes, i: nat)
    requires forall k :: 0 <= k < |lines| ==> PlainLine(lines[k])
    requires i + 2 < |JoinLines(lines)|
    ensures !StartsWith((JoinLines(lines) + CRLF + rest)[i..], CRLF + CRLF)
  {
    var line, more := lines[0], JoinLines(lines[1..]);
    var text := JoinLines(lines) + CRLF + rest;
    assert text == line + CRLF + (more + CRLF + rest);
    if i < |line| {
      assert text[i] == line[i];
      assert text[i..][0] == line[i];
    } else if i == |line| {
      assert lines[1..] != [];
      assert text[i + 2] == lines[1][0];
      assert text[i..][2] == lines[1][0];
    } else if i == |line| + 1 {
      assert text[i..][0] == LF;
    } else {
      NoEarlyBlankLine(lines[1..], rest, i - |line| - 2);
      assert text[i..] == (more + CRLF + rest)[i - |line| - 2..];
    }
  }

  /** The head ends at the first blank line, and its lines read back in order. */
  lemma FramedLines(lines: seq<Bytes>, body: Bytes)
    requires lines != [] && forall k :: 0 <= k < |lines| ==> PlainLine(lines[k])
    ensures var text := JoinLines(lines) + CRLF + body;
            var end := |JoinLines(lines)| - 2;
            end >= 0 && Find(text, CRLF + CRLF) == Some(end) &&
            text[end + 4..] == body && Split(text[..end]) == lines
  {
    hide Find, Split, JoinLines;
    var head := JoinLines(lines);
    var text := head + CRLF + body;
    SplitJoined(lines);
    var end := |head| - 2;
    EndsWithBreak(lines);
    assert text[end..] == CRLF + CRLF + body;
    forall i | 0 <= i < end
      ensures !StartsWith(text[i..], CRLF + CRLF)
    {
      NoEarlyBlankLine(lines, body, i);
    }
    FindIs(text, CRLF + CRLF, end);
    assert text[..end] == head[..end];
  }

  // ----- reading the lines back

  /** A header line as a server reads it: name before the first colon, one space skipped. */
  function ReadHeader(line: Bytes): Option<Header> {
    match Find(line, [COLON])
    case None => None
    case Some(n) => if n + 2 <= |line| then Some(Header(line[..n], line[n + 2..])) else None
  }

  lemma ReadsHeaderLine(name: Bytes, value: Bytes)
    requires IsToken(name)
    ensures ReadHeader(name + [COLON, SPACE] + value) == Some(Header(name, value))
  {
    var line := name + [COLON, SPACE] + value;
    assert line[|name|..] == [COLON, SPACE] + value;
    forall i | 0 <= i < |name|
      ensures !StartsWith(line[i..], [COLON])
    {
      assert IsTokenByte(name[i]);
      assert line[i..][0] == name[i];
    }
    FindIs(line, [COLON], |name|);
    assert line[..|name|] == name && line[|name| + 2..] == value;
  }

  lemma ReadsBack(h: Header, ip: Bytes)
    requires IsToken(h.name)
    ensures ReadHeader(HeaderLine(h, ip)) == Some(Header(h.name, Substituted(h.value, ip)))
  {
    ReadsHeaderLine(h.name, Substituted(h.value, ip));
  }

  lemma {:induction false} HeaderLinesAt(headers: seq<Header>, ip: Bytes, i: nat)
    requires i < |headers|
    ensures |HeaderLines(headers, ip)| == |headers|
    ensures HeaderLines(headers, ip)[i] == HeaderLine(headers[i], ip)
  {
    if i > 0 {
      HeaderLinesAt(headers[1..], ip, i - 1);
    } else if |headers| > 1 {
      HeaderLinesAt(headers[1..], ip, 0);
    }
  }

  lemma HeaderLineIsPlain(h: Header, ip: Bytes)
    requires ValidToken(h.name) && ValidValue(h.value) && NoLineBreak(ip)
    ensures PlainLine(HeaderLine(h, ip))
  {
    TokenIsPlain(h.name);
  }

  lemma LinesArePlain(ip: Bytes, verb: Bytes, path: Bytes, headers: seq<Header>, body: Bytes)
    requires ValidToken(verb) && ValidPath(path) && ValidHeaders(headers) && NoLineBreak(ip)
    ensures var lines := RequestLines(ip, verb, path, headers, body);
            forall k :: 0 <= k < |lines| ==> PlainLine(lines[k])
  {
    var lines := RequestLines(ip, verb, path, headers, body);
    forall k | 0 <= k < |lines|
      ensures PlainLine(lines[k])
    {
      if k == 0 {
        TokenIsPlain(verb);
        assert NoLineBreak(VERSION);
      } else {
        if headers != [] {
          HeaderLinesAt(headers, ip, if k <= |headers| then k - 1 else 0);
        }
        if k <= |headers| {
          HeaderLineIsPlain(headers[k - 1], ip);
        } else {
          DigitsArePlain(Decimal(|body|));
          assert NoLineBreak(Ascii("Content-Length: "));
        }
      }
    }
  }

  /** A line cut at its spaces, as section 3 of RFC 9112 separates the parts of a request line. */
  function Parts(line: Bytes): (r: seq<Bytes>)
    ensures r != []
    decreases |line|
  {
    match Find(line, [SPACE])
    case None => [line]
    case Some(n) => [line[..n]] + Parts(line[n + 1..])
  }

  lemma {:induction false} WordsHaveNoSpace(line: Bytes)
    ensures forall w :: w in Parts(line) ==> SPACE !in w
    decreases |line|
  {
    hide Find;
    var cut := Find(line, [SPACE]);
    var first := if cut.Some? then line[..cut.value] else line;
    forall i | 0 <= i < |first|
      ensures first[i] != SPACE
    {
      assert line[i] == first[i] && !StartsWith(line[i..], [SPACE]);
      assert line[i..][..1] == [line[i]];
    }
    if cut.Some? {
      WordsHaveNoSpace(line[cut.value + 1..]);
    }
  }

  lemma FirstWord(word: Bytes, rest: Bytes)
    requires SPACE !in word
    ensures Parts(word + [SPACE] + rest) == [word] + Parts(rest)
  {
    hide Find;
    CutAtSpace(word, rest);
  }

  lemma LastWord(word: Bytes)
    requires SPACE !in word
    ensures Parts(word) == [word]
  {
    hide Find;
    forall i | 0 <= i <= |word|
      ensures !StartsWith(word[i..], [SPACE])
    {
      assert i < |word| ==> word[i..][0] == word[i];
    }
  }

  /** Cutting the request line at its spaces gives back verb, path and version if and only if the path has none. */
  lemma RequestLineReads(verb: Bytes, path: Bytes)
    requires ValidToken(verb)
    ensures Parts(RequestLine(verb, path)) == [verb, path, VERSION] <==> SPACE !in path
  {
    hide Parts, ValidToken;
    TokenHasNoSpace(verb);
    VersionHasNoSpace();
    var rest := path + [SPACE] + VERSION;
    assert RequestLine(verb, path) == verb + [SPACE] + rest;
    FirstWord(verb, rest);
    if SPACE !in path {
      FirstWord(path, VERSION);
      LastWord(VERSION);
    } else {
      WordsHaveNoSpace(RequestLine(verb, path));
      assert path in [verb, path, VERSION];
    }
  }

  lemma TokenHasNoSpace(s: Bytes)
    requires ValidToken(s)
    ensures SPACE !in s
  {
    assert forall i :: 0 <= i < |s| ==> IsTokenByte(s[i]);
  }

  lemma VersionHasNoSpace()
    ensures SPACE !in VERSION
  {}

  /** A path that is accepted although its request line has four parts. */
  lemma SpacedPathAccepted(verb: Bytes)
    requires ValidToken(verb)
    ensures var path := [47, SPACE, 88];
            ValidPath(path) && Parts(RequestLine(verb, path)) == [verb, [47], [88], VERSION]
  {
    hide Parts, ValidToken;
    TokenHasNoSpace(verb);
    VersionHasNoSpace();
    var path: Bytes := [47, SPACE, 88];
    assert RequestLine(verb, path) == verb + [SPACE] + ([47] + [SPACE] + ([88] + [SPACE] + VERSION));
    FirstWord(verb, [47] + [SPACE] + ([88] + [SPACE] + VERSION));
    FirstWord([47], [88] + [SPACE] + VERSION);
    FirstWord([88], VERSION);
    LastWord(VERSION);
  }

  /**
   * A server that cuts the request at the first blank line and splits the head at line breaks
   * recovers the request line, then every header in order, then the implicit length if there is
   * one, and finds exactly the body after the cut. Verb, path and version are the parts of the
   * request line if and only if the path holds no space.
   */
  lemma RequestFraming(ip: Bytes, verb: Bytes, path: Bytes, headers: seq<Header>, body: Bytes)
    requires ValidToken(verb) && ValidPath(path) && ValidHeaders(headers) && NoLineBreak(ip)
    requires BuildRequest(ip, verb, path, headers, body).Ok?
    ensures var request := BuildRequest(ip, verb, path, headers, body).value;
            var cut := Find(request, CRLF + CRLF);
            var implicit := body != [] && !DeclaresLength(headers);
            cut.Some? && request[cut.value + 4..] == body &&
            var lines := Split(request[..cut.value]);
            |lines| == 1 + |headers| + (if implicit then 1 else 0) &&
            lines[0] == RequestLine(verb, path) &&
            (Parts(lines[0]) == [verb, path, VERSION] <==> SPACE !in path) &&
            (forall i :: 0 <= i < |headers| ==>
              ReadHeader(lines[1 + i]) == Some(Header(headers[i].name, Substituted(headers[i].value, ip))) &&
              ReadHeader(lines[1 + i]) ==
              Some(Header(headers[i].name, if headers[i].value == Ascii("$target_ip") then ip else headers[i].value))) &&
            (implicit ==> ImplicitLength(lines[1 + |headers|]) == Some(|body|))
  {
    hide Find, Split, Parts, JoinLines, HeaderLine, RequestLine, LengthLine, ReadHeader, ImplicitLength;
    RequestLineReads(verb, path);
    var lines := RequestLines(ip, verb, path, headers, body);
    LinesArePlain(ip, verb, path, headers, body);
    FramedLines(lines, body);
    if headers != [] {
      HeaderLinesAt(headers, ip, 0);
    }
    forall i | 0 <= i < |headers|
      ensures ReadHeader(lines[1 + i]) == Some(Header(headers[i].name, Substituted(headers[i].value, ip)))
    {
      HeaderLinesAt(headers, ip, i);
      ReadsBack(headers[i], ip);
    }
    LengthLineReads(|body|);
  }

  /** The length a server reads from a Content-Length line. */
  function ImplicitLength(line: Bytes): Option<nat> {
    match ReadHeader(line)
    case None => None
    case Some(h) => if Lower(h.name) == CONTENT_LENGTH then ParseUnsigned(h.value, 0xffff_ffff_ffff_ffff) else None
  }

  lemma LengthLineReads(n: nat)
    requires n <= 0xffff_ffff_ffff_ffff
    ensures ImplicitLength(LengthLine(n)) == Some(n)
  {
    var name := Ascii("Content-Length");
    hide Ascii, Decimal, LengthLine, ReadHeader;
    LengthLineShape(n);
    LengthNameIsToken();
    ReadsHeaderLine(name, Decimal(n));
    ParsePrinted(n, 0xffff_ffff_ffff_ffff);
  }

  lemma LengthLineShape(n: nat)
    ensures LengthLine(n) == Ascii("Content-Length") + [COLON, SPACE] + Decimal(n)
  {
    hide Decimal;
    assert Ascii("Content-Length: ") == Ascii("Content-Length") + [COLON, SPACE];
  }

  lemma LengthNameIsToken()
    ensures IsToken(Ascii("Content-Length")) && Lower(Ascii("Content-Length")) == CONTENT_LENGTH
  {
    LengthNameBytes();
    hide Ascii;
    LowerName();
  }

  const NAME_BYTES: Bytes := [67, 111, 110, 116, 101, 110, 116, 45, 76, 101, 110, 103, 116, 104]
  const LOWER_BYTES: Bytes := [99, 111, 110, 116, 101, 110, 116, 45, 108, 101, 110, 103, 116, 104]

  lemma LengthNameBytes()
    ensures Ascii("Content-Length") == NAME_BYTES
    ensures CONTENT_LENGTH == LOWER_BYTES
  {}

  lemma LowerName()
    ensures IsToken(NAME_BYTES) && Lower(NAME_BYTES) == LOWER_BYTES
  {}
}
