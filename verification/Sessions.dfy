/**
 * What one operation of a probe does to its connection and to plain values. Both the meaning of
 * the written language and the executor of the compiled one are built from these.
 */
module Sessions {
  import opened Wrappers
  import opened Words
  import opened Transport
  import opened HttpText
  import HttpResponse
  import Encodings
  import MsgPack
  import Rc4
  import Schema
  import Ir

  /** Code of other libraries, as arbitrary functions. */
  datatype Library = Library(
    gunzip: (Bytes, nat) -> Option<Bytes>,
    regexCompiles: Bytes -> bool,
    regexMatches: (Bytes, Bytes) -> bool,
    crc32: Bytes -> bv32)

  /** The libraries and the printed address of the target. */
  datatype Host = Host(lib: Library, ipText: Bytes)

  type Digest = d: Bytes | |d| == 32 witness seq(32, _ => 0)

  /** A connection: the peer, the fate of the coming sends, and the certificate of a TLS peer. */
  datatype Conn = Conn(wire: Wire, sendFaults: seq<Option<IoKind>>, certificate: Option<Digest>)

  /** The result of one `connect`. When the list runs out, connecting times out. */
  datatype Dial = Unreachable(failure: Failure) | Connected(conn: Conn)

  /** The state of a run besides its buffers and registers. */
  datatype Session = Session(
    conn: Conn,
    dials: seq<Dial>,
    sent: seq<Bytes>,
    responsive: bool,
    matched: bool,
    confidence: Option<real>,
    status: Option<string>)

  function Connect(dials: seq<Dial>): Result<(Conn, seq<Dial>), Failure> {
    if dials == [] then Err(ConnectTimeout)
    else
      match dials[0]
      case Unreachable(failure) => Err(failure)
      case Connected(conn) => Ok((conn, dials[1..]))
  }

  function Opened(dials: seq<Dial>): Result<Session, Failure> {
    var c :- Connect(dials);
    Ok(Session(c.0, c.1, [], false, false, None, None))
  }

  // ----- the connection

  function SendAll(s: Session, data: Bytes): Result<Session, Failure> {
    if s.conn.sendFaults == [] then Ok(s.(sent := s.sent + [data]))
    else
      match s.conn.sendFaults[0]
      case Some(kind) => Err(FromIo(kind))
      case None => Ok(s.(conn := s.conn.(sendFaults := s.conn.sendFaults[1..]), sent := s.sent + [data]))
  }

  function Redial(s: Session): Result<Session, Failure> {
    var c :- Connect(s.dials);
    Ok(s.(conn := c.0, dials := c.1))
  }

  /** The session after the peer was heard and its stream advanced. */
  function Heard(s: Session, rest: Wire): Session {
    s.(conn := s.conn.(wire := rest), responsive := true)
  }

  datatype Frame = Frame(body: Bytes, length: u64, rest: Wire)

  /** A received number as a length (`as usize`). */
  function Length(n: u64): nat {
    n as int
  }

  /** A length of `kind`, then that many bytes. */
  function ReceiveFrame(w: Wire, kind: NumberKind, min: nat, max: nat): Result<Frame, Failure> {
    var header :- ReadExact(w, kind.Size());
    var length := ReadNumber(header.data, kind);
    if !(min <= Length(length) <= max) then Err(InvalidResponse)
    else
      var body :- ReadExact(header.rest, Length(length));
      Ok(Frame(body.data, length, body.rest))
  }

  /** The stream after a frame was received or refused. */
  function AfterFrame(w: Wire, kind: NumberKind, min: nat, max: nat): Wire {
    match ReadExact(w, kind.Size())
    case Err(_) => AfterRead(w, kind.Size())
    case Ok(header) =>
      var length := Length(ReadNumber(header.data, kind));
      if min <= length <= max then AfterRead(header.rest, length) else header.rest
  }

  datatype HttpReply = HttpReply(header: Bytes, body: Bytes, response: HttpResponse.Response, rest: Wire)

  const BLANK_LINE: Bytes := CRLF + CRLF

  function ReceiveHttp(w: Wire, maxHeader: nat, maxBody: nat, headersOnly: bool): Result<HttpReply, Failure> {
    var header :- ReadUntil(w, BLANK_LINE, maxHeader);
    var response :- HttpResponse.ParseHeader(header.data, maxBody);
    if headersOnly then Ok(HttpReply(header.data, [], response, header.rest))
    else
      match response.contentLength
      case Some(length) =>
        if length == 0 then Ok(HttpReply(header.data, [], response, header.rest))
        else
          var body :- ReadExact(header.rest, length);
          Ok(HttpReply(header.data, body.data, response, body.rest))
      case None =>
        if maxBody == 0 then Ok(HttpReply(header.data, [], response, header.rest))
        else
          var body :- ReadUpTo(header.rest, 1, maxBody);
          Ok(HttpReply(header.data, body.data, response, body.rest))
  }

  /** The stream after a response was received or refused. */
  function AfterHttp(w: Wire, maxHeader: nat, maxBody: nat, headersOnly: bool): Wire {
    match ReadUntil(w, BLANK_LINE, maxHeader)
    case Err(_) => AfterUntil(w, BLANK_LINE, maxHeader)
    case Ok(header) =>
      match HttpResponse.ParseHeader(header.data, maxBody)
      case Err(_) => header.rest
      case Ok(response) =>
        if headersOnly then header.rest
        else
          match response.contentLength
          case Some(length) => if length == 0 then header.rest else AfterRead(header.rest, length)
          case None => if maxBody == 0 then header.rest else AfterRead(header.rest, maxBody)
  }

  function StatusValue(r: HttpResponse.Response): u64 {
    ToU64(r.status)
  }

  function LengthValue(r: HttpResponse.Response): u64 {
    ToU64(if r.contentLength.Some? then r.contentLength.value else 0)
  }

  // ----- plain values

  function ApplyBinary(kind: Schema.BinaryKind, a: u64, b: u64): u64 {
    match kind
    case Add => a + b
    case Sub => a - b
    case Xor => a ^ b
    case And => a & b
    case Or => a | b
    case ShiftLeft => a << (b & 63)
    case ShiftRight => a >> (b & 63)
  }

  function ApplyCompare(kind: Schema.CompareKind, a: u64, b: u64): bool {
    match kind
    case Eq => a == b
    case Ne => a != b
    case Lt => a < b
    case Gt => a > b
  }

  predicate BytesAt(s: Bytes, offset: nat, bytes: Bytes) {
    offset + |bytes| <= |s| && s[offset..offset + |bytes|] == bytes
  }

  predicate Contains(s: Bytes, bytes: Bytes) {
    exists i :: 0 <= i <= |s| && BytesAt(s, i, bytes)
  }

  function Slice(s: Bytes, offset: nat, length: nat): Result<Bytes, Failure> {
    if offset + length <= |s| then Ok(s[offset..offset + length]) else Err(InvalidResponse)
  }

  function ExtractNumber(s: Bytes, offset: nat, kind: NumberKind): Result<u64, Failure> {
    var bytes :- Slice(s, offset, kind.Size());
    Ok(ReadNumber(bytes, kind))
  }

  function ExtractDecimal(s: Bytes, offset: nat, length: nat): Result<u64, Failure> {
    var bytes :- Slice(s, offset, length);
    if !AllDigits(bytes) then Err(InvalidResponse)
    else
      match ParseUnsigned(bytes, 0xffff_ffff_ffff_ffff)
      case None => Err(InvalidResponse)
      case Some(n) => Ok(ToU64(n))
  }

  /** Printed decimal digits inside a buffer are extracted as their number, up to 64 bits. */
  lemma DecimalExtracts(before: Bytes, n: nat, after: Bytes)
    ensures ExtractDecimal(before + Decimal(n) + after, |before|, |Decimal(n)|) ==
            if n <= 0xffff_ffff_ffff_ffff then Ok(ToU64(n)) else Err(InvalidResponse)
  {
    hide ToU64, Decimal;
    var digits := Decimal(n);
    assert (before + digits + after)[|before|..|before| + |digits|] == digits;
    ParsePrinted(n, 0xffff_ffff_ffff_ffff);
  }

  function ExtractCrc(lib: Library, s: Bytes, offset: nat, length: nat): Result<u64, Failure> {
    var bytes :- Slice(s, offset, length);
    Ok(lib.crc32(bytes) as bv64)
  }

  function PackValue(value: u64, kind: NumberKind, wrap: bool): Result<Bytes, Failure> {
    if !wrap && !kind.Holds(value) then Err(InternalError) else Ok(PackNum(value, kind))
  }

  const MAX_CONCAT: nat := 1024 * 1024

  function Orelse(r: Option<Bytes>): Result<Bytes, Failure> {
    match r
    case None => Err(InvalidResponse)
    case Some(data) => Ok(data)
  }

  function TransformBytes(lib: Library, source: Bytes, kind: Ir.TransformKind): Result<Bytes, Failure> {
    match kind
    case AsciiHexDecode => Orelse(Encodings.HexDecode(source))
    case Base64Decode => Orelse(Encodings.Base64Decode(Encodings.DropSpaces(source)))
    case Base64Encode => Ok(Encodings.Base64Encode(source))
    case Rc4(key) => Ok(Rc4.Rc4(source, key))
    case GzipDecompress(offset, max) =>
      if offset > |source| then Err(InvalidResponse)
      else
        var output :- Orelse(lib.gunzip(source[offset..], max + 1));
        // The decoder is read through a cap one byte above the limit.
        if |output| > max then Err(InvalidResponse) else Ok(output)
    case MsgpackString(wanted) => Orelse(MsgPack.MsgpackString(source, wanted))
  }

  // ----- what a run reports

  function StatusText(f: Failure): string {
    match f
    case ConnectionRefused => "connection_refused"
    case ConnectTimeout => "connect_timeout"
    case ReadTimeout => "read_timeout"
    case ConnectionReset => "connection_reset"
    case TlsError => "tls_error"
    case InvalidResponse => "invalid_response"
    case ProbeError => "probe_error"
    case InternalError => "internal_error"
  }

  datatype FieldValue = NumberValue(n: u64) | HexValue(h: Bytes) | TextValue(t: Bytes) | Flag(b: bool) | Fixed(v: Schema.Json)

  datatype Execution = Execution(
    confirmed: bool,
    probable: bool,
    observed: bool,
    responsive: bool,
    confidence: real,
    status: string,
    fields: map<string, FieldValue>,
    sent: seq<Bytes>)

  function FailedExecution(f: Failure, sent: seq<Bytes>): Execution {
    Execution(false, false, false, false, 0.0, StatusText(f), map[], sent)
  }

  /** What a probe declares about its verdicts. */
  datatype Verdicts = Verdicts(
    classification: Schema.MatchClass,
    confidence: real,
    unmatchedConfidence: real,
    status: string,
    unmatchedStatus: string)

  /** The report of a run that reached the end of the probe, or that was rejected on the way. */
  function Report(v: Verdicts, s: Session, rejected: Option<(real, string)>, fields: map<string, FieldValue>): Execution {
    var matched := rejected.None? && s.matched;
    var confidence :=
      if rejected.Some? then rejected.value.0
      else if s.confidence.Some? then s.confidence.value
      else if s.matched then v.confidence else v.unmatchedConfidence;
    var status :=
      if rejected.Some? then rejected.value.1
      else if s.status.Some? then s.status.value
      else if s.matched then v.status
      else if v.unmatchedStatus == "" then "protocol_mismatch"
      else v.unmatchedStatus;
    Execution(matched && v.classification.Confirmed?, matched && v.classification.Probable?,
              matched && v.classification.Observation?, s.responsive, confidence, status, fields, s.sent)
  }
}
