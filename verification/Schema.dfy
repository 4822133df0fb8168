/**
 * The probe language as it is written (`ProbeDocument`).
 *
 * A record of optional operations, of which exactly one must be given, is modelled by the list
 * `present` of the operations that are given. Names are strings; texts whose bytes matter (literals,
 * hexadecimal, HTTP) are bytes.
 */
module Schema {
  import opened Wrappers
  import opened Words
  import opened HttpRequest

  datatype TransportType = Tcp | Tls | Starttls

  datatype TransportSpec = TransportSpec(kind: TransportType, insecureTls: bool, preludeHex: Option<Bytes>)

  datatype BinaryKind = Add | Sub | Xor | And | Or | ShiftLeft | ShiftRight

  datatype Expr =
    | Number(n: u64)
    | Reference(name: string)
    | Operation(present: seq<Binary>)

  datatype Binary = Binary(kind: BinaryKind, left: Expr, right: Expr)

  datatype CompareKind = Eq | Ne | Lt | Gt

  datatype Condition = Condition(present: seq<Test>)

  datatype Test =
    | All(conditions: seq<Condition>)
    | Any(conditions: seq<Condition>)
    | Not(condition: Condition)
    | Compare(kind: CompareKind, left: Expr, right: Expr)
    | BytesEq(source: string, offset: nat, hex: Bytes)
    | BytesContains(source: string, hex: Bytes)
    | BytesRegex(source: string, pattern: Bytes)
    | BufferStartsWith(source: string, prefix: string)

  datatype TransformSpec =
    | AsciiHexDecode
    | Base64Decode
    | Base64Encode
    | Rc4(keyBase64: Bytes)
    | GzipDecompress(offset: nat, maxBytes: nat)
    | MsgpackString(key: Bytes)

  datatype ExtractKind = ExtractNumber(kind: NumberKind) | Crc32 | BufferLen | AsciiDecimal

  datatype Action =
    | Send(sendHex: Option<Bytes>, sendSource: Option<string>)
    | Literal(name: string, text: Bytes)
    | Pack(name: string, value: Expr, kind: NumberKind, wrap: bool)
    | Concat(name: string, sources: seq<string>)
    | RecvExact(bytes: nat, saveAs: string)
    | RecvUpTo(minBytes: nat, maxBytes: nat, saveAs: string)
    | RecvUntil(delimiterHex: Bytes, maxBytes: nat, saveAs: string)
    | RecvFrame(kind: NumberKind, minBytes: nat, maxBytes: nat, saveAs: string, lengthAs: string)
    | RecvHttp(maxHeader: nat, maxBody: nat, headersOnly: bool,
               bodyAs: string, headerAs: string, statusAs: string, contentLengthAs: string)
    | SendHttp(verb: Bytes, path: Bytes, headers: seq<Header>, bodySource: Option<string>)
    | Reconnect
    | PeerCertificate(saveAs: string)
    | Transform(source: string, name: string, present: seq<TransformSpec>)
    | RejectIf(condition: Condition, status: string, confidence: real)
    | Extract(source: string, name: string, extract: ExtractKind, offset: nat, length: Option<nat>)
    | Compute(name: string, expr: Expr)
    | Match(condition: Condition, matchConfidence: Option<real>, matchStatus: Option<string>)

  datatype Step = Step(present: seq<Action>)

  datatype MatchClass = Confirmed | Probable | Observation

  datatype Json = JsonString(text: string) | JsonOther(id: int)

  datatype ResultSpec = ResultSpec(
    classification: MatchClass,
    confirmed: string,
    confidence: real,
    unmatchedConfidence: real,
    status: string,
    unmatchedStatus: string,
    fields: map<string, Json>)

  datatype ProbeDocument = ProbeDocument(
    dslVersion: nat,
    name: string,
    scopePorts: seq<nat>,
    transport: TransportSpec,
    steps: seq<Step>,
    result: ResultSpec)

  predicate IsSpace(c: char) {
    '\t' <= c <= '\r' || c == ' ' || c == '\U{85}' || c == '\U{A0}' || c == '\U{1680}' ||
    '\U{2000}' <= c <= '\U{200A}' || c == '\U{2028}' || c == '\U{2029}' || c == '\U{202F}' ||
    c == '\U{205F}' || c == '\U{3000}'
  }

  /** `text.trim().is_empty()`. */
  predicate IsBlank(text: string) {
    forall i :: 0 <= i < |text| ==> IsSpace(text[i])
  }

  /** `name.trim_start_matches('$')`: how every reference names its target. */
  function Target(name: string): string {
    if name != [] && name[0] == '$' then Target(name[1..]) else name
  }

  /** Whether a confidence is in 0..=1. */
  predicate IsConfidence(c: real) {
    0.0 <= c <= 1.0
  }
}
