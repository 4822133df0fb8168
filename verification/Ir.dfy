/** The compiled probe: operations over numbered buffers and registers. */
module Ir {
  import opened Wrappers
  import opened Words
  import opened HttpRequest
  import Schema

  datatype ValueExpr =
    | Literal(value: u64)
    | Register(index: nat)
    | Apply(kind: Schema.BinaryKind, left: ValueExpr, right: ValueExpr)

  datatype BoolExpr =
    | All(conditions: seq<BoolExpr>)
    | Any(conditions: seq<BoolExpr>)
    | Not(condition: BoolExpr)
    | Compare(kind: Schema.CompareKind, left: ValueExpr, right: ValueExpr)
    | BytesEq(src: nat, offset: nat, bytes: Bytes)
    | BytesContains(src: nat, bytes: Bytes)
    | BytesRegex(src: nat, pattern: Bytes)
    | BufferStartsWith(src: nat, prefix: nat)

  type Rc4Key = k: Bytes | 1 <= |k| <= 256 witness [0]

  datatype TransformKind =
    | AsciiHexDecode
    | Base64Decode
    | Base64Encode
    | Rc4(key: Rc4Key)
    | GzipDecompress(offset: nat, max: nat)
    | MsgpackString(wanted: Bytes)

  datatype Op =
    | SendLiteral(data: Bytes)
    | SendBuffer(src: nat)
    | SetLiteral(data: Bytes, dst: nat)
    | Pack(expr: ValueExpr, kind: NumberKind, wrap: bool, dst: nat)
    | Concat(sources: seq<nat>, dst: nat)
    | RecvExact(length: nat, dst: nat)
    | RecvUpTo(min: nat, max: nat, dst: nat)
    | RecvUntil(delimiter: Bytes, max: nat, dst: nat)
    | RecvFrame(kind: NumberKind, min: nat, max: nat, dst: nat, lengthDst: nat)
    | RecvHttp(maxHeader: nat, maxBody: nat, headersOnly: bool,
               headerDst: nat, bodyDst: nat, statusDst: nat, contentLengthDst: nat)
    | SendHttp(verb: Bytes, path: Bytes, headers: seq<Header>, bodySrc: Option<nat>)
    | Reconnect
    | PeerCertificateSha256(dst: nat)
    | Transform(src: nat, dst: nat, transform: TransformKind)
    | RejectIf(condition: BoolExpr, confidence: real, status: string)
    | Extract(src: nat, offset: nat, kind: NumberKind, dst: nat)
    | Crc32(src: nat, offset: nat, length: nat, dst: nat)
    | BufferLen(src: nat, dst: nat)
    | AsciiDecimal(src: nat, offset: nat, length: nat, dst: nat)
    | Compute(expr: ValueExpr, dst: nat)
    | Match(condition: BoolExpr, matchConfidence: Option<real>, matchStatus: Option<string>)

  datatype FieldTemplate =
    | RegisterField(index: nat)
    | BufferHex(index: nat)
    | BufferText(index: nat)
    | RejectedField
    | LiteralField(value: Schema.Json)

  datatype CompiledResult = CompiledResult(
    classification: Schema.MatchClass,
    confidence: real,
    unmatchedConfidence: real,
    status: string,
    unmatchedStatus: string,
    fields: map<string, FieldTemplate>)

  datatype CompiledProbe = CompiledProbe(
    name: string,
    transport: Schema.TransportType,
    prelude: Option<Bytes>,
    ops: seq<Op>,
    result: CompiledResult)
}
