/**
 * The meaning of a probe as it is written: steps run in order over named buffers and registers.
 * A step that has no meaning, such as one that refers to a name nothing defined, is `Undefined`.
 */
module Meaning {
  import opened Wrappers
  import opened Words
  import opened Transport
  import opened HttpRequest
  import opened Sessions
  import opened Schema
  import Encodings
  import Ir

  datatype Named = Named(bufs: map<string, Bytes>, regs: map<string, u64>, session: Session)

  datatype Outcome =
    | Continue(state: Named)
    | Reject(confidence: real, status: string)
    | Fail(failure: Failure)
    | Undefined

  function Lookup<V>(m: map<string, V>, name: string): Option<V> {
    if Target(name) in m then Some(m[Target(name)]) else None
  }

  function Value(e: Expr, regs: map<string, u64>): Option<u64> {
    match e
    case Number(n) => Some(n)
    case Reference(name) => Lookup(regs, name)
    case Operation(present) =>
      if |present| != 1 then None
      else
        var a :- Value(present[0].left, regs);
        var b :- Value(present[0].right, regs);
        Some(ApplyBinary(present[0].kind, a, b))
  }

  function Truth(lib: Library, c: Condition, env: Named): Option<bool>
    decreases c, 1
  {
    if |c.present| != 1 then None else TestTruth(lib, c.present[0], env)
  }

  function TestTruth(lib: Library, t: Test, env: Named): Option<bool>
    decreases t, 0
  {
    match t
    case All(conditions) =>
      var v :- Truths(lib, conditions, env);
      Some(false !in v)
    case Any(conditions) =>
      var v :- Truths(lib, conditions, env);
      Some(true in v)
    case Not(condition) =>
      var v :- Truth(lib, condition, env);
      Some(!v)
    case Compare(kind, left, right) =>
      var a :- Value(left, env.regs);
      var b :- Value(right, env.regs);
      Some(ApplyCompare(kind, a, b))
    case BytesEq(source, offset, hex) =>
      var s :- Lookup(env.bufs, source);
      var bytes :- Encodings.ParseHex(hex);
      Some(BytesAt(s, offset, bytes))
    case BytesContains(source, hex) =>
      var s :- Lookup(env.bufs, source);
      var bytes :- Encodings.ParseHex(hex);
      Some(Contains(s, bytes))
    case BytesRegex(source, pattern) =>
      var s :- Lookup(env.bufs, source);
      Some(lib.regexMatches(pattern, s))
    case BufferStartsWith(source, prefix) =>
      var s :- Lookup(env.bufs, source);
      var p :- Lookup(env.bufs, prefix);
      Some(BytesAt(s, 0, p))
  }

  function Truths(lib: Library, conditions: seq<Condition>, env: Named): Option<seq<bool>>
    decreases conditions, 0
  {
    if conditions == [] then Some([])
    else
      var first :- Truth(lib, conditions[0], env);
      var rest :- Truths(lib, conditions[1..], env);
      Some([first] + rest)
  }

  function JoinedSources(sources: seq<string>, bufs: map<string, Bytes>): Option<Bytes> {
    if sources == [] then Some([])
    else
      var first :- Lookup(bufs, sources[0]);
      var rest :- JoinedSources(sources[1..], bufs);
      Some(first + rest)
  }

  function KindOf(t: TransformSpec): Option<Ir.TransformKind> {
    match t
    case AsciiHexDecode => Some(Ir.AsciiHexDecode)
    case Base64Decode => Some(Ir.Base64Decode)
    case Base64Encode => Some(Ir.Base64Encode)
    case Rc4(keyBase64) =>
      var key :- Encodings.Base64Decode(keyBase64);
      if 1 <= |key| <= 256 then Some(Ir.Rc4(key)) else None
    case GzipDecompress(offset, maxBytes) => Some(Ir.GzipDecompress(offset, maxBytes))
    case MsgpackString(key) => Some(Ir.MsgpackString(key))
  }

  // ----- storing results under names

  function Bind(env: Named, name: string, r: Result<Bytes, Failure>): Outcome {
    match r
    case Err(f) => Fail(f)
    case Ok(data) => Continue(env.(bufs := env.bufs[name := data]))
  }

  function BindNumber(env: Named, name: string, r: Result<u64, Failure>): Outcome {
    match r
    case Err(f) => Fail(f)
    case Ok(value) => Continue(env.(regs := env.regs[name := value]))
  }

  function BindReceived(env: Named, name: string, r: Result<Taken, Failure>): Outcome {
    match r
    case Err(f) => Fail(f)
    case Ok(taken) => Continue(env.(bufs := env.bufs[name := taken.data], session := Heard(env.session, taken.rest)))
  }

  function InSession(env: Named, r: Result<Session, Failure>): Outcome {
    match r
    case Err(f) => Fail(f)
    case Ok(s) => Continue(env.(session := s))
  }

  function SendRequest(host: Host, env: Named, verb: Bytes, path: Bytes, headers: seq<Header>, body: Bytes): Outcome {
    match BuildRequest(host.ipText, verb, path, headers, body)
    case Err(f) => Fail(f)
    case Ok(request) => InSession(env, SendAll(env.session, request))
  }

  function ExtractValue(lib: Library, kind: ExtractKind, s: Bytes, offset: nat, length: nat): Result<u64, Failure> {
    match kind
    case ExtractNumber(n) => Sessions.ExtractNumber(s, offset, n)
    case Crc32 => ExtractCrc(lib, s, offset, length)
    case BufferLen => Ok(ToU64(|s|))
    case AsciiDecimal => ExtractDecimal(s, offset, length)
  }

  /** The outcome of a step, which is `Undefined` when the step has no meaning. */
  function Act(host: Host, a: Action, env: Named): Outcome {
    var w := env.session.conn.wire;
    match a
    case Send(Some(hex), None) =>
      (match Encodings.ParseHex(hex)
       case None => Undefined
       case Some(data) => InSession(env, SendAll(env.session, data)))
    case Send(None, Some(source)) =>
      (match Lookup(env.bufs, source)
       case None => Undefined
       case Some(data) => InSession(env, SendAll(env.session, data)))
    case Send(_, _) => Undefined
    case Literal(name, text) => Bind(env, name, Ok(text))
    case Pack(name, value, kind, wrap) =>
      (match Value(value, env.regs)
       case None => Undefined
       case Some(v) => Bind(env, name, PackValue(v, kind, wrap)))
    case Concat(name, sources) =>
      (match JoinedSources(sources, env.bufs)
       case None => Undefined
       case Some(data) => Bind(env, name, Ok(data)))
    case RecvExact(bytes, saveAs) => BindReceived(env, saveAs, ReadExact(w, bytes))
    case RecvUpTo(minBytes, maxBytes, saveAs) => BindReceived(env, saveAs, ReadUpTo(w, minBytes, maxBytes))
    case RecvUntil(delimiterHex, maxBytes, saveAs) =>
      (match Encodings.ParseHex(delimiterHex)
       case None => Undefined
       case Some(delimiter) => BindReceived(env, saveAs, ReadUntil(w, delimiter, maxBytes)))
    case RecvFrame(kind, minBytes, maxBytes, saveAs, lengthAs) =>
      (match ReceiveFrame(w, kind, minBytes, maxBytes)
       case Err(f) => Fail(f)
       case Ok(frame) =>
         Continue(Named(env.bufs[saveAs := frame.body], env.regs[lengthAs := frame.length],
                        Heard(env.session, frame.rest))))
    case RecvHttp(maxHeader, maxBody, headersOnly, bodyAs, headerAs, statusAs, contentLengthAs) =>
      (match ReceiveHttp(w, maxHeader, maxBody, headersOnly)
       case Err(f) => Fail(f)
       case Ok(reply) =>
         Continue(Named(env.bufs[headerAs := reply.header][bodyAs := reply.body],
                        env.regs[statusAs := StatusValue(reply.response)]
                        [contentLengthAs := LengthValue(reply.response)],
                        Heard(env.session, reply.rest))))
    case SendHttp(verb, path, headers, None) => SendRequest(host, env, verb, path, headers, [])
    case SendHttp(verb, path, headers, Some(source)) =>
      (match Lookup(env.bufs, source)
       case None => Undefined
       case Some(body) => SendRequest(host, env, verb, path, headers, body))
    case Reconnect => InSession(env, Redial(env.session))
    case PeerCertificate(saveAs) =>
      (match env.session.conn.certificate
       case None => Fail(TlsError)
       case Some(digest) =>
         Continue(env.(bufs := env.bufs[saveAs := digest], session := env.session.(responsive := true))))
    case Transform(source, name, present) =>
      if |present| != 1 then Undefined
      else
        (match (Lookup(env.bufs, source), KindOf(present[0]))
         case (Some(data), Some(kind)) => Bind(env, name, TransformBytes(host.lib, data, kind))
         case _ => Undefined)
    case RejectIf(condition, status, confidence) =>
      (match Truth(host.lib, condition, env)
       case None => Undefined
       case Some(v) => if v then Reject(confidence, status) else Continue(env))
    case Extract(source, name, extract, offset, length) =>
      (match Lookup(env.bufs, source)
       case None => Undefined
       case Some(data) =>
         if (extract.Crc32? || extract.AsciiDecimal?) && length.None? then Undefined
         else BindNumber(env, name, ExtractValue(host.lib, extract, data, offset,
                                                 if length.Some? then length.value else 0)))
    case Compute(name, expr) =>
      (match Value(expr, env.regs)
       case None => Undefined
       case Some(v) => BindNumber(env, name, Ok(v)))
    case Match(condition, confidence, status) =>
      (match Truth(host.lib, condition, env)
       case None => Undefined
       case Some(v) =>
         Continue(env.(session := env.session.(
           matched := v,
           confidence := if v then confidence else None,
           status := if v then status else None))))
  }

  datatype Finish =
    | Completed(env: Named)
    | Rejected(env: Named, confidence: real, status: string)
    | Failed(failure: Failure, sent: seq<Bytes>)
    | Meaningless

  function RunSteps(host: Host, steps: seq<Step>, env: Named): Finish {
    if steps == [] then Completed(env)
    else if |steps[0].present| != 1 then Meaningless
    else
      match Act(host, steps[0].present[0], env)
      case Continue(next) => RunSteps(host, steps[1..], next)
      case Reject(confidence, status) => Rejected(env, confidence, status)
      case Fail(failure) => Failed(failure, env.session.sent)
      case Undefined => Meaningless
  }

  // ----- reported fields

  function AfterPrefix(text: string, prefix: string): Option<string> {
    if |prefix| <= |text| && text[..|prefix|] == prefix then Some(text[|prefix|..]) else None
  }

  /** A reported field; a name that no step has defined yet reports the default of its type. */
  function Field(value: Json, env: Named, rejected: bool): FieldValue {
    match value
    case JsonOther(_) => Fixed(value)
    case JsonString(text) =>
      if AfterPrefix(text, "$hex:").Some? then
        HexValue(OrDefault(Lookup(env.bufs, AfterPrefix(text, "$hex:").value), []))
      else if AfterPrefix(text, "$text:").Some? then
        TextValue(OrDefault(Lookup(env.bufs, AfterPrefix(text, "$text:").value), []))
      else if text == "$rejected" then Flag(rejected)
      else if AfterPrefix(text, "$").Some? then NumberValue(OrDefault(Lookup(env.regs, text), 0))
      else Fixed(value)
  }

  function OrDefault<V>(v: Option<V>, default: V): V {
    if v.Some? then v.value else default
  }

  function VerdictsOf(r: ResultSpec): Verdicts {
    Verdicts(r.classification, r.confidence, r.unmatchedConfidence, r.status, r.unmatchedStatus)
  }

  /** The report of running a document against a network; none if some step has no meaning. */
  function Interpret(host: Host, doc: ProbeDocument, dials: seq<Dial>): Option<Execution> {
    match Opened(dials)
    case Err(f) => Some(FailedExecution(f, []))
    case Ok(session) =>
      var v := VerdictsOf(doc.result);
      var fields := doc.result.fields;
      match RunSteps(host, doc.steps, Named(map[], map[], session))
      case Completed(env) =>
        Some(Report(v, env.session, None, map n | n in fields :: Field(fields[n], env, false)))
      case Rejected(env, confidence, status) =>
        Some(Report(v, env.session, Some((confidence, status)), map n | n in fields :: Field(fields[n], env, true)))
      case Failed(failure, sent) => Some(FailedExecution(failure, sent))
      case Meaningless => None
  }
}
