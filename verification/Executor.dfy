/** The executor of compiled probes, as functions over numbered buffers and registers. */
module Executor {
  import opened Wrappers
  import opened Words
  import opened Transport
  import opened HttpRequest
  import opened Sessions
  import opened Ir

  datatype Machine = Machine(bufs: seq<Bytes>, regs: seq<u64>, session: Session)

  /** `set`: stores at an index, growing the vector with defaults as needed. */
  function Put<T>(v: seq<T>, i: nat, x: T, default: T): (r: seq<T>)
    ensures i < |r| && r[i] == x
  {
    if i < |v| then v[i := x] else v + seq(i - |v|, _ => default) + [x]
  }

  function SetBuf(m: Machine, i: nat, data: Bytes): Machine {
    m.(bufs := Put(m.bufs, i, data, []))
  }

  function SetReg(m: Machine, i: nat, value: u64): Machine {
    m.(regs := Put(m.regs, i, value, 0))
  }

  function Eval(e: ValueExpr, regs: seq<u64>): u64 {
    match e
    case Literal(v) => v
    case Register(i) => if i < |regs| then regs[i] else 0
    case Apply(kind, a, b) => ApplyBinary(kind, Eval(a, regs), Eval(b, regs))
  }

  function EvalBool(lib: Library, e: BoolExpr, regs: seq<u64>, bufs: seq<Bytes>): bool {
    match e
    case All(v) => forall x :: x in v ==> EvalBool(lib, x, regs, bufs)
    case Any(v) => exists x :: x in v && EvalBool(lib, x, regs, bufs)
    case Not(x) => !EvalBool(lib, x, regs, bufs)
    case Compare(kind, a, b) => ApplyCompare(kind, Eval(a, regs), Eval(b, regs))
    case BytesEq(src, offset, bytes) => src < |bufs| && BytesAt(bufs[src], offset, bytes)
    case BytesContains(src, bytes) => src < |bufs| && Contains(bufs[src], bytes)
    case BytesRegex(src, pattern) => src < |bufs| && lib.regexMatches(pattern, bufs[src])
    case BufferStartsWith(src, prefix) =>
      src < |bufs| && prefix < |bufs| && BytesAt(bufs[src], 0, bufs[prefix])
  }

  /** What one operation leads to. */
  datatype Progress<+M> =
    | Continue(machine: M)
    | Reject(confidence: real, status: string)
    | Fail(failure: Failure)

  function Buffer(m: Machine, i: nat, missing: Failure): Result<Bytes, Failure> {
    if i < |m.bufs| then Ok(m.bufs[i]) else Err(missing)
  }

  /** The buffers joined in order; a missing one is an internal error. */
  function Gather(m: Machine, sources: seq<nat>): Result<Bytes, Failure> {
    if sources == [] then Ok([])
    else
      var first :- Buffer(m, sources[0], InternalError);
      var rest :- Gather(m, sources[1..]);
      Ok(first + rest)
  }

  function Joined(m: Machine, sources: seq<nat>): Result<Bytes, Failure> {
    var data :- Gather(m, sources);
    if |data| > MAX_CONCAT then Err(InternalError) else Ok(data)
  }

  function BodyOf(m: Machine, src: Option<nat>): Result<Bytes, Failure> {
    if src.None? then Ok([]) else Buffer(m, src.value, InternalError)
  }

  function ToBuffer(m: Machine, dst: nat, r: Result<Bytes, Failure>): Progress<Machine> {
    match r
    case Err(f) => Fail(f)
    case Ok(data) => Continue(SetBuf(m, dst, data))
  }

  function ToRegister(m: Machine, dst: nat, r: Result<u64, Failure>): Progress<Machine> {
    match r
    case Err(f) => Fail(f)
    case Ok(value) => Continue(SetReg(m, dst, value))
  }

  function ToSession(m: Machine, r: Result<Session, Failure>): Progress<Machine> {
    match r
    case Err(f) => Fail(f)
    case Ok(s) => Continue(m.(session := s))
  }

  function Store(m: Machine, dst: nat, r: Result<Taken, Failure>): Progress<Machine> {
    match r
    case Err(f) => Fail(f)
    case Ok(taken) => Continue(SetBuf(m, dst, taken.data).(session := Heard(m.session, taken.rest)))
  }

  function Then<T>(r: Result<Bytes, Failure>, f: Bytes -> Result<T, Failure>): Result<T, Failure> {
    match r
    case Err(e) => Err(e)
    case Ok(data) => f(data)
  }

  function ExecOp(host: Host, op: Op, m: Machine): Progress<Machine> {
    var w := m.session.conn.wire;
    match op
    case SendLiteral(data) => ToSession(m, SendAll(m.session, data))
    case SendBuffer(src) => ToSession(m, Then(Buffer(m, src, InternalError), data => SendAll(m.session, data)))
    case SetLiteral(data, dst) => Continue(SetBuf(m, dst, data))
    case Pack(expr, kind, wrap, dst) => ToBuffer(m, dst, PackValue(Eval(expr, m.regs), kind, wrap))
    case Concat(sources, dst) => ToBuffer(m, dst, Joined(m, sources))
    case RecvExact(length, dst) => Store(m, dst, ReadExact(w, length))
    case RecvUpTo(min, max, dst) => Store(m, dst, ReadUpTo(w, min, max))
    case RecvUntil(delimiter, max, dst) => Store(m, dst, ReadUntil(w, delimiter, max))
    case RecvFrame(kind, min, max, dst, lengthDst) =>
      (match ReceiveFrame(w, kind, min, max)
       case Err(f) => Fail(f)
       case Ok(frame) =>
         Continue(SetReg(SetBuf(m, dst, frame.body), lengthDst, frame.length)
                  .(session := Heard(m.session, frame.rest))))
    case RecvHttp(maxHeader, maxBody, headersOnly, headerDst, bodyDst, statusDst, contentLengthDst) =>
      (match ReceiveHttp(w, maxHeader, maxBody, headersOnly)
       case Err(f) => Fail(f)
       case Ok(reply) =>
         var stored := SetBuf(SetBuf(m, headerDst, reply.header), bodyDst, reply.body);
         Continue(SetReg(SetReg(stored, statusDst, StatusValue(reply.response)),
                         contentLengthDst, LengthValue(reply.response))
                  .(session := Heard(m.session, reply.rest))))
    case SendHttp(verb, path, headers, bodySrc) =>
      ToSession(m, Then(Then(BodyOf(m, bodySrc), body => BuildRequest(host.ipText, verb, path, headers, body)),
                        request => SendAll(m.session, request)))
    case Reconnect => ToSession(m, Redial(m.session))
    case PeerCertificateSha256(dst) =>
      (match m.session.conn.certificate
       case None => Fail(TlsError)
       case Some(digest) => Continue(SetBuf(m, dst, digest).(session := m.session.(responsive := true))))
    case Transform(src, dst, transform) =>
      ToBuffer(m, dst, Then(Buffer(m, src, InternalError), data => TransformBytes(host.lib, data, transform)))
    case RejectIf(condition, confidence, status) =>
      if EvalBool(host.lib, condition, m.regs, m.bufs) then Reject(confidence, status) else Continue(m)
    case Extract(src, offset, kind, dst) =>
      ToRegister(m, dst, Then(Buffer(m, src, InvalidResponse), data => ExtractNumber(data, offset, kind)))
    case Crc32(src, offset, length, dst) =>
      ToRegister(m, dst, Then(Buffer(m, src, InvalidResponse), data => ExtractCrc(host.lib, data, offset, length)))
    case BufferLen(src, dst) =>
      ToRegister(m, dst, Then(Buffer(m, src, InternalError), data => Ok(ToU64(|data|))))
    case AsciiDecimal(src, offset, length, dst) =>
      ToRegister(m, dst, Then(Buffer(m, src, InvalidResponse), data => ExtractDecimal(data, offset, length)))
    case Compute(expr, dst) => Continue(SetReg(m, dst, Eval(expr, m.regs)))
    case Match(condition, confidence, status) =>
      Continue(m.(session := Judged(m.session, EvalBool(host.lib, condition, m.regs, m.bufs), confidence, status)))
  }

  /** The verdict of a match replaces the whole verdict before it. */
  function Judged(s: Session, matched: bool, confidence: Option<real>, status: Option<string>): Session {
    s.(matched := matched,
       confidence := if matched then confidence else None,
       status := if matched then status else None)
  }

  // ----- whole runs

  datatype Ending<+M> =
    | Completed(machine: M)
    | Rejected(machine: M, confidence: real, status: string)
    | Failed(failure: Failure, sent: seq<Bytes>)

  function RunOps(host: Host, ops: seq<Op>, m: Machine): Ending<Machine> {
    if ops == [] then Completed(m)
    else
      match ExecOp(host, ops[0], m)
      case Continue(next) => RunOps(host, ops[1..], next)
      case Reject(confidence, status) => Rejected(m, confidence, status)
      case Fail(failure) => Failed(failure, m.session.sent)
  }

  /** The stream of the connection in use after an operation, whether it continues or fails. */
  function WireAfter(op: Op, w: Wire): Wire {
    match op
    case RecvExact(length, _) => AfterRead(w, length)
    case RecvUpTo(_, max, _) => AfterRead(w, max)
    case RecvUntil(delimiter, max, _) => AfterUntil(w, delimiter, max)
    case RecvFrame(kind, min, max, _, _) => AfterFrame(w, kind, min, max)
    case RecvHttp(maxHeader, maxBody, headersOnly, _, _, _, _) => AfterHttp(w, maxHeader, maxBody, headersOnly)
    case _ => w
  }

  /** The bytes a run takes over all its connections, to its end or through the operation that fails. */
  function TotalTaken(host: Host, ops: seq<Op>, m: Machine): int {
    if ops == [] then 0
    else
      var w := m.session.conn.wire;
      Lost(w, WireAfter(ops[0], w)) +
      match ExecOp(host, ops[0], m)
      case Continue(next) => TotalTaken(host, ops[1..], next)
      case _ => 0
  }

  function FieldOf(t: FieldTemplate, regs: seq<u64>, bufs: seq<Bytes>, rejected: bool): FieldValue {
    match t
    case RegisterField(i) => NumberValue(if i < |regs| then regs[i] else 0)
    case BufferHex(i) => HexValue(if i < |bufs| then bufs[i] else [])
    case BufferText(i) => TextValue(if i < |bufs| then bufs[i] else [])
    case RejectedField => Flag(rejected)
    case LiteralField(v) => Fixed(v)
  }

  function FieldsOf(fields: map<string, FieldTemplate>, regs: seq<u64>, bufs: seq<Bytes>, rejected: bool): map<string, FieldValue> {
    map n | n in fields :: FieldOf(fields[n], regs, bufs, rejected)
  }

  function VerdictsOf(r: CompiledResult): Verdicts {
    Verdicts(r.classification, r.confidence, r.unmatchedConfidence, r.status, r.unmatchedStatus)
  }

  function Conclude(p: CompiledProbe, e: Ending<Machine>): Execution {
    match e
    case Completed(m) =>
      Report(VerdictsOf(p.result), m.session, None, FieldsOf(p.result.fields, m.regs, m.bufs, false))
    case Rejected(m, confidence, status) =>
      Report(VerdictsOf(p.result), m.session, Some((confidence, status)),
             FieldsOf(p.result.fields, m.regs, m.bufs, true))
    case Failed(failure, sent) => FailedExecution(failure, sent)
  }

  /** `execute`: connects, runs every operation, reports. */
  function Execute(host: Host, p: CompiledProbe, dials: seq<Dial>): Execution {
    match Opened(dials)
    case Err(f) => FailedExecution(f, [])
    case Ok(session) => Conclude(p, RunOps(host, p.ops, Machine([], [], session)))
  }
}
