/** Lowering a probe document to numbered operations, with its static checks. */
module Compiler {
  import opened Wrappers
  import opened Words
  import opened Schema
  import opened HttpRequest
  import Sessions
  import Encodings
  import Meaning
  import Ir

  const MAX_BUFFER: nat := 1024 * 1024
  const MAX_PROBE_BUFFERS: nat := 4 * 1024 * 1024

  /** The local variables of the compile loop. `sizes[i]` bounds what buffer `i` can hold. */
  datatype Unit = Unit(
    buffers: map<string, nat>,
    registers: map<string, nat>,
    sizes: seq<nat>,
    ops: seq<Ir.Op>,
    nextBuf: nat,
    nextReg: nat,
    matches: nat)

  const EMPTY_UNIT: Unit := Unit(map[], map[], [], [], 0, 0, 0)

  function AddBuffer(u: Unit, name: string, size: nat): Option<Unit> {
    if name == "" || name in u.buffers then None
    else Some(u.(buffers := u.buffers[name := u.nextBuf], sizes := u.sizes + [size], nextBuf := u.nextBuf + 1))
  }

  function AddRegister(u: Unit, name: string): Option<Unit> {
    if name == "" || name in u.registers then None
    else Some(u.(registers := u.registers[name := u.nextReg], nextReg := u.nextReg + 1))
  }

  /** As `extract` and `compute` name a register: the empty name is accepted here. */
  function InsertRegister(u: Unit, name: string): Option<Unit> {
    if name in u.registers then None
    else Some(u.(registers := u.registers[name := u.nextReg], nextReg := u.nextReg + 1))
  }

  function Emit(u: Unit, op: Ir.Op): Unit {
    u.(ops := u.ops + [op])
  }

  function BufferIndex(u: Unit, name: string): Option<nat> {
    if Target(name) in u.buffers then Some(u.buffers[Target(name)]) else None
  }

  function RegisterIndex(regs: map<string, nat>, name: string): Option<nat> {
    if Target(name) in regs then Some(regs[Target(name)]) else None
  }

  predicate DynamicBounds(min: nat, max: nat) {
    1 <= min <= max <= MAX_BUFFER
  }

  function SizeOf(u: Unit, i: nat): nat {
    if i < |u.sizes| then u.sizes[i] else 0
  }

  // ----- expressions and conditions

  function CompileExpr(e: Expr, regs: map<string, nat>): Option<Ir.ValueExpr> {
    match e
    case Number(n) => Some(Ir.Literal(n))
    case Reference(name) =>
      var i :- RegisterIndex(regs, name);
      Some(Ir.Register(i))
    case Operation(present) =>
      if |present| != 1 then None
      else
        var a :- CompileExpr(present[0].left, regs);
        var b :- CompileExpr(present[0].right, regs);
        Some(Ir.Apply(present[0].kind, a, b))
  }

  function CompileCondition(lib: Sessions.Library, c: Condition, u: Unit): Option<Ir.BoolExpr>
    decreases c, 1
  {
    if |c.present| != 1 then None else CompileTest(lib, c.present[0], u)
  }

  function CompileTest(lib: Sessions.Library, t: Test, u: Unit): Option<Ir.BoolExpr>
    decreases t, 0
  {
    match t
    case All(conditions) =>
      if conditions == [] then None
      else
        var v :- CompileConditions(lib, conditions, u);
        Some(Ir.All(v))
    case Any(conditions) =>
      if conditions == [] then None
      else
        var v :- CompileConditions(lib, conditions, u);
        Some(Ir.Any(v))
    case Not(condition) =>
      var v :- CompileCondition(lib, condition, u);
      Some(Ir.Not(v))
    case Compare(kind, left, right) =>
      var a :- CompileExpr(left, u.registers);
      var b :- CompileExpr(right, u.registers);
      Some(Ir.Compare(kind, a, b))
    case BytesEq(source, offset, hex) =>
      var src :- BufferIndex(u, source);
      var bytes :- Encodings.ParseHex(hex);
      if bytes == [] || offset + |bytes| > SizeOf(u, src) then None
      else Some(Ir.BytesEq(src, offset, bytes))
    case BytesContains(source, hex) =>
      var src :- BufferIndex(u, source);
      var bytes :- Encodings.ParseHex(hex);
      if bytes == [] then None else Some(Ir.BytesContains(src, bytes))
    case BytesRegex(source, pattern) =>
      var src :- BufferIndex(u, source);
      if |pattern| > 4096 || !lib.regexCompiles(pattern) then None else Some(Ir.BytesRegex(src, pattern))
    case BufferStartsWith(source, prefix) =>
      var src :- BufferIndex(u, source);
      var p :- BufferIndex(u, prefix);
      Some(Ir.BufferStartsWith(src, p))
  }

  function CompileConditions(lib: Sessions.Library, conditions: seq<Condition>, u: Unit): (r: Option<seq<Ir.BoolExpr>>)
    decreases conditions, 0
  {
    if conditions == [] then Some([])
    else
      var first :- CompileCondition(lib, conditions[0], u);
      var rest :- CompileConditions(lib, conditions[1..], u);
      Some([first] + rest)
  }

  // ----- steps

  function SourceIndexes(u: Unit, sources: seq<string>): Option<seq<nat>> {
    if sources == [] then Some([])
    else
      var first :- BufferIndex(u, sources[0]);
      var rest :- SourceIndexes(u, sources[1..]);
      Some([first] + rest)
  }

  function TotalSize(u: Unit, sources: seq<nat>): nat {
    if sources == [] then 0 else SizeOf(u, sources[0]) + TotalSize(u, sources[1..])
  }

  /** The output bound of a transform of a buffer of at most `size` bytes. */
  function TransformBound(k: Ir.TransformKind, size: nat): nat {
    match k
    case AsciiHexDecode => size / 2
    case Base64Decode => size
    case Base64Encode => (size + 2) / 3 * 4
    case Rc4(_) => size
    case GzipDecompress(_, max) => max
    case MsgpackString(_) => size
  }

  predicate TransformAllowed(k: Ir.TransformKind, size: nat) {
    match k
    case GzipDecompress(offset, max) => offset < size && 0 < max <= MAX_BUFFER
    case MsgpackString(key) => 1 <= |key| <= 128
    case _ => true
  }

  function WithBuffer(u: Unit, name: string, size: nat, op: Ir.Op): Option<Unit> {
    var v :- AddBuffer(u, name, size);
    Some(Emit(v, op))
  }

  function WithRegister(u: Unit, name: string, op: Ir.Op): Option<Unit> {
    var v :- InsertRegister(u, name);
    Some(Emit(v, op))
  }

  /** The buffer and the register of a frame. */
  function AddFrame(u: Unit, saveAs: string, maxBytes: nat, lengthAs: string): Option<Unit> {
    var v :- AddBuffer(u, saveAs, maxBytes);
    AddRegister(v, lengthAs)
  }

  /** The two buffers and two registers of an HTTP response. */
  function AddReply(u: Unit, headerAs: string, maxHeader: nat, bodyAs: string, maxBody: nat,
                    statusAs: string, contentLengthAs: string): Option<Unit>
  {
    var v :- AddBuffer(u, headerAs, maxHeader);
    var x :- AddBuffer(v, bodyAs, maxBody);
    var y :- AddRegister(x, statusAs);
    AddRegister(y, contentLengthAs)
  }

  /** Receiving steps: each saves what it hears under new names. */
  function CompileReceive(kind: TransportType, a: Action, u: Unit): Option<Unit> {
    match a
    case RecvExact(bytes, saveAs) =>
      if bytes == 0 || bytes > MAX_BUFFER then None
      else WithBuffer(u, saveAs, bytes, Ir.RecvExact(bytes, u.nextBuf))
    case RecvUpTo(minBytes, maxBytes, saveAs) =>
      if !DynamicBounds(minBytes, maxBytes) then None
      else WithBuffer(u, saveAs, maxBytes, Ir.RecvUpTo(minBytes, maxBytes, u.nextBuf))
    case RecvUntil(delimiterHex, maxBytes, saveAs) =>
      var delimiter :- Encodings.ParseHex(delimiterHex);
      if !DynamicBounds(1, maxBytes) || delimiter == [] || |delimiter| > maxBytes then None
      else WithBuffer(u, saveAs, maxBytes, Ir.RecvUntil(delimiter, maxBytes, u.nextBuf))
    case RecvFrame(number, minBytes, maxBytes, saveAs, lengthAs) =>
      if !DynamicBounds(minBytes, maxBytes) then None
      else
        var v :- AddFrame(u, saveAs, maxBytes, lengthAs);
        Some(Emit(v, Ir.RecvFrame(number, minBytes, maxBytes, u.nextBuf, u.nextReg)))
    case RecvHttp(maxHeader, maxBody, headersOnly, bodyAs, headerAs, statusAs, contentLengthAs) =>
      if !DynamicBounds(1, maxHeader) || maxBody > MAX_BUFFER then None
      else
        var v :- AddReply(u, headerAs, maxHeader, bodyAs, maxBody, statusAs, contentLengthAs);
        Some(Emit(v, Ir.RecvHttp(maxHeader, maxBody, headersOnly,
                                 u.nextBuf, u.nextBuf + 1, u.nextReg, u.nextReg + 1)))
    case PeerCertificate(saveAs) =>
      if kind.Tcp? then None else WithBuffer(u, saveAs, 32, Ir.PeerCertificateSha256(u.nextBuf))
    case _ => None
  }

  /** Steps that build one buffer from literals, numbers or earlier buffers. */
  function CompileBuild(a: Action, u: Unit): Option<Unit> {
    match a
    case Literal(name, text) =>
      if text == [] || |text| > MAX_BUFFER then None
      else WithBuffer(u, name, |text|, Ir.SetLiteral(text, u.nextBuf))
    case Pack(name, value, number, wrap) =>
      var expr :- CompileExpr(value, u.registers);
      if expr.Literal? && !wrap && !number.Holds(expr.value) then None
      else WithBuffer(u, name, number.Size(), Ir.Pack(expr, number, wrap, u.nextBuf))
    case Concat(name, sources) =>
      if sources == [] then None
      else
        var indexes :- SourceIndexes(u, sources);
        var length := TotalSize(u, indexes);
        if length > MAX_BUFFER then None else WithBuffer(u, name, length, Ir.Concat(indexes, u.nextBuf))
    case Transform(source, name, present) =>
      var src :- BufferIndex(u, source);
      if |present| != 1 then None
      else
        var k :- Meaning.KindOf(present[0]);
        var bound := TransformBound(k, SizeOf(u, src));
        if !TransformAllowed(k, SizeOf(u, src)) || !(0 < bound <= MAX_BUFFER) then None
        else WithBuffer(u, name, bound, Ir.Transform(src, u.nextBuf, k))
    case _ => None
  }

  /** Steps that send, extract, compute or decide. */
  function CompileControl(lib: Sessions.Library, a: Action, u: Unit): Option<Unit> {
    match a
    case Send(Some(hex), None) =>
      var data :- Encodings.ParseHex(hex);
      if data == [] then None else Some(Emit(u, Ir.SendLiteral(data)))
    case Send(None, Some(source)) =>
      var src :- BufferIndex(u, source);
      Some(Emit(u, Ir.SendBuffer(src)))
    case Send(_, _) => None
    case SendHttp(verb, path, headers, bodySource) =>
      if !ValidToken(verb) || !ValidPath(path) || !ValidHeaders(headers) then None
      else if bodySource.None? then Some(Emit(u, Ir.SendHttp(verb, path, headers, None)))
      else
        var src :- BufferIndex(u, bodySource.value);
        Some(Emit(u, Ir.SendHttp(verb, path, headers, Some(src))))
    case Reconnect => Some(Emit(u, Ir.Reconnect))
    case RejectIf(condition, status, confidence) =>
      if IsBlank(status) || !IsConfidence(confidence) then None
      else
        var c :- CompileCondition(lib, condition, u);
        Some(Emit(u, Ir.RejectIf(c, confidence, status)))
    case Extract(source, name, extract, offset, length) =>
      var src :- BufferIndex(u, source);
      var op :- CompileExtract(extract, src, offset, length, SizeOf(u, src), u.nextReg);
      WithRegister(u, name, op)
    case Compute(name, expr) =>
      var e :- CompileExpr(expr, u.registers);
      WithRegister(u, name, Ir.Compute(e, u.nextReg))
    case Match(condition, confidence, status) =>
      var c :- CompileCondition(lib, condition, u);
      if confidence.Some? && !IsConfidence(confidence.value) then None
      else Some(Emit(u, Ir.Match(c, confidence, status)).(matches := u.matches + 1))
    case _ => None
  }

  predicate Receives(a: Action) {
    a.RecvExact? || a.RecvUpTo? || a.RecvUntil? || a.RecvFrame? || a.RecvHttp? || a.PeerCertificate?
  }

  predicate Builds(a: Action) {
    a.Literal? || a.Pack? || a.Concat? || a.Transform?
  }

  function CompileAction(lib: Sessions.Library, kind: TransportType, a: Action, u: Unit): Option<Unit> {
    if Receives(a) then CompileReceive(kind, a, u)
    else if Builds(a) then CompileBuild(a, u)
    else CompileControl(lib, a, u)
  }

  function CompileExtract(k: ExtractKind, src: nat, offset: nat, length: Option<nat>, size: nat, dst: nat): Option<Ir.Op> {
    match k
    case ExtractNumber(kind) =>
      if offset + kind.Size() <= size then Some(Ir.Extract(src, offset, kind, dst)) else None
    case BufferLen => if offset != 0 || length.Some? then None else Some(Ir.BufferLen(src, dst))
    case Crc32 =>
      if length.None? || length.value == 0 || offset + length.value > size then None
      else Some(Ir.Crc32(src, offset, length.value, dst))
    case AsciiDecimal =>
      if length.None? || !(1 <= length.value <= 20) || offset + length.value > size then None
      else Some(Ir.AsciiDecimal(src, offset, length.value, dst))
  }

  function CompileStep(lib: Sessions.Library, kind: TransportType, s: Step, u: Unit): Option<Unit> {
    if |s.present| != 1 then None else CompileAction(lib, kind, s.present[0], u)
  }

  function CompileSteps(lib: Sessions.Library, kind: TransportType, steps: seq<Step>, u: Unit): Option<Unit> {
    if steps == [] then Some(u)
    else
      var v :- CompileStep(lib, kind, steps[0], u);
      CompileSteps(lib, kind, steps[1..], v)
  }

  // ----- documents

  function Sum(sizes: seq<nat>): nat {
    if sizes == [] then 0 else sizes[0] + Sum(sizes[1..])
  }

  function CompileField(value: Json, u: Unit): Option<Ir.FieldTemplate> {
    match value
    case JsonOther(_) => Some(Ir.LiteralField(value))
    case JsonString(text) =>
      var hex, plain := Meaning.AfterPrefix(text, "$hex:"), Meaning.AfterPrefix(text, "$text:");
      if hex.Some? then
        var i :- BufferIndex(u, hex.value);
        Some(Ir.BufferHex(i))
      else if plain.Some? then
        var i :- BufferIndex(u, plain.value);
        Some(Ir.BufferText(i))
      else if text == "$rejected" then Some(Ir.RejectedField)
      else if Meaning.AfterPrefix(text, "$").Some? then
        var i :- RegisterIndex(u.registers, text);
        Some(Ir.RegisterField(i))
      else Some(Ir.LiteralField(value))
  }

  function CompileFields(fields: map<string, Json>, u: Unit): Option<map<string, Ir.FieldTemplate>> {
    if exists n :: n in fields && CompileField(fields[n], u).None? then None
    else Some(map n | n in fields :: CompileField(fields[n], u).value)
  }

  /** The STARTTLS prelude is required by that transport and refused by the others. */
  function CompilePrelude(t: TransportSpec): Option<Option<Bytes>> {
    match (t.kind, t.preludeHex)
    case (Starttls, Some(hex)) =>
      var bytes :- Encodings.ParseHex(hex);
      if bytes == [] || |bytes| > 4096 then None else Some(Some(bytes))
    case (Starttls, None) => None
    case (_, Some(_)) => None
    case (_, None) => Some(None)
  }

  /** The checks that need no step to be compiled. */
  predicate HeaderAccepted(doc: ProbeDocument) {
    && doc.dslVersion == 1
    && !IsBlank(doc.name)
    && (doc.transport.kind.Tcp? || doc.transport.insecureTls)
    && 0 !in doc.scopePorts
  }

  predicate ResultAccepted(doc: ProbeDocument) {
    && doc.result.confirmed == "$match"
    && IsConfidence(doc.result.confidence)
    && IsConfidence(doc.result.unmatchedConfidence)
  }

  function Finish(doc: ProbeDocument, prelude: Option<Bytes>, u: Unit): Option<Ir.CompiledProbe> {
    if u.matches != 1 || Sum(u.sizes) > MAX_PROBE_BUFFERS || !ResultAccepted(doc) then None
    else
      var fields :- CompileFields(doc.result.fields, u);
      var r := doc.result;
      Some(Ir.CompiledProbe(doc.name, doc.transport.kind, prelude, u.ops,
        Ir.CompiledResult(r.classification, r.confidence, r.unmatchedConfidence, r.status, r.unmatchedStatus, fields)))
  }

  function Compile(lib: Sessions.Library, doc: ProbeDocument): Option<Ir.CompiledProbe> {
    if !HeaderAccepted(doc) then None
    else
      var prelude :- CompilePrelude(doc.transport);
      var u :- CompileSteps(lib, doc.transport.kind, doc.steps, EMPTY_UNIT);
      Finish(doc, prelude, u)
  }
}
