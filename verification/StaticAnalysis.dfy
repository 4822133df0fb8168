/** What the checks of the compiler guarantee about every run of a compiled probe. */
module StaticAnalysis {
  import opened Wrappers
  import opened Words
  import opened HttpRequest
  import opened Sessions
  import opened Compiler
  import S = Schema
  import Meaning
  import Encodings
  import I = Ir

  /** Every index the compiler handed out names a slot that has a size. */
  ghost predicate Consistent(u: Unit) {
    && u.nextBuf == |u.sizes|
    && (forall n :: n in u.buffers ==> u.buffers[n] < u.nextBuf)
    && (forall n :: n in u.registers ==> u.registers[n] < u.nextReg)
  }

  // ----- definition before use

  predicate ExprScoped(e: I.ValueExpr, regs: nat) {
    match e
    case Literal(_) => true
    case Register(i) => i < regs
    case Apply(_, a, b) => ExprScoped(a, regs) && ExprScoped(b, regs)
  }

  predicate CondScoped(c: I.BoolExpr, bufs: nat, regs: nat) {
    match c
    case All(v) => forall x :: x in v ==> CondScoped(x, bufs, regs)
    case Any(v) => forall x :: x in v ==> CondScoped(x, bufs, regs)
    case Not(x) => CondScoped(x, bufs, regs)
    case Compare(_, a, b) => ExprScoped(a, regs) && ExprScoped(b, regs)
    case BytesEq(src, _, _) => src < bufs
    case BytesContains(src, _) => src < bufs
    case BytesRegex(src, _) => src < bufs
    case BufferStartsWith(src, prefix) => src < bufs && prefix < bufs
  }

  /** The operation reads only slots below these counts, and writes only the slots at them. */
  predicate Scoped(op: I.Op, bufs: nat, regs: nat) {
    match op
    case SendLiteral(_) => true
    case SendBuffer(src) => src < bufs
    case SetLiteral(_, dst) => dst == bufs
    case Pack(expr, _, _, dst) => ExprScoped(expr, regs) && dst == bufs
    case Concat(sources, dst) => (forall s :: s in sources ==> s < bufs) && dst == bufs
    case RecvExact(_, dst) => dst == bufs
    case RecvUpTo(_, _, dst) => dst == bufs
    case RecvUntil(_, _, dst) => dst == bufs
    case RecvFrame(_, _, _, dst, lengthDst) => dst == bufs && lengthDst == regs
    case RecvHttp(_, _, _, headerDst, bodyDst, statusDst, contentLengthDst) =>
      headerDst == bufs && bodyDst == bufs + 1 && statusDst == regs && contentLengthDst == regs + 1
    case SendHttp(_, _, _, bodySrc) => bodySrc.Some? ==> bodySrc.value < bufs
    case Reconnect => true
    case PeerCertificateSha256(dst) => dst == bufs
    case Transform(src, dst, _) => src < bufs && dst == bufs
    case RejectIf(condition, _, _) => CondScoped(condition, bufs, regs)
    case Extract(src, _, _, dst) => src < bufs && dst == regs
    case Crc32(src, _, _, dst) => src < bufs && dst == regs
    case BufferLen(src, dst) => src < bufs && dst == regs
    case AsciiDecimal(src, _, _, dst) => src < bufs && dst == regs
    case Compute(expr, dst) => ExprScoped(expr, regs) && dst == regs
    case Match(condition, _, _) => CondScoped(condition, bufs, regs)
  }

  lemma {:induction false} CompiledExprScoped(e: S.Expr, u: Unit)
    requires Consistent(u) && CompileExpr(e, u.registers).Some?
    ensures ExprScoped(CompileExpr(e, u.registers).value, u.nextReg)
  {
    if e.Operation? {
      CompiledExprScoped(e.present[0].left, u);
      CompiledExprScoped(e.present[0].right, u);
    }
  }

  lemma {:induction false} CompiledConditionScoped(lib: Library, c: S.Condition, u: Unit)
    requires Consistent(u) && CompileCondition(lib, c, u).Some?
    ensures CondScoped(CompileCondition(lib, c, u).value, u.nextBuf, u.nextReg)
    decreases c, 1
  {
    CompiledTestScoped(lib, c.present[0], u);
  }

  lemma {:induction false} CompiledTestScoped(lib: Library, t: S.Test, u: Unit)
    requires Consistent(u) && CompileTest(lib, t, u).Some?
    ensures CondScoped(CompileTest(lib, t, u).value, u.nextBuf, u.nextReg)
    decreases t, 0
  {
    match t
    case All(conditions) => CompiledConditionsScoped(lib, conditions, u);
    case Any(conditions) => CompiledConditionsScoped(lib, conditions, u);
    case Not(condition) => CompiledConditionScoped(lib, condition, u);
    case Compare(_, left, right) =>
      CompiledExprScoped(left, u);
      CompiledExprScoped(right, u);
    case BytesEq(_, _, _) =>
    case BytesContains(_, _) =>
    case BytesRegex(_, _) =>
    case BufferStartsWith(_, _) =>
  }

  lemma {:induction false} CompiledConditionsScoped(lib: Library, cs: seq<S.Condition>, u: Unit)
    requires Consistent(u) && CompileConditions(lib, cs, u).Some?
    ensures forall x :: x in CompileConditions(lib, cs, u).value ==> CondScoped(x, u.nextBuf, u.nextReg)
    decreases cs, 0
  {
    if cs != [] {
      CompiledConditionScoped(lib, cs[0], u);
      CompiledConditionsScoped(lib, cs[1..], u);
    }
  }

  lemma {:induction false} SourcesScoped(u: Unit, sources: seq<string>)
    requires Consistent(u) && SourceIndexes(u, sources).Some?
    ensures forall s :: s in SourceIndexes(u, sources).value ==> s < u.nextBuf
  {
    if sources != [] {
      SourcesScoped(u, sources[1..]);
    }
  }

  /** Names and sizes are only ever added, above the slots in use. */
  ghost predicate Grows(u: Unit, v: Unit) {
    && u.nextBuf <= v.nextBuf && u.nextReg <= v.nextReg
    && |u.sizes| <= |v.sizes| && v.sizes[..|u.sizes|] == u.sizes
    && IndexGrows(u.buffers, v.buffers, u.nextBuf)
    && IndexGrows(u.registers, v.registers, u.nextReg)
  }

  ghost predicate IndexGrows(a: map<string, nat>, b: map<string, nat>, next: nat) {
    a.Keys <= b.Keys && forall n :: n in b ==> if n in a then b[n] == a[n] else b[n] >= next
  }

  lemma GrowsOn(u: Unit, v: Unit, w: Unit)
    requires Grows(u, v) && Grows(v, w)
    ensures Grows(u, w)
  {
    assert w.sizes[..|u.sizes|] == w.sizes[..|v.sizes|][..|u.sizes|];
  }

  lemma AddBufferGrows(u: Unit, name: string, size: nat)
    requires Consistent(u) && AddBuffer(u, name, size).Some?
    ensures var v := AddBuffer(u, name, size).value;
            Consistent(v) && Grows(u, v) && v.ops == u.ops && v.sizes == u.sizes + [size] && v.nextReg == u.nextReg
  {}

  lemma AddRegisterGrows(u: Unit, name: string)
    requires Consistent(u) && InsertRegister(u, name).Some?
    ensures var v := InsertRegister(u, name).value;
            Consistent(v) && Grows(u, v) && v.ops == u.ops && v.nextReg == u.nextReg + 1 && v.sizes == u.sizes
    ensures name != "" ==> AddRegister(u, name) == InsertRegister(u, name)
  {}

  /** `v` is `u` after one operation that reads only what earlier steps defined. */
  ghost predicate Emits(u: Unit, v: Unit, op: I.Op) {
    && Consistent(v) && Grows(u, v)
    && v.ops == u.ops + [op]
    && Scoped(op, u.nextBuf, u.nextReg)
  }

  lemma WithBufferEmits(u: Unit, name: string, size: nat, op: I.Op)
    requires Consistent(u) && WithBuffer(u, name, size, op).Some? && Scoped(op, u.nextBuf, u.nextReg)
    ensures var v := WithBuffer(u, name, size, op).value;
            Emits(u, v, op) && v.sizes == u.sizes + [size] && v.nextReg == u.nextReg
  {
    AddBufferGrows(u, name, size);
    hide AddBuffer, Scoped;
  }

  lemma WithRegisterEmits(u: Unit, name: string, op: I.Op)
    requires Consistent(u) && WithRegister(u, name, op).Some? && Scoped(op, u.nextBuf, u.nextReg)
    ensures var v := WithRegister(u, name, op).value;
            Emits(u, v, op) && v.sizes == u.sizes && v.nextReg == u.nextReg + 1
  {
    AddRegisterGrows(u, name);
    hide InsertRegister, Scoped;
  }

  /** The operation an action was compiled to. */
  function Emitted(u: Unit, v: Unit): I.Op
    requires |v.ops| > |u.ops|
  {
    v.ops[|u.ops|]
  }

  lemma AddFrameGrows(u: Unit, saveAs: string, maxBytes: nat, lengthAs: string)
    requires Consistent(u) && AddFrame(u, saveAs, maxBytes, lengthAs).Some?
    ensures var v := AddFrame(u, saveAs, maxBytes, lengthAs).value;
            Consistent(v) && Grows(u, v) && v.ops == u.ops && v.sizes == u.sizes + [maxBytes] && v.nextReg == u.nextReg + 1
  {
    hide Consistent, Grows, AddBuffer, InsertRegister;
    var v := AddBuffer(u, saveAs, maxBytes).value;
    AddBufferGrows(u, saveAs, maxBytes);
    AddsAsInserts(v, lengthAs);
    GrowsOn(u, v, AddRegister(v, lengthAs).value);
  }

  lemma AddReplyGrows(u: Unit, headerAs: string, maxHeader: nat, bodyAs: string, maxBody: nat,
                      statusAs: string, contentLengthAs: string)
    requires Consistent(u) && AddReply(u, headerAs, maxHeader, bodyAs, maxBody, statusAs, contentLengthAs).Some?
    ensures var v := AddReply(u, headerAs, maxHeader, bodyAs, maxBody, statusAs, contentLengthAs).value;
            Consistent(v) && Grows(u, v) && v.ops == u.ops && v.sizes == u.sizes + [maxHeader, maxBody] &&
            v.nextReg == u.nextReg + 2
  {
    hide Consistent, Grows, AddBuffer, InsertRegister;
    var v := AddBuffer(u, headerAs, maxHeader).value;
    AddBufferGrows(u, headerAs, maxHeader);
    var x := AddBuffer(v, bodyAs, maxBody).value;
    AddBufferGrows(v, bodyAs, maxBody);
    GrowsOn(u, v, x);
    var y := AddRegister(x, statusAs).value;
    AddsAsInserts(x, statusAs);
    GrowsOn(u, x, y);
    AddsAsInserts(y, contentLengthAs);
    GrowsOn(u, y, AddRegister(y, contentLengthAs).value);
  }

  lemma AddsAsInserts(u: Unit, name: string)
    requires Consistent(u) && AddRegister(u, name).Some?
    ensures var v := AddRegister(u, name).value;
            Consistent(v) && Grows(u, v) && v.ops == u.ops && v.nextReg == u.nextReg + 1 && v.sizes == u.sizes
  {
    AddRegisterGrows(u, name);
  }

  lemma EmitKeeps(u: Unit, v: Unit, op: I.Op)
    requires Consistent(v) && Grows(u, v)
    ensures Consistent(Emit(v, op)) && Grows(u, Emit(v, op)) && Emit(v, op).ops == v.ops + [op]
    ensures Consistent(Emit(v, op).(matches := v.matches + 1)) && Grows(u, Emit(v, op).(matches := v.matches + 1))
  {}

  lemma GrowsSelf(u: Unit)
    ensures Grows(u, u)
  {}

  lemma IndexInRange(u: Unit, name: string)
    requires Consistent(u) && BufferIndex(u, name).Some?
    ensures BufferIndex(u, name).value < u.nextBuf == |u.sizes|
  {}

  // ----- the sizes an operation adds, and the limits it respects

  function TotalOf(sources: seq<nat>, sizes: seq<nat>): nat {
    if sources == [] then 0
    else (if sources[0] < |sizes| then sizes[sources[0]] else 0) + TotalOf(sources[1..], sizes)
  }

  /** Static sizes of the buffers this operation defines. */
  function NewSizes(op: I.Op, sizes: seq<nat>): seq<nat> {
    match op
    case SetLiteral(data, _) => [|data|]
    case Pack(_, kind, _, _) => [kind.Size()]
    case Concat(sources, _) => [TotalOf(sources, sizes)]
    case RecvExact(length, _) => [length]
    case RecvUpTo(_, max, _) => [max]
    case RecvUntil(_, max, _) => [max]
    case RecvFrame(_, _, max, _, _) => [max]
    case RecvHttp(maxHeader, maxBody, _, _, _, _, _) => [maxHeader, maxBody]
    case PeerCertificateSha256(_) => [32]
    case Transform(src, _, k) => [TransformBound(k, if src < |sizes| then sizes[src] else 0)]
    case _ => []
  }

  function NewRegs(op: I.Op): nat {
    match op
    case RecvFrame(_, _, _, _, _) => 1
    case RecvHttp(_, _, _, _, _, _, _) => 2
    case Extract(_, _, _, _) => 1
    case Crc32(_, _, _, _) => 1
    case BufferLen(_, _) => 1
    case AsciiDecimal(_, _, _, _) => 1
    case Compute(_, _) => 1
    case _ => 0
  }

  /** A literal to be packed fits, unless it may be truncated. */
  predicate LiteralFits(expr: I.ValueExpr, kind: NumberKind, wrap: bool) {
    expr.Literal? && !wrap ==> kind.Holds(expr.value)
  }

  /** The limits the compiler enforces on this operation, given the static sizes before it. */
  predicate Allowed(op: I.Op, sizes: seq<nat>) {
    match op
    case SetLiteral(data, _) => 1 <= |data| <= MAX_BUFFER
    case Pack(expr, kind, wrap, _) => LiteralFits(expr, kind, wrap)
    case Concat(sources, _) => TotalOf(sources, sizes) <= MAX_BUFFER
    case RecvExact(length, _) => 1 <= length <= MAX_BUFFER
    case RecvUpTo(min, max, _) => DynamicBounds(min, max)
    case RecvUntil(delimiter, max, _) => DynamicBounds(1, max) && 1 <= |delimiter| <= max
    case RecvFrame(_, min, max, _, _) => DynamicBounds(min, max)
    case RecvHttp(maxHeader, maxBody, _, _, _, _, _) => DynamicBounds(1, maxHeader) && maxBody <= MAX_BUFFER
    case SendHttp(verb, path, headers, _) => ValidToken(verb) && ValidPath(path) && ValidHeaders(headers)
    case Transform(src, _, k) =>
      src < |sizes| && TransformAllowed(k, sizes[src]) && 1 <= TransformBound(k, sizes[src]) <= MAX_BUFFER
    case Extract(src, offset, kind, _) => src < |sizes| && offset + kind.Size() <= sizes[src]
    case Crc32(src, offset, length, _) => src < |sizes| && 1 <= length && offset + length <= sizes[src]
    case AsciiDecimal(src, offset, length, _) => src < |sizes| && 1 <= length <= 20 && offset + length <= sizes[src]
    case _ => true
  }

  /** A sequence of operations in which each is scoped and allowed after those before it. */
  predicate Checked(ops: seq<I.Op>, sizes: seq<nat>, regs: nat) {
    ops == [] ||
    (Scoped(ops[0], |sizes|, regs) && Allowed(ops[0], sizes) &&
     Checked(ops[1..], sizes + NewSizes(ops[0], sizes), regs + NewRegs(ops[0])))
  }

  function SizesAfter(ops: seq<I.Op>, sizes: seq<nat>): seq<nat> {
    if ops == [] then sizes else SizesAfter(ops[1..], sizes + NewSizes(ops[0], sizes))
  }

  lemma {:induction false} TotalsAgree(u: Unit, sources: seq<nat>)
    ensures TotalSize(u, sources) == TotalOf(sources, u.sizes)
  {
    if sources != [] {
      TotalsAgree(u, sources[1..]);
    }
  }

  /** `v` is `u` after one checked operation, with the sizes and registers that operation adds. */
  ghost predicate Lowered(u: Unit, v: Unit) {
    && |v.ops| == |u.ops| + 1
    && var op := Emitted(u, v);
       && Emits(u, v, op) && Allowed(op, u.sizes)
       && v.sizes == u.sizes + NewSizes(op, u.sizes) && v.nextReg == u.nextReg + NewRegs(op)
  }

  lemma ReceiveLowered(kind: S.TransportType, a: S.Action, u: Unit, v: Unit)
    requires Consistent(u) && CompileReceive(kind, a, u) == Some(v)
    ensures Lowered(u, v)
  {
    hide TransformBound, TransformAllowed, TotalSize, ValidToken, ValidPath, ValidHeaders, Consistent, Grows,
      WithBuffer, WithRegister, ExprScoped, CondScoped, CompileExpr, CompileTest, NumberKind.Holds, AddFrame, AddReply,
      Encodings.ParseHex;
    match a
    case RecvExact(bytes, saveAs) => WithBufferEmits(u, saveAs, bytes, I.RecvExact(bytes, u.nextBuf));
    case RecvUpTo(min, max, saveAs) => WithBufferEmits(u, saveAs, max, I.RecvUpTo(min, max, u.nextBuf));
    case RecvUntil(hex, max, saveAs) =>
      WithBufferEmits(u, saveAs, max, I.RecvUntil(Encodings.ParseHex(hex).value, max, u.nextBuf));
    case RecvFrame(_, _, maxBytes, saveAs, lengthAs) =>
      AddFrameGrows(u, saveAs, maxBytes, lengthAs);
      EmitKeeps(u, AddFrame(u, saveAs, maxBytes, lengthAs).value, Emitted(u, v));
    case RecvHttp(maxHeader, maxBody, _, bodyAs, headerAs, statusAs, contentLengthAs) =>
      AddReplyGrows(u, headerAs, maxHeader, bodyAs, maxBody, statusAs, contentLengthAs);
      EmitKeeps(u, AddReply(u, headerAs, maxHeader, bodyAs, maxBody, statusAs, contentLengthAs).value, Emitted(u, v));
    case PeerCertificate(saveAs) => WithBufferEmits(u, saveAs, 32, I.PeerCertificateSha256(u.nextBuf));
    case _ =>
  }

  lemma BuildLowered(a: S.Action, u: Unit, v: Unit)
    requires Consistent(u) && CompileBuild(a, u) == Some(v)
    ensures Lowered(u, v)
  {
    hide TransformBound, TransformAllowed, TotalSize, ValidToken, ValidPath, ValidHeaders, Consistent, Grows,
      WithBuffer, WithRegister, ExprScoped, CondScoped, CompileExpr, CompileTest, NumberKind.Holds;
    match a
    case Literal(name, text) => WithBufferEmits(u, name, |text|, I.SetLiteral(text, u.nextBuf));
    case Pack(name, value, number, wrap) =>
      CompiledExprScoped(value, u);
      var expr := CompileExpr(value, u.registers).value;
      WithBufferEmits(u, name, number.Size(), I.Pack(expr, number, wrap, u.nextBuf));
    case Concat(name, sources) =>
      SourcesScoped(u, sources);
      TotalsAgree(u, SourceIndexes(u, sources).value);
      var indexes := SourceIndexes(u, sources).value;
      WithBufferEmits(u, name, TotalSize(u, indexes), I.Concat(indexes, u.nextBuf));
    case Transform(source, name, present) =>
      IndexInRange(u, source);
      var src := BufferIndex(u, source).value;
      var k := Meaning.KindOf(present[0]).value;
      WithBufferEmits(u, name, TransformBound(k, SizeOf(u, src)), I.Transform(src, u.nextBuf, k));
    case _ =>
  }

  lemma ExtractChecked(k: S.ExtractKind, src: nat, offset: nat, length: Option<nat>, sizes: seq<nat>, regs: nat)
    requires src < |sizes| && CompileExtract(k, src, offset, length, sizes[src], regs).Some?
    ensures var op := CompileExtract(k, src, offset, length, sizes[src], regs).value;
            Scoped(op, |sizes|, regs) && Allowed(op, sizes) && NewSizes(op, sizes) == [] && NewRegs(op) == 1
  {}

  lemma SendLowered(lib: Library, a: S.Action, u: Unit, v: Unit)
    requires Consistent(u) && CompileControl(lib, a, u) == Some(v) && (a.Send? || a.SendHttp?)
    ensures Lowered(u, v)
  {
    hide ValidToken, ValidPath, ValidHeaders, Consistent, Grows, Encodings.ParseHex;
    match a
    case Send(Some(hex), None) => EmitKeeps(u, u, Emitted(u, v));
    case Send(None, Some(source)) =>
      IndexInRange(u, source);
      EmitKeeps(u, u, Emitted(u, v));
    case SendHttp(_, _, _, bodySource) =>
      if bodySource.Some? {
        IndexInRange(u, bodySource.value);
      }
      EmitKeeps(u, u, Emitted(u, v));
    case _ =>
  }

  lemma ControlLowered(lib: Library, a: S.Action, u: Unit, v: Unit)
    requires Consistent(u) && CompileControl(lib, a, u) == Some(v)
    ensures Lowered(u, v)
  {
    hide TransformBound, TransformAllowed, TotalSize, ValidToken, ValidPath, ValidHeaders, Consistent, Grows,
      WithBuffer, WithRegister, ExprScoped, CondScoped, CompileExpr, CompileTest, CompileCondition, NumberKind.Holds,
      CompileExtract, Encodings.ParseHex;
    match a
    case Send(_, _) => SendLowered(lib, a, u, v);
    case SendHttp(_, _, _, _) => SendLowered(lib, a, u, v);
    case Reconnect => EmitKeeps(u, u, Emitted(u, v));
    case RejectIf(condition, _, _) =>
      CompiledConditionScoped(lib, condition, u);
      EmitKeeps(u, u, Emitted(u, v));
    case Extract(source, name, extract, offset, length) =>
      IndexInRange(u, source);
      var src := BufferIndex(u, source).value;
      ExtractChecked(extract, src, offset, length, u.sizes, u.nextReg);
      hide Scoped, Allowed, NewSizes, NewRegs;
      WithRegisterEmits(u, name, CompileExtract(extract, src, offset, length, SizeOf(u, src), u.nextReg).value);
    case Compute(name, expr) =>
      CompiledExprScoped(expr, u);
      WithRegisterEmits(u, name, I.Compute(CompileExpr(expr, u.registers).value, u.nextReg));
    case Match(condition, confidence, status) =>
      CompiledConditionScoped(lib, condition, u);
      var c := CompileCondition(lib, condition, u).value;
      EmitKeeps(u, u, I.Match(c, confidence, status));
    case _ =>
  }

  /** Each step becomes one operation, which reads only what earlier steps defined. */
  lemma ActionLowered(lib: Library, kind: S.TransportType, a: S.Action, u: Unit, v: Unit)
    requires Consistent(u) && CompileAction(lib, kind, a, u) == Some(v)
    ensures Lowered(u, v)
  {
    hide CompileReceive, CompileBuild, CompileControl, Lowered;
    if Receives(a) {
      ReceiveLowered(kind, a, u, v);
    } else if Builds(a) {
      BuildLowered(a, u, v);
    } else {
      ControlLowered(lib, a, u, v);
    }
  }
}
