/** The compile loop as it runs: maps, sizes and operations that grow step by step. */
module CompileLoop {
  import opened Wrappers
  import opened Words
  import opened Schema
  import opened HttpRequest
  import opened Compiler
  import Sessions
  import Encodings
  import Meaning
  import Ir

  /** `sources.map(buffer)`: the indexes of the named buffers, or none if a name is unknown. */
  method FindSources(u: Unit, sources: seq<string>) returns (r: Option<seq<nat>>)
    ensures r == SourceIndexes(u, sources)
  {
    var indexes: seq<nat> := [];
    assert sources[0..] == sources;
    assert forall rest: seq<nat> :: [] + rest == rest;
    for i := 0 to |sources|
      invariant match SourceIndexes(u, sources[i..])
                case None => SourceIndexes(u, sources) == None
                case Some(rest) => SourceIndexes(u, sources) == Some(indexes + rest)
    {
      assert sources[i..][1..] == sources[i + 1..];
      var index := BufferIndex(u, sources[i]);
      if index.None? {
        return None;
      }
      ghost var rest := SourceIndexes(u, sources[i + 1..]);
      assert rest.Some? ==> indexes + ([index.value] + rest.value) == indexes + [index.value] + rest.value;
      indexes := indexes + [index.value];
    }
    assert indexes + [] == indexes;
    return Some(indexes);
  }

  /** The kind of a transform and the bound of its output, for a source of at most `size` bytes. */
  method ChooseTransform(t: TransformSpec, size: nat) returns (r: Option<(Ir.TransformKind, nat)>)
    ensures var kind := Meaning.KindOf(t);
            r == if kind.Some? && TransformAllowed(kind.value, size)
                 then Some((kind.value, TransformBound(kind.value, size))) else None
  {
    match t {
      case AsciiHexDecode => r := Some((Ir.AsciiHexDecode, size / 2));
      case Base64Decode => r := Some((Ir.Base64Decode, size));
      case Base64Encode => r := Some((Ir.Base64Encode, (size + 2) / 3 * 4));
      case Rc4(keyBase64) =>
        var key := Encodings.Base64Decode(keyBase64);
        if key.None? || |key.value| == 0 || |key.value| > 256 {
          return None;
        }
        r := Some((Ir.Rc4(key.value), size));
      case GzipDecompress(offset, maxBytes) =>
        if offset >= size || maxBytes == 0 || maxBytes > MAX_BUFFER {
          return None;
        }
        r := Some((Ir.GzipDecompress(offset, maxBytes), maxBytes));
      case MsgpackString(key) =>
        if key == [] || |key| > 128 {
          return None;
        }
        r := Some((Ir.MsgpackString(key), size));
    }
  }

  /** One result field: the longest prefixes are tried first. */
  method LowerField(value: Json, u: Unit) returns (r: Option<Ir.FieldTemplate>)
    ensures r == CompileField(value, u)
  {
    if value.JsonOther? {
      return Some(Ir.LiteralField(value));
    }
    var hex, plain := Meaning.AfterPrefix(value.text, "$hex:"), Meaning.AfterPrefix(value.text, "$text:");
    if hex.Some? {
      var i := BufferIndex(u, hex.value);
      return if i.Some? then Some(Ir.BufferHex(i.value)) else None;
    }
    if plain.Some? {
      var i := BufferIndex(u, plain.value);
      return if i.Some? then Some(Ir.BufferText(i.value)) else None;
    }
    if value.text == "$rejected" {
      return Some(Ir.RejectedField);
    }
    if Meaning.AfterPrefix(value.text, "$").Some? {
      var i := RegisterIndex(u.registers, value.text);
      return if i.Some? then Some(Ir.RegisterField(i.value)) else None;
    }
    return Some(Ir.LiteralField(value));
  }

  /** The fields one by one, in any order. */
  method LowerFields(fields: map<string, Json>, u: Unit) returns (r: Option<map<string, Ir.FieldTemplate>>)
    ensures r == CompileFields(fields, u)
  {
    hide CompileField;
    var left := fields.Keys;
    var done: map<string, Ir.FieldTemplate> := map[];
    while left != {}
      invariant left <= fields.Keys && done.Keys == fields.Keys - left
      invariant forall n :: n in done ==> CompileField(fields[n], u) == Some(done[n])
      decreases left
    {
      var name :| name in left;
      var field := LowerField(fields[name], u);
      if field.None? {
        return None;
      }
      done := done[name := field.value];
      left := left - {name};
    }
    assert done == map n | n in fields :: CompileField(fields[n], u).value;
    return Some(done);
  }

  method AddUp(u: Unit, sources: seq<nat>) returns (total: nat)
    ensures total == TotalSize(u, sources)
  {
    total := 0;
    assert sources[0..] == sources;
    for i := 0 to |sources|
      invariant TotalSize(u, sources) == total + TotalSize(u, sources[i..])
    {
      assert sources[i..][1..] == sources[i + 1..];
      total := total + SizeOf(u, sources[i]);
    }
  }

  method Budget(sizes: seq<nat>) returns (total: nat)
    ensures total == Sum(sizes)
  {
    total := 0;
    assert sizes[0..] == sizes;
    for i := 0 to |sizes|
      invariant Sum(sizes) == total + Sum(sizes[i..])
    {
      assert sizes[i..][1..] == sizes[i + 1..];
      total := total + sizes[i];
    }
  }

  /** What a step did: it was refused, or the state is now `r.value`. */
  ghost predicate Becomes(ok: bool, now: Unit, r: Option<Unit>) {
    ok == r.Some? && (ok ==> now == r.value)
  }

  class Builder {
    var buffers: map<string, nat>
    var registers: map<string, nat>
    var sizes: seq<nat>
    var ops: seq<Ir.Op>
    var nextBuf: nat
    var nextReg: nat
    var matches: nat

    constructor ()
      ensures View() == EMPTY_UNIT
    {
      buffers, registers, sizes, ops := map[], map[], [], [];
      nextBuf, nextReg, matches := 0, 0, 0;
    }

    function View(): Unit
      reads this
    {
      Unit(buffers, registers, sizes, ops, nextBuf, nextReg, matches)
    }

    /** `add_buffer`. */
    method NameBuffer(name: string, size: nat) returns (ok: bool)
      modifies this
      ensures Becomes(ok, View(), AddBuffer(old(View()), name, size))
    {
      if name == "" || name in buffers {
        return false;
      }
      buffers := buffers[name := nextBuf];
      sizes := sizes + [size];
      nextBuf := nextBuf + 1;
      return true;
    }

    /** `add_register`. */
    method NameRegister(name: string) returns (ok: bool)
      modifies this
      ensures Becomes(ok, View(), AddRegister(old(View()), name))
    {
      if name == "" || name in registers {
        return false;
      }
      registers := registers[name := nextReg];
      nextReg := nextReg + 1;
      return true;
    }

    method Push(op: Ir.Op)
      modifies this
      ensures View() == Emit(old(View()), op)
    {
      ops := ops + [op];
    }

    /** Names a buffer and pushes the operation that writes it. */
    method Define(name: string, size: nat, op: Ir.Op) returns (ok: bool)
      modifies this
      ensures Becomes(ok, View(), WithBuffer(old(View()), name, size, op))
    {
      ok := NameBuffer(name, size);
      if ok {
        Push(op);
      }
    }

    method Bind(name: string, op: Ir.Op) returns (ok: bool)
      modifies this
      ensures Becomes(ok, View(), WithRegister(old(View()), name, op))
    {
      if name in registers {
        return false;
      }
      registers := registers[name := nextReg];
      nextReg := nextReg + 1;
      Push(op);
      return true;
    }

    method Frame(kind: TransportType, a: Action) returns (ok: bool)
      requires a.RecvFrame?
      modifies this
      ensures Becomes(ok, View(), CompileReceive(kind, a, old(View())))
    {
      if !DynamicBounds(a.minBytes, a.maxBytes) {
        return false;
      }
      var dst, lengthDst := nextBuf, nextReg;
      ok := NameBuffer(a.saveAs, a.maxBytes);
      if !ok {
        return;
      }
      ok := NameRegister(a.lengthAs);
      if ok {
        Push(Ir.RecvFrame(a.kind, a.minBytes, a.maxBytes, dst, lengthDst));
      }
    }

    /** The two buffers and two registers of a response. */
    method NameReply(a: Action) returns (ok: bool)
      requires a.RecvHttp?
      modifies this
      ensures Becomes(ok, View(), AddReply(old(View()), a.headerAs, a.maxHeader, a.bodyAs, a.maxBody,
                                           a.statusAs, a.contentLengthAs))
    {
      hide AddBuffer, AddRegister;
      ok := NameBuffer(a.headerAs, a.maxHeader);
      if !ok {
        return;
      }
      ok := NameBuffer(a.bodyAs, a.maxBody);
      if !ok {
        return;
      }
      ok := NameRegister(a.statusAs);
      if !ok {
        return;
      }
      ok := NameRegister(a.contentLengthAs);
    }

    method Reply(kind: TransportType, a: Action) returns (ok: bool)
      requires a.RecvHttp?
      modifies this
      ensures Becomes(ok, View(), CompileReceive(kind, a, old(View())))
    {
      hide AddReply;
      if !DynamicBounds(1, a.maxHeader) || a.maxBody > MAX_BUFFER {
        return false;
      }
      var header, status := nextBuf, nextReg;
      ok := NameReply(a);
      if ok {
        Push(Ir.RecvHttp(a.maxHeader, a.maxBody, a.headersOnly, header, header + 1, status, status + 1));
      }
    }

    method Receive(kind: TransportType, a: Action) returns (ok: bool)
      requires Receives(a)
      modifies this
      ensures Becomes(ok, View(), CompileReceive(kind, a, old(View())))
    {
      hide WithBuffer;
      match a {
        case RecvExact(bytes, saveAs) =>
          if bytes == 0 || bytes > MAX_BUFFER {
            return false;
          }
          ok := Define(saveAs, bytes, Ir.RecvExact(bytes, nextBuf));
        case RecvUpTo(minBytes, maxBytes, saveAs) =>
          if !DynamicBounds(minBytes, maxBytes) {
            return false;
          }
          ok := Define(saveAs, maxBytes, Ir.RecvUpTo(minBytes, maxBytes, nextBuf));
        case RecvUntil(delimiterHex, maxBytes, saveAs) =>
          var delimiter := Encodings.ParseHex(delimiterHex);
          if !DynamicBounds(1, maxBytes) || delimiter.None? || delimiter.value == [] || |delimiter.value| > maxBytes {
            return false;
          }
          ok := Define(saveAs, maxBytes, Ir.RecvUntil(delimiter.value, maxBytes, nextBuf));
        case RecvFrame(_, _, _, _, _) => ok := Frame(kind, a);
        case RecvHttp(_, _, _, _, _, _, _) => ok := Reply(kind, a);
        case PeerCertificate(saveAs) =>
          if kind.Tcp? {
            return false;
          }
          ok := Define(saveAs, 32, Ir.PeerCertificateSha256(nextBuf));
      }
    }

    method Concatenate(a: Action) returns (ok: bool)
      requires a.Concat?
      modifies this
      ensures Becomes(ok, View(), CompileBuild(a, old(View())))
    {
      hide WithBuffer, SourceIndexes, TotalSize;
      if a.sources == [] {
        return false;
      }
      var indexes := FindSources(View(), a.sources);
      if indexes.None? {
        return false;
      }
      var length := AddUp(View(), indexes.value);
      if length > MAX_BUFFER {
        return false;
      }
      ok := Define(a.name, length, Ir.Concat(indexes.value, nextBuf));
    }

    method Change(a: Action) returns (ok: bool)
      requires a.Transform?
      modifies this
      ensures Becomes(ok, View(), CompileBuild(a, old(View())))
    {
      hide WithBuffer, TransformBound, TransformAllowed, Meaning.KindOf;
      var src := BufferIndex(View(), a.source);
      if src.None? || |a.present| != 1 {
        return false;
      }
      var chosen := ChooseTransform(a.present[0], SizeOf(View(), src.value));
      if chosen.None? {
        return false;
      }
      var (kind, bound) := chosen.value;
      if bound == 0 || bound > MAX_BUFFER {
        return false;
      }
      ok := Define(a.name, bound, Ir.Transform(src.value, nextBuf, kind));
    }

    method Build(a: Action) returns (ok: bool)
      requires Builds(a)
      modifies this
      ensures Becomes(ok, View(), CompileBuild(a, old(View())))
    {
      hide WithBuffer, CompileExpr, NumberKind.Holds, NumberKind.Size;
      match a {
        case Literal(name, text) =>
          if text == [] || |text| > MAX_BUFFER {
            return false;
          }
          ok := Define(name, |text|, Ir.SetLiteral(text, nextBuf));
        case Pack(name, value, number, wrap) =>
          var expr := CompileExpr(value, registers);
          if expr.None? || (expr.value.Literal? && !wrap && !number.Holds(expr.value.value)) {
            return false;
          }
          ok := Define(name, number.Size(), Ir.Pack(expr.value, number, wrap, nextBuf));
        case Concat(_, _) => ok := Concatenate(a);
        case Transform(_, _, _) => ok := Change(a);
      }
    }

    method Send(lib: Sessions.Library, a: Action) returns (ok: bool)
      requires a.Send? || a.SendHttp?
      modifies this
      ensures Becomes(ok, View(), CompileControl(lib, a, old(View())))
    {
      hide ValidToken, ValidPath, ValidHeaders, Encodings.ParseHex;
      if a.SendHttp? {
        if !ValidToken(a.verb) || !ValidPath(a.path) || !ValidHeaders(a.headers) {
          return false;
        }
        var body: Option<nat> := None;
        if a.bodySource.Some? {
          body := BufferIndex(View(), a.bodySource.value);
          if body.None? {
            return false;
          }
        }
        Push(Ir.SendHttp(a.verb, a.path, a.headers, body));
        return true;
      }
      if a.sendHex.Some? == a.sendSource.Some? {
        return false;
      }
      if a.sendHex.Some? {
        var data := Encodings.ParseHex(a.sendHex.value);
        if data.None? || data.value == [] {
          return false;
        }
        Push(Ir.SendLiteral(data.value));
      } else {
        var src := BufferIndex(View(), a.sendSource.value);
        if src.None? {
          return false;
        }
        Push(Ir.SendBuffer(src.value));
      }
      return true;
    }

    method Control(lib: Sessions.Library, a: Action) returns (ok: bool)
      requires !Receives(a) && !Builds(a)
      modifies this
      ensures Becomes(ok, View(), CompileControl(lib, a, old(View())))
    {
      hide WithRegister, CompileExpr, CompileCondition, CompileExtract, IsBlank, IsConfidence;
      match a {
        case Send(_, _) => ok := Send(lib, a);
        case SendHttp(_, _, _, _) => ok := Send(lib, a);
        case Reconnect =>
          Push(Ir.Reconnect);
          ok := true;
        case RejectIf(condition, status, confidence) =>
          var c := CompileCondition(lib, condition, View());
          if IsBlank(status) || !IsConfidence(confidence) || c.None? {
            return false;
          }
          Push(Ir.RejectIf(c.value, confidence, status));
          ok := true;
        case Extract(source, name, extract, offset, length) =>
          var src := BufferIndex(View(), source);
          if src.None? {
            return false;
          }
          var op := CompileExtract(extract, src.value, offset, length, SizeOf(View(), src.value), nextReg);
          if op.None? {
            return false;
          }
          ok := Bind(name, op.value);
        case Compute(name, expr) =>
          var e := CompileExpr(expr, registers);
          if e.None? {
            return false;
          }
          ok := Bind(name, Ir.Compute(e.value, nextReg));
        case Match(condition, confidence, status) =>
          var c := CompileCondition(lib, condition, View());
          if c.None? || (confidence.Some? && !IsConfidence(confidence.value)) {
            return false;
          }
          Push(Ir.Match(c.value, confidence, status));
          matches := matches + 1;
          ok := true;
      }
    }

    method Take(lib: Sessions.Library, kind: TransportType, s: Schema.Step) returns (ok: bool)
      modifies this
      ensures Becomes(ok, View(), CompileStep(lib, kind, s, old(View())))
    {
      hide CompileReceive, CompileBuild, CompileControl;
      if |s.present| != 1 {
        return false;
      }
      var a := s.present[0];
      if Receives(a) {
        ok := Receive(kind, a);
      } else if Builds(a) {
        ok := Build(a);
      } else {
        ok := Control(lib, a);
      }
    }
  }

  /** The whole compiler: its checks, the loop over the steps, and the checks on what it built. */
  method CompileDocument(lib: Sessions.Library, doc: ProbeDocument) returns (r: Option<Ir.CompiledProbe>)
    ensures r == Compile(lib, doc)
  {
    hide CompileStep, CompileFields, Sum, HeaderAccepted, ResultAccepted;
    if !HeaderAccepted(doc) {
      return None;
    }
    var prelude := CompilePrelude(doc.transport);
    if prelude.None? {
      return None;
    }
    var builder := new Builder();
    assert doc.steps[0..] == doc.steps;
    for i := 0 to |doc.steps|
      invariant fresh(builder)
      invariant CompileSteps(lib, doc.transport.kind, doc.steps, EMPTY_UNIT) ==
                CompileSteps(lib, doc.transport.kind, doc.steps[i..], builder.View())
    {
      assert doc.steps[i..][1..] == doc.steps[i + 1..];
      var ok := builder.Take(lib, doc.transport.kind, doc.steps[i]);
      if !ok {
        return None;
      }
    }
    if builder.matches != 1 {
      return None;
    }
    var budget := Budget(builder.sizes);
    if budget > MAX_PROBE_BUFFERS || !ResultAccepted(doc) {
      return None;
    }
    var fields := LowerFields(doc.result.fields, builder.View());
    if fields.None? {
      return None;
    }
    var result := doc.result;
    return Some(Ir.CompiledProbe(doc.name, doc.transport.kind, prelude.value, builder.ops,
      Ir.CompiledResult(result.classification, result.confidence, result.unmatchedConfidence, result.status,
                        result.unmatchedStatus, fields.value)));
  }
}
