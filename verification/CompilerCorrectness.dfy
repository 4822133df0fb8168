/** The compiled operations mean what the written steps mean. */
module CompilerCorrectness {
  import opened Wrappers
  import opened Words
  import opened Transport
  import opened HttpRequest
  import opened Sessions
  import opened Compiler
  import opened StaticAnalysis
  import opened Soundness
  import Encodings
  import S = Schema
  import M = Meaning
  import I = Ir
  import X = Executor

  /** The named state and the numbered state hold the same values where the compiler put them. */
  ghost predicate Related(u: Unit, env: M.Named, m: X.Machine) {
    && env.session == m.session
    && u.nextBuf == |u.sizes| == |m.bufs|
    && u.nextReg == |m.regs|
    && SameValues(u.buffers, env.bufs, m.bufs)
    && SameValues(u.registers, env.regs, m.regs)
  }

  ghost predicate SameValues<V>(index: map<string, nat>, named: map<string, V>, slots: seq<V>) {
    && index.Keys == named.Keys
    && forall n :: n in index ==> index[n] < |slots| && slots[index[n]] == named[n]
  }

  lemma NewValue<V>(index: map<string, nat>, named: map<string, V>, slots: seq<V>, name: string, v: V, default: V)
    requires SameValues(index, named, slots)
    ensures SameValues(index[name := |slots|], named[name := v], slots + [v])
    ensures X.Put(slots, |slots|, v, default) == slots + [v]
  {}

  /** The two sides of one step agree, up to where the compiler stores things. */
  ghost predicate Agree(o: M.Outcome, p: X.Progress<X.Machine>, u: Unit) {
    match p
    case Continue(m) => o.Continue? && Related(u, o.state, m)
    case Reject(confidence, status) => o == M.Reject(confidence, status)
    case Fail(failure) => o == M.Fail(failure)
  }

  // ----- expressions

  lemma {:induction false} ExprAgrees(e: S.Expr, index: map<string, nat>, named: map<string, u64>, regs: seq<u64>)
    requires SameValues(index, named, regs) && CompileExpr(e, index).Some?
    ensures M.Value(e, named) == Some(X.Eval(CompileExpr(e, index).value, regs))
  {
    hide ApplyBinary;
    if e.Operation? {
      ExprAgrees(e.present[0].left, index, named, regs);
      ExprAgrees(e.present[0].right, index, named, regs);
    }
  }

  lemma {:induction false} ConditionAgrees(lib: Library, c: S.Condition, u: Unit, env: M.Named, m: X.Machine)
    requires Related(u, env, m) && CompileCondition(lib, c, u).Some?
    ensures M.Truth(lib, c, env) == Some(X.EvalBool(lib, CompileCondition(lib, c, u).value, m.regs, m.bufs))
    decreases c, 1
  {
    TestAgrees(lib, c.present[0], u, env, m);
  }

  lemma {:induction false} TestAgrees(lib: Library, t: S.Test, u: Unit, env: M.Named, m: X.Machine)
    requires Related(u, env, m) && CompileTest(lib, t, u).Some?
    ensures M.TestTruth(lib, t, env) == Some(X.EvalBool(lib, CompileTest(lib, t, u).value, m.regs, m.bufs))
    decreases t, 0
  {
    hide ApplyCompare, Contains, BytesAt;
    match t
    case All(conditions) => ConditionsAgree(lib, conditions, u, env, m);
    case Any(conditions) => ConditionsAgree(lib, conditions, u, env, m);
    case Not(condition) => ConditionAgrees(lib, condition, u, env, m);
    case Compare(_, left, right) =>
      ExprAgrees(left, u.registers, env.regs, m.regs);
      ExprAgrees(right, u.registers, env.regs, m.regs);
    case BytesEq(_, _, _) =>
    case BytesContains(_, _) =>
    case BytesRegex(_, _) =>
    case BufferStartsWith(_, _) =>
  }

  lemma {:induction false} ConditionsAgree(lib: Library, cs: seq<S.Condition>, u: Unit, env: M.Named, m: X.Machine)
    requires Related(u, env, m) && CompileConditions(lib, cs, u).Some?
    ensures var v := CompileConditions(lib, cs, u).value;
            var r := M.Truths(lib, cs, env);
            r.Some? && |r.value| == |v| == |cs| &&
            forall i :: 0 <= i < |v| ==> r.value[i] == X.EvalBool(lib, v[i], m.regs, m.bufs)
    decreases cs, 0
  {
    if cs != [] {
      ConditionAgrees(lib, cs[0], u, env, m);
      ConditionsAgree(lib, cs[1..], u, env, m);
    }
  }

  lemma {:induction false} SourcesAgree(u: Unit, env: M.Named, m: X.Machine, sources: seq<string>)
    requires Related(u, env, m) && SourceIndexes(u, sources).Some?
    ensures M.JoinedSources(sources, env.bufs).Some?
    ensures X.Gather(m, SourceIndexes(u, sources).value) == Ok(M.JoinedSources(sources, env.bufs).value)
  {
    if sources != [] {
      SourcesAgree(u, env, m, sources[1..]);
      var rest := SourceIndexes(u, sources[1..]).value;
      assert SourceIndexes(u, sources).value[1..] == rest;
    }
  }

  // ----- storing a result under a name and in a slot

  lemma BufferAgrees(u: Unit, env: M.Named, m: X.Machine, name: string, size: nat, data: Bytes)
    requires Related(u, env, m) && AddBuffer(u, name, size).Some?
    ensures Related(AddBuffer(u, name, size).value, env.(bufs := env.bufs[name := data]), X.SetBuf(m, u.nextBuf, data))
  {
    NewValue(u.buffers, env.bufs, m.bufs, name, data, []);
  }

  lemma RegisterAgrees(u: Unit, env: M.Named, m: X.Machine, name: string, value: u64)
    requires Related(u, env, m) && InsertRegister(u, name).Some?
    ensures Related(InsertRegister(u, name).value, env.(regs := env.regs[name := value]), X.SetReg(m, u.nextReg, value))
    ensures name != "" ==> AddRegister(u, name) == InsertRegister(u, name)
  {
    NewValue(u.registers, env.regs, m.regs, name, value, 0);
  }

  lemma SessionAgrees(u: Unit, env: M.Named, m: X.Machine, s: Session)
    requires Related(u, env, m)
    ensures Related(u, env.(session := s), m.(session := s))
  {}

  lemma EmitAgrees(u: Unit, env: M.Named, m: X.Machine, op: I.Op, matches: nat)
    requires Related(u, env, m)
    ensures Related(Emit(u, op), env, m) && Related(Emit(u, op).(matches := matches), env, m)
  {}

  lemma LookupAgrees(u: Unit, env: M.Named, m: X.Machine, name: string)
    requires Related(u, env, m) && BufferIndex(u, name).Some?
    ensures var i := BufferIndex(u, name).value;
            i < |m.bufs| && M.Lookup(env.bufs, name) == Some(m.bufs[i])
  {}

  /** A new buffer holding `r`, or its failure. */
  lemma BindAgrees(u: Unit, env: M.Named, m: X.Machine, name: string, size: nat, op: I.Op, r: Result<Bytes, Failure>)
    requires Related(u, env, m) && WithBuffer(u, name, size, op).Some?
    ensures Agree(M.Bind(env, name, r), X.ToBuffer(m, u.nextBuf, r), WithBuffer(u, name, size, op).value)
  {
    hide Related, AddBuffer, X.SetBuf;
    if r.Ok? {
      BufferAgrees(u, env, m, name, size, r.value);
      EmitAgrees(AddBuffer(u, name, size).value, env.(bufs := env.bufs[name := r.value]),
                 X.SetBuf(m, u.nextBuf, r.value), op, 0);
    }
  }

  lemma BindNumberAgrees(u: Unit, env: M.Named, m: X.Machine, name: string, op: I.Op, r: Result<u64, Failure>)
    requires Related(u, env, m) && WithRegister(u, name, op).Some?
    ensures Agree(M.BindNumber(env, name, r), X.ToRegister(m, u.nextReg, r), WithRegister(u, name, op).value)
  {
    hide Related, InsertRegister, X.SetReg;
    if r.Ok? {
      RegisterAgrees(u, env, m, name, r.value);
      EmitAgrees(InsertRegister(u, name).value, env.(regs := env.regs[name := r.value]),
                 X.SetReg(m, u.nextReg, r.value), op, 0);
    }
  }

  lemma ReceivedAgrees(u: Unit, env: M.Named, m: X.Machine, name: string, size: nat, op: I.Op, r: Result<Taken, Failure>)
    requires Related(u, env, m) && WithBuffer(u, name, size, op).Some?
    ensures Agree(M.BindReceived(env, name, r), X.Store(m, u.nextBuf, r), WithBuffer(u, name, size, op).value)
  {
    assert env.session == m.session;
    hide Related, AddBuffer, X.SetBuf;
    if r.Ok? {
      BufferAgrees(u, env, m, name, size, r.value.data);
      var v := AddBuffer(u, name, size).value;
      var env1, m1 := env.(bufs := env.bufs[name := r.value.data]), X.SetBuf(m, u.nextBuf, r.value.data);
      SessionAgrees(v, env1, m1, Heard(m.session, r.value.rest));
      EmitAgrees(v, env1.(session := Heard(m.session, r.value.rest)), m1.(session := Heard(m.session, r.value.rest)), op, 0);
    }
  }

  lemma InSessionAgrees(u: Unit, env: M.Named, m: X.Machine, op: I.Op, r: Result<Session, Failure>)
    requires Related(u, env, m)
    ensures Agree(M.InSession(env, r), X.ToSession(m, r), Emit(u, op))
  {
    hide Related;
    if r.Ok? {
      SessionAgrees(u, env, m, r.value);
      EmitAgrees(u, env.(session := r.value), m.(session := r.value), op, 0);
    }
  }

  lemma FailureAgrees(env: M.Named, m: X.Machine, v: Unit)
    ensures forall f :: Agree(M.Fail(f), X.Fail(f), v) && X.ToSession(m, Err(f)) == X.Fail(f)
  {}

  // ----- steps

  lemma FrameAgrees(host: Host, a: S.Action, u: Unit, v: Unit, env: M.Named, m: X.Machine)
    requires Related(u, env, m) && a.RecvFrame? && CompileReceive(S.Tcp, a, u) == Some(v)
    ensures Agree(M.Act(host, a, env), X.ExecOp(host, I.RecvFrame(a.kind, a.minBytes, a.maxBytes, u.nextBuf, u.nextReg), m), v)
  {
    assert env.session == m.session;
    hide Related, AddBuffer, InsertRegister, ReceiveFrame, X.SetBuf, X.SetReg;
    var r := ReceiveFrame(m.session.conn.wire, a.kind, a.minBytes, a.maxBytes);
    if r.Ok? {
      var s := Heard(m.session, r.value.rest);
      BufferAgrees(u, env, m, a.saveAs, a.maxBytes, r.value.body);
      var u1 := AddBuffer(u, a.saveAs, a.maxBytes).value;
      var env1, m1 := env.(bufs := env.bufs[a.saveAs := r.value.body]), X.SetBuf(m, u.nextBuf, r.value.body);
      RegisterAgrees(u1, env1, m1, a.lengthAs, r.value.length);
      var u2 := AddRegister(u1, a.lengthAs).value;
      var env2, m2 := env1.(regs := env1.regs[a.lengthAs := r.value.length]), X.SetReg(m1, u1.nextReg, r.value.length);
      SessionAgrees(u2, env2, m2, s);
      EmitAgrees(u2, env2.(session := s), m2.(session := s),
                 I.RecvFrame(a.kind, a.minBytes, a.maxBytes, u.nextBuf, u.nextReg), 0);
      assert u1.nextReg == u.nextReg by { NextAfterBuffer(u, a.saveAs, a.maxBytes); }
    }
  }

  lemma NextAfterBuffer(u: Unit, name: string, size: nat)
    requires AddBuffer(u, name, size).Some?
    ensures AddBuffer(u, name, size).value.nextReg == u.nextReg
    ensures AddBuffer(u, name, size).value.nextBuf == u.nextBuf + 1
  {}

  lemma NextAfterRegister(u: Unit, name: string)
    requires InsertRegister(u, name).Some?
    ensures InsertRegister(u, name).value.nextBuf == u.nextBuf
    ensures InsertRegister(u, name).value.nextReg == u.nextReg + 1
  {}

  lemma TwoBuffersAgree(u: Unit, env: M.Named, m: X.Machine, n1: string, s1: nat, d1: Bytes, n2: string, s2: nat, d2: Bytes)
    requires Related(u, env, m) && AddBuffer(u, n1, s1).Some? && AddBuffer(AddBuffer(u, n1, s1).value, n2, s2).Some?
    ensures var v := AddBuffer(AddBuffer(u, n1, s1).value, n2, s2).value;
            && Related(v, env.(bufs := env.bufs[n1 := d1][n2 := d2]), X.SetBuf(X.SetBuf(m, u.nextBuf, d1), u.nextBuf + 1, d2))
            && v.nextReg == u.nextReg
  {
    BufferAgrees(u, env, m, n1, s1, d1);
    NextAfterBuffer(u, n1, s1);
    var v := AddBuffer(u, n1, s1).value;
    BufferAgrees(v, env.(bufs := env.bufs[n1 := d1]), X.SetBuf(m, u.nextBuf, d1), n2, s2, d2);
    NextAfterBuffer(v, n2, s2);
    hide Related, AddBuffer, X.SetBuf;
  }

  lemma TwoRegistersAgree(u: Unit, env: M.Named, m: X.Machine, n1: string, v1: u64, n2: string, v2: u64)
    requires Related(u, env, m) && AddRegister(u, n1).Some? && AddRegister(AddRegister(u, n1).value, n2).Some?
    ensures var v := AddRegister(AddRegister(u, n1).value, n2).value;
            Related(v, env.(regs := env.regs[n1 := v1][n2 := v2]), X.SetReg(X.SetReg(m, u.nextReg, v1), u.nextReg + 1, v2))
  {
    RegisterAgrees(u, env, m, n1, v1);
    NextAfterRegister(u, n1);
    var v := AddRegister(u, n1).value;
    RegisterAgrees(v, env.(regs := env.regs[n1 := v1]), X.SetReg(m, u.nextReg, v1), n2, v2);
    hide Related, InsertRegister, X.SetReg;
  }

  /** The state a received response leaves on either side. */
  function NamedReply(env: M.Named, a: S.Action, r: HttpReply): M.Named
    requires a.RecvHttp?
  {
    M.Named(env.bufs[a.headerAs := r.header][a.bodyAs := r.body],
            env.regs[a.statusAs := StatusValue(r.response)][a.contentLengthAs := LengthValue(r.response)],
            Heard(env.session, r.rest))
  }

  function StoredReply(m: X.Machine, buf: nat, reg: nat, r: HttpReply): X.Machine {
    X.SetReg(X.SetReg(X.SetBuf(X.SetBuf(m, buf, r.header), buf + 1, r.body), reg, StatusValue(r.response)),
             reg + 1, LengthValue(r.response))
    .(session := Heard(m.session, r.rest))
  }

  lemma SameSession(u: Unit, env: M.Named, m: X.Machine)
    requires Related(u, env, m)
    ensures env.session == m.session
  {}

  lemma ReplyAgrees(a: S.Action, u: Unit, v: Unit, env: M.Named, m: X.Machine, r: HttpReply)
    requires Related(u, env, m) && a.RecvHttp?
    requires AddReply(u, a.headerAs, a.maxHeader, a.bodyAs, a.maxBody, a.statusAs, a.contentLengthAs) == Some(v)
    ensures Related(v, NamedReply(env, a, r), StoredReply(m, u.nextBuf, u.nextReg, r))
  {
    hide Related, AddBuffer, AddRegister, StatusValue, LengthValue, X.SetBuf, X.SetReg;
    SameSession(u, env, m);
    TwoBuffersAgree(u, env, m, a.headerAs, a.maxHeader, r.header, a.bodyAs, a.maxBody, r.body);
    var u2 := AddBuffer(AddBuffer(u, a.headerAs, a.maxHeader).value, a.bodyAs, a.maxBody).value;
    var env2 := env.(bufs := env.bufs[a.headerAs := r.header][a.bodyAs := r.body]);
    var m2 := X.SetBuf(X.SetBuf(m, u.nextBuf, r.header), u.nextBuf + 1, r.body);
    var status, length := StatusValue(r.response), LengthValue(r.response);
    TwoRegistersAgree(u2, env2, m2, a.statusAs, status, a.contentLengthAs, length);
    SessionAgrees(v, env2.(regs := env2.regs[a.statusAs := status][a.contentLengthAs := length]),
                  X.SetReg(X.SetReg(m2, u.nextReg, status), u.nextReg + 1, length), Heard(m.session, r.rest));
  }

  /** What the step and the operation do with a received response. */
  lemma HttpRuns(host: Host, a: S.Action, u: Unit, v: Unit, env: M.Named, m: X.Machine)
    requires a.RecvHttp? && env.session == m.session && CompileReceive(S.Tcp, a, u) == Some(v)
    ensures var op := I.RecvHttp(a.maxHeader, a.maxBody, a.headersOnly,
                                 u.nextBuf, u.nextBuf + 1, u.nextReg, u.nextReg + 1);
            var u1 := AddReply(u, a.headerAs, a.maxHeader, a.bodyAs, a.maxBody, a.statusAs, a.contentLengthAs);
            u1.Some? && v == Emit(u1.value, op) &&
            match ReceiveHttp(m.session.conn.wire, a.maxHeader, a.maxBody, a.headersOnly)
            case Err(f) => M.Act(host, a, env) == M.Fail(f) && X.ExecOp(host, op, m) == X.Fail(f)
            case Ok(r) => M.Act(host, a, env) == M.Continue(NamedReply(env, a, r)) &&
                          X.ExecOp(host, op, m) == X.Continue(StoredReply(m, u.nextBuf, u.nextReg, r))
  {
    hide AddReply, ReceiveHttp, StatusValue, LengthValue, X.SetBuf, X.SetReg, Emit;
  }

  lemma HttpAgrees(host: Host, a: S.Action, u: Unit, v: Unit, env: M.Named, m: X.Machine)
    requires Related(u, env, m) && a.RecvHttp? && CompileReceive(S.Tcp, a, u) == Some(v)
    ensures Agree(M.Act(host, a, env),
                  X.ExecOp(host, I.RecvHttp(a.maxHeader, a.maxBody, a.headersOnly,
                                            u.nextBuf, u.nextBuf + 1, u.nextReg, u.nextReg + 1), m), v)
  {
    hide Related, AddReply, ReceiveHttp, StatusValue, LengthValue, X.SetBuf, X.SetReg, Encodings.ParseHex, Emit;
    SameSession(u, env, m);
    HttpRuns(host, a, u, v, env, m);
    hide M.Act, X.ExecOp, CompileReceive;
    var r := ReceiveHttp(m.session.conn.wire, a.maxHeader, a.maxBody, a.headersOnly);
    if r.Ok? {
      var u1 := AddReply(u, a.headerAs, a.maxHeader, a.bodyAs, a.maxBody, a.statusAs, a.contentLengthAs).value;
      ReplyAgrees(a, u, u1, env, m, r.value);
      EmitAgrees(u1, NamedReply(env, a, r.value), StoredReply(m, u.nextBuf, u.nextReg, r.value),
                 I.RecvHttp(a.maxHeader, a.maxBody, a.headersOnly,
                            u.nextBuf, u.nextBuf + 1, u.nextReg, u.nextReg + 1), 0);
    }
  }

  lemma EmittedIs(u: Unit, name: string, size: nat, op: I.Op)
    ensures WithBuffer(u, name, size, op).Some? ==> Emitted(u, WithBuffer(u, name, size, op).value) == op
    ensures WithRegister(u, name, op).Some? ==> Emitted(u, WithRegister(u, name, op).value) == op
    ensures Emitted(u, Emit(u, op)) == op
  {}

  lemma FrameEmitted(u: Unit, a: S.Action)
    requires a.RecvFrame? && CompileReceive(S.Tcp, a, u).Some?
    ensures Emitted(u, CompileReceive(S.Tcp, a, u).value) ==
            I.RecvFrame(a.kind, a.minBytes, a.maxBytes, u.nextBuf, u.nextReg)
  {}

  lemma HttpEmitted(u: Unit, a: S.Action)
    requires a.RecvHttp? && CompileReceive(S.Tcp, a, u).Some?
    ensures Emitted(u, CompileReceive(S.Tcp, a, u).value) ==
            I.RecvHttp(a.maxHeader, a.maxBody, a.headersOnly, u.nextBuf, u.nextBuf + 1, u.nextReg, u.nextReg + 1)
  {}

  lemma CertificateAgrees(host: Host, a: S.Action, u: Unit, v: Unit, env: M.Named, m: X.Machine)
    requires Related(u, env, m) && a.PeerCertificate?
    requires WithBuffer(u, a.saveAs, 32, I.PeerCertificateSha256(u.nextBuf)) == Some(v)
    ensures Agree(M.Act(host, a, env), X.ExecOp(host, I.PeerCertificateSha256(u.nextBuf), m), v)
  {
    hide Related, AddBuffer, X.SetBuf;
    SameSession(u, env, m);
    if m.session.conn.certificate.Some? {
      var data: Bytes := m.session.conn.certificate.value;
      var s := m.session.(responsive := true);
      BufferAgrees(u, env, m, a.saveAs, 32, data);
      var u1 := AddBuffer(u, a.saveAs, 32).value;
      var env1, m1 := env.(bufs := env.bufs[a.saveAs := data]), X.SetBuf(m, u.nextBuf, data);
      SessionAgrees(u1, env1, m1, s);
      EmitAgrees(u1, env1.(session := s), m1.(session := s), I.PeerCertificateSha256(u.nextBuf), 0);
    }
  }

  lemma ReadAgrees(host: Host, kind: S.TransportType, a: S.Action, u: Unit, v: Unit, env: M.Named, m: X.Machine)
    requires Related(u, env, m) && CompileReceive(kind, a, u) == Some(v) && (a.RecvExact? || a.RecvUpTo? || a.RecvUntil?)
    ensures |v.ops| == |u.ops| + 1 ==> Agree(M.Act(host, a, env), X.ExecOp(host, Emitted(u, v), m), v)
  {
    hide Related, Agree, WithBuffer, ReadExact, ReadUpTo, ReadUntil, X.Store, M.BindReceived, Encodings.ParseHex;
    SameSession(u, env, m);
    var w := m.session.conn.wire;
    match a
    case RecvExact(bytes, saveAs) =>
      EmittedIs(u, saveAs, bytes, I.RecvExact(bytes, u.nextBuf));
      ReceivedAgrees(u, env, m, saveAs, bytes, I.RecvExact(bytes, u.nextBuf), ReadExact(w, bytes));
    case RecvUpTo(min, max, saveAs) =>
      EmittedIs(u, saveAs, max, I.RecvUpTo(min, max, u.nextBuf));
      ReceivedAgrees(u, env, m, saveAs, max, I.RecvUpTo(min, max, u.nextBuf), ReadUpTo(w, min, max));
    case RecvUntil(hex, max, saveAs) =>
      var delimiter := Encodings.ParseHex(hex).value;
      EmittedIs(u, saveAs, max, I.RecvUntil(delimiter, max, u.nextBuf));
      ReceivedAgrees(u, env, m, saveAs, max, I.RecvUntil(delimiter, max, u.nextBuf), ReadUntil(w, delimiter, max));
  }

  lemma ReceiveAgrees(host: Host, kind: S.TransportType, a: S.Action, u: Unit, v: Unit, env: M.Named, m: X.Machine)
    requires Related(u, env, m) && CompileReceive(kind, a, u) == Some(v)
    ensures |v.ops| == |u.ops| + 1 ==> Agree(M.Act(host, a, env), X.ExecOp(host, Emitted(u, v), m), v)
  {
    hide Related, Agree, WithBuffer, AddFrame, AddReply, Encodings.ParseHex, X.ExecOp, M.Act;
    match a
    case RecvFrame(_, _, _, _, _) =>
      FrameEmitted(u, a);
      FrameAgrees(host, a, u, v, env, m);
    case RecvHttp(_, _, _, _, _, _, _) =>
      HttpEmitted(u, a);
      HttpAgrees(host, a, u, v, env, m);
    case PeerCertificate(saveAs) =>
      EmittedIs(u, saveAs, 32, I.PeerCertificateSha256(u.nextBuf));
      CertificateAgrees(host, a, u, v, env, m);
    case RecvExact(_, _) => ReadAgrees(host, kind, a, u, v, env, m);
    case RecvUpTo(_, _, _) => ReadAgrees(host, kind, a, u, v, env, m);
    case RecvUntil(_, _, _) => ReadAgrees(host, kind, a, u, v, env, m);
  }

  lemma PackAgrees(host: Host, a: S.Action, u: Unit, v: Unit, env: M.Named, m: X.Machine)
    requires Related(u, env, m) && a.Pack? && CompileBuild(a, u) == Some(v)
    ensures |v.ops| == |u.ops| + 1 ==> Agree(M.Act(host, a, env), X.ExecOp(host, Emitted(u, v), m), v)
  {
    ExprAgrees(a.value, u.registers, env.regs, m.regs);
    hide Related, WithBuffer, PackValue, NumberKind.Holds, NumberKind.Size, CompileExpr, X.Eval, M.Value,
      X.ToBuffer, M.Bind, Agree;
    var expr := CompileExpr(a.value, u.registers).value;
    var op := I.Pack(expr, a.kind, a.wrap, u.nextBuf);
    EmittedIs(u, a.name, a.kind.Size(), op);
    BindAgrees(u, env, m, a.name, a.kind.Size(), op, PackValue(X.Eval(expr, m.regs), a.kind, a.wrap));
  }

  /** The size analysis makes the executor's own limit on a concatenation unreachable. */
  lemma SourcesFit(a: S.Action, u: Unit, env: M.Named, m: X.Machine)
    requires Related(u, env, m) && Fits(u.sizes, u.nextReg, m) && Consistent(u)
    requires a.Concat? && CompileBuild(a, u).Some?
    ensures var indexes := SourceIndexes(u, a.sources).value;
            X.Gather(m, indexes).Ok? && |X.Gather(m, indexes).value| <= MAX_CONCAT &&
            M.JoinedSources(a.sources, env.bufs) == Some(X.Gather(m, indexes).value)
  {
    hide Related, Fits, WithBuffer, X.Gather, M.JoinedSources, TotalOf, TotalSize, SourceIndexes;
    var indexes := SourceIndexes(u, a.sources).value;
    SourcesAgree(u, env, m, a.sources);
    SourcesScoped(u, a.sources);
    TotalsAgree(u, indexes);
    assert |u.sizes| == u.nextBuf;
    hide Consistent;
    GatherBounds(m, indexes, u.sizes, u.nextReg);
  }

  lemma ConcatAgrees(host: Host, a: S.Action, u: Unit, v: Unit, env: M.Named, m: X.Machine)
    requires Related(u, env, m) && Fits(u.sizes, u.nextReg, m) && Consistent(u)
    requires a.Concat? && CompileBuild(a, u) == Some(v)
    ensures |v.ops| == |u.ops| + 1 ==> Agree(M.Act(host, a, env), X.ExecOp(host, Emitted(u, v), m), v)
  {
    hide Related, WithBuffer, X.Gather, M.JoinedSources, SourceIndexes, TotalSize, X.ToBuffer, M.Bind,
      Agree, Fits, Consistent, Emitted, Encodings.ParseHex;
    SourcesFit(a, u, env, m);
    var indexes := SourceIndexes(u, a.sources).value;
    var op := I.Concat(indexes, u.nextBuf);
    EmittedIs(u, a.name, TotalSize(u, indexes), op);
    BindAgrees(u, env, m, a.name, TotalSize(u, indexes), op, X.Gather(m, indexes));
  }

  lemma TransformAgrees(host: Host, a: S.Action, u: Unit, v: Unit, env: M.Named, m: X.Machine)
    requires Related(u, env, m) && a.Transform? && CompileBuild(a, u) == Some(v)
    ensures |v.ops| == |u.ops| + 1 ==> Agree(M.Act(host, a, env), X.ExecOp(host, Emitted(u, v), m), v)
  {
    hide Related, WithBuffer, TransformBytes, TransformBound, TransformAllowed, BufferIndex, M.Lookup, M.KindOf,
      X.ToBuffer, M.Bind, Agree;
    LookupAgrees(u, env, m, a.source);
    var src := BufferIndex(u, a.source).value;
    var k := M.KindOf(a.present[0]).value;
    var op := I.Transform(src, u.nextBuf, k);
    EmittedIs(u, a.name, TransformBound(k, SizeOf(u, src)), op);
    BindAgrees(u, env, m, a.name, TransformBound(k, SizeOf(u, src)), op, TransformBytes(host.lib, m.bufs[src], k));
  }

  lemma BuildAgrees(host: Host, a: S.Action, u: Unit, v: Unit, env: M.Named, m: X.Machine)
    requires Related(u, env, m) && Fits(u.sizes, u.nextReg, m) && Consistent(u) && CompileBuild(a, u) == Some(v)
    ensures |v.ops| == |u.ops| + 1 ==> Agree(M.Act(host, a, env), X.ExecOp(host, Emitted(u, v), m), v)
  {
    match a
    case Literal(name, text) =>
      hide Related, WithBuffer, X.SetBuf, Agree, Fits, Consistent;
      EmittedIs(u, name, |text|, I.SetLiteral(text, u.nextBuf));
      BindAgrees(u, env, m, name, |text|, I.SetLiteral(text, u.nextBuf), Ok(text));
    case Pack(_, _, _, _) =>
      PackAgrees(host, a, u, v, env, m);
      hide *;
    case Concat(_, _) =>
      ConcatAgrees(host, a, u, v, env, m);
      hide *;
    case Transform(_, _, _) =>
      TransformAgrees(host, a, u, v, env, m);
      hide *;
  }

  lemma SendRequestAgrees(host: Host, a: S.Action, u: Unit, v: Unit, env: M.Named, m: X.Machine)
    requires Related(u, env, m) && a.SendHttp? && CompileControl(host.lib, a, u) == Some(v)
    ensures |v.ops| == |u.ops| + 1 ==> Agree(M.Act(host, a, env), X.ExecOp(host, Emitted(u, v), m), v)
  {
    hide Related, BufferIndex, M.Lookup, BuildRequest, SendAll, ValidToken, ValidPath, ValidHeaders, Emitted,
      M.InSession, X.ToSession, Agree;
    SameSession(u, env, m);
    if a.bodySource.Some? {
      LookupAgrees(u, env, m, a.bodySource.value);
    }
    var src := if a.bodySource.Some? then Some(BufferIndex(u, a.bodySource.value).value) else None;
    var body := if src.Some? then m.bufs[src.value] else [];
    var op := I.SendHttp(a.verb, a.path, a.headers, src);
    EmittedIs(u, "", 0, op);
    var request := BuildRequest(host.ipText, a.verb, a.path, a.headers, body);
    FailureAgrees(env, m, v);
    if request.Ok? {
      InSessionAgrees(u, env, m, op, SendAll(m.session, request.value));
    }
  }

  lemma ExtractRuns(host: Host, k: S.ExtractKind, src: nat, offset: nat, length: Option<nat>, size: nat, dst: nat, m: X.Machine)
    requires src < |m.bufs| && CompileExtract(k, src, offset, length, size, dst).Some?
    ensures X.ExecOp(host, CompileExtract(k, src, offset, length, size, dst).value, m) ==
            X.ToRegister(m, dst, M.ExtractValue(host.lib, k, m.bufs[src], offset,
                                                if length.Some? then length.value else 0))
    ensures k.Crc32? || k.AsciiDecimal? ==> length.Some?
  {
    hide Sessions.ExtractNumber, ExtractCrc, ExtractDecimal, ToU64, X.ToRegister;
  }

  lemma ExtractAgrees(host: Host, a: S.Action, u: Unit, v: Unit, env: M.Named, m: X.Machine)
    requires Related(u, env, m) && a.Extract? && CompileControl(host.lib, a, u) == Some(v)
    ensures |v.ops| == |u.ops| + 1 ==> Agree(M.Act(host, a, env), X.ExecOp(host, Emitted(u, v), m), v)
  {
    LookupAgrees(u, env, m, a.source);
    hide Related, BufferIndex, M.Lookup, WithRegister, X.ToRegister, M.BindNumber, Agree, CompileExtract, M.ExtractValue;
    var src := BufferIndex(u, a.source).value;
    var op := CompileExtract(a.extract, src, a.offset, a.length, SizeOf(u, src), u.nextReg).value;
    EmittedIs(u, a.name, 0, op);
    ExtractRuns(host, a.extract, src, a.offset, a.length, SizeOf(u, src), u.nextReg, m);
    hide X.ExecOp;
    BindNumberAgrees(u, env, m, a.name, op,
                     M.ExtractValue(host.lib, a.extract, m.bufs[src], a.offset,
                                    if a.length.Some? then a.length.value else 0));
  }

  lemma RejectAgrees(host: Host, a: S.Action, u: Unit, v: Unit, env: M.Named, m: X.Machine)
    requires Related(u, env, m) && a.RejectIf? && CompileControl(host.lib, a, u) == Some(v)
    ensures |v.ops| == |u.ops| + 1 ==> Agree(M.Act(host, a, env), X.ExecOp(host, Emitted(u, v), m), v)
  {
    hide Related, CompileCondition, M.Truth, X.EvalBool;
    ConditionAgrees(host.lib, a.condition, u, env, m);
    var c := CompileCondition(host.lib, a.condition, u).value;
    EmitAgrees(u, env, m, I.RejectIf(c, a.confidence, a.status), 0);
  }

  lemma MatchAgrees(host: Host, a: S.Action, u: Unit, v: Unit, env: M.Named, m: X.Machine)
    requires Related(u, env, m) && a.Match? && CompileControl(host.lib, a, u) == Some(v)
    ensures |v.ops| == |u.ops| + 1 ==> Agree(M.Act(host, a, env), X.ExecOp(host, Emitted(u, v), m), v)
  {
    hide Related, CompileCondition, M.Truth, X.EvalBool;
    SameSession(u, env, m);
    ConditionAgrees(host.lib, a.condition, u, env, m);
    var c := CompileCondition(host.lib, a.condition, u).value;
    var s := X.Judged(m.session, X.EvalBool(host.lib, c, m.regs, m.bufs), a.matchConfidence, a.matchStatus);
    SessionAgrees(u, env, m, s);
    EmitAgrees(u, env.(session := s), m.(session := s), I.Match(c, a.matchConfidence, a.matchStatus), u.matches + 1);
  }

  lemma SendAgrees(host: Host, a: S.Action, u: Unit, v: Unit, env: M.Named, m: X.Machine)
    requires Related(u, env, m) && (a.Send? || a.Reconnect?) && CompileControl(host.lib, a, u) == Some(v)
    ensures |v.ops| == |u.ops| + 1 ==> Agree(M.Act(host, a, env), X.ExecOp(host, Emitted(u, v), m), v)
  {
    hide Related, BufferIndex, M.Lookup, SendAll, Redial, M.InSession, X.ToSession, Agree, Emitted, Encodings.ParseHex;
    SameSession(u, env, m);
    if a.Send? && a.sendSource.Some? {
      LookupAgrees(u, env, m, a.sendSource.value);
    }
    match a
    case Send(Some(hex), None) =>
      var data := Encodings.ParseHex(hex).value;
      EmittedIs(u, "", 0, I.SendLiteral(data));
      InSessionAgrees(u, env, m, I.SendLiteral(data), SendAll(m.session, data));
    case Send(None, Some(source)) =>
      var src := BufferIndex(u, source).value;
      EmittedIs(u, "", 0, I.SendBuffer(src));
      InSessionAgrees(u, env, m, I.SendBuffer(src), SendAll(m.session, m.bufs[src]));
    case Reconnect =>
      EmittedIs(u, "", 0, I.Reconnect);
      InSessionAgrees(u, env, m, I.Reconnect, Redial(m.session));
  }

  lemma ComputeAgrees(host: Host, a: S.Action, u: Unit, v: Unit, env: M.Named, m: X.Machine)
    requires Related(u, env, m) && a.Compute? && CompileControl(host.lib, a, u) == Some(v)
    ensures |v.ops| == |u.ops| + 1 ==> Agree(M.Act(host, a, env), X.ExecOp(host, Emitted(u, v), m), v)
  {
    hide WithRegister, CompileExpr, M.Value, X.Eval, Emitted, Agree, M.BindNumber, Encodings.ParseHex;
    ExprAgrees(a.expr, u.registers, env.regs, m.regs);
    hide Related;
    var e := CompileExpr(a.expr, u.registers).value;
    EmittedIs(u, a.name, 0, I.Compute(e, u.nextReg));
    BindNumberAgrees(u, env, m, a.name, I.Compute(e, u.nextReg), Ok(X.Eval(e, m.regs)));
  }

  /** One step and the operation it was compiled to lead to agreeing outcomes. */
  lemma ActionAgrees(host: Host, kind: S.TransportType, a: S.Action, u: Unit, v: Unit, env: M.Named, m: X.Machine)
    requires Related(u, env, m) && Fits(u.sizes, u.nextReg, m) && Consistent(u)
    requires CompileAction(host.lib, kind, a, u) == Some(v)
    ensures Lowered(u, v) && Agree(M.Act(host, a, env), X.ExecOp(host, Emitted(u, v), m), v)
  {
    ActionLowered(host.lib, kind, a, u, v);
    assert |v.ops| == |u.ops| + 1;
    hide CompileReceive, CompileBuild, CompileControl, Related, Fits, Consistent, Lowered, Agree, M.Act, X.ExecOp;
    if Receives(a) {
      ReceiveAgrees(host, kind, a, u, v, env, m);
    } else if Builds(a) {
      BuildAgrees(host, a, u, v, env, m);
    } else if a.SendHttp? {
      SendRequestAgrees(host, a, u, v, env, m);
    } else if a.Extract? {
      ExtractAgrees(host, a, u, v, env, m);
    } else if a.RejectIf? {
      RejectAgrees(host, a, u, v, env, m);
    } else if a.Match? {
      MatchAgrees(host, a, u, v, env, m);
    } else if a.Compute? {
      ComputeAgrees(host, a, u, v, env, m);
    } else {
      SendAgrees(host, a, u, v, env, m);
    }
  }
}
