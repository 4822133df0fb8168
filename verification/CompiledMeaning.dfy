/** The main theorem of the compiler: a compiled probe reports what the document means. */
module CompiledMeaning {
  import opened Wrappers
  import opened Words
  import opened Sessions
  import opened Compiler
  import opened StaticAnalysis
  import opened Soundness
  import opened CompilerCorrectness
  import Runs
  import S = Schema
  import M = Meaning
  import I = Ir
  import X = Executor

  /** The state in which a run stops is related at some point of the compilation that `v` extends. */
  ghost predicate RelatedBefore(v: Unit, env: M.Named, m: X.Machine) {
    exists w :: Related(w, env, m) && Grows(w, v)
  }

  ghost predicate EndAlike(f: M.Finish, e: X.Ending<X.Machine>, v: Unit) {
    match e
    case Completed(m) => f.Completed? && RelatedBefore(v, f.env, m)
    case Rejected(m, confidence, status) =>
      f.Rejected? && f.confidence == confidence && f.status == status && RelatedBefore(v, f.env, m)
    case Failed(failure, sent) => f == M.Failed(failure, sent)
  }

  lemma {:induction false} RunsAgree(host: Host, kind: S.TransportType, steps: seq<S.Step>, u: Unit, v: Unit,
                                     env: M.Named, m: X.Machine)
    requires Related(u, env, m) && Fits(u.sizes, u.nextReg, m) && Consistent(u)
    requires CompileSteps(host.lib, kind, steps, u) == Some(v)
    ensures Grows(u, v) && |u.ops| <= |v.ops| && u.ops <= v.ops
    ensures EndAlike(M.RunSteps(host, steps, env), X.RunOps(host, v.ops[|u.ops|..], m), v)
  {
    hide CompileAction, Related, Fits, Consistent, Lowered, Agree, Grows, M.Act, X.ExecOp, RelatedBefore;
    assert env.session == m.session by { SessionsEqual(u, env, m); }
    if steps == [] {
      GrowsSelf(u);
      RelatedIsBefore(u, v, env, m);
    } else {
      var next := CompileStep(host.lib, kind, steps[0], u).value;
      var a := steps[0].present[0];
      ActionAgrees(host, kind, a, u, next, env, m);
      LoweredParts(u, next);
      var rest := Runs.CompiledOps(host.lib, kind, steps[1..], next);
      GrowsOn(u, next, v);
      var op := Emitted(u, next);
      assert v.ops[|u.ops|..] == [op] + rest;
      assert v.ops[|next.ops|..] == rest;
      AgreeParts(M.Act(host, a, env), X.ExecOp(host, op, m), next);
      match X.ExecOp(host, op, m)
      case Continue(n) =>
        OpBehaves(host, op, u.sizes, u.nextReg, m);
        RunsAgree(host, kind, steps[1..], next, v, M.Act(host, a, env).state, n);
      case Reject(_, _) => RelatedIsBefore(u, v, env, m);
      case Fail(_) =>
    }
  }

  lemma SessionsEqual(u: Unit, env: M.Named, m: X.Machine)
    requires Related(u, env, m)
    ensures env.session == m.session
  {}

  lemma RelatedIsBefore(u: Unit, v: Unit, env: M.Named, m: X.Machine)
    requires Related(u, env, m) && Grows(u, v)
    ensures RelatedBefore(v, env, m)
  {}

  lemma LoweredParts(u: Unit, v: Unit)
    requires Lowered(u, v) && Consistent(u)
    ensures v.ops == u.ops + [Emitted(u, v)] && Grows(u, v) && Consistent(v)
    ensures Scoped(Emitted(u, v), |u.sizes|, u.nextReg) && Allowed(Emitted(u, v), u.sizes)
    ensures v.sizes == u.sizes + NewSizes(Emitted(u, v), u.sizes) && v.nextReg == u.nextReg + NewRegs(Emitted(u, v))
  {}

  lemma AgreeParts(o: M.Outcome, p: X.Progress<X.Machine>, u: Unit)
    requires Agree(o, p, u)
    ensures match p
            case Continue(m) => o.Continue? && Related(u, o.state, m)
            case Reject(confidence, status) => o == M.Reject(confidence, status)
            case Fail(failure) => o == M.Fail(failure)
  {}

  // ----- reported fields

  /** A field reports the same on both sides; where its name is not yet defined, the same default. */
  lemma FieldAgrees(value: S.Json, w: Unit, v: Unit, env: M.Named, m: X.Machine, rejected: bool)
    requires Related(w, env, m) && Grows(w, v) && CompileField(value, v).Some?
    ensures M.Field(value, env, rejected) == X.FieldOf(CompileField(value, v).value, m.regs, m.bufs, rejected)
  {
    if value.JsonString? {
      var text := value.text;
      var hex, plain := M.AfterPrefix(text, "$hex:"), M.AfterPrefix(text, "$text:");
      hide M.AfterPrefix, S.Target;
      if hex.Some? {
        SlotAgrees(w.buffers, v.buffers, env.bufs, m.bufs, S.Target(hex.value));
      } else if plain.Some? {
        SlotAgrees(w.buffers, v.buffers, env.bufs, m.bufs, S.Target(plain.value));
      } else if text != "$rejected" && M.AfterPrefix(text, "$").Some? {
        SlotAgrees(w.registers, v.registers, env.regs, m.regs, S.Target(text));
      }
    }
  }

  lemma SlotAgrees<V>(index: map<string, nat>, later: map<string, nat>, named: map<string, V>, slots: seq<V>, name: string)
    requires SameValues(index, named, slots) && IndexGrows(index, later, |slots|) && name in later
    ensures if name in named then later[name] < |slots| && slots[later[name]] == named[name]
            else later[name] >= |slots|
  {}

  lemma FieldsAgree(fields: map<string, S.Json>, v: Unit, env: M.Named, m: X.Machine, rejected: bool)
    requires RelatedBefore(v, env, m) && CompileFields(fields, v).Some?
    ensures var templates := CompileFields(fields, v).value;
            (map n | n in fields :: M.Field(fields[n], env, rejected)) ==
            X.FieldsOf(templates, m.regs, m.bufs, rejected)
  {
    hide M.Field, X.FieldOf, CompileField, Related, Grows;
    var w :| Related(w, env, m) && Grows(w, v);
    forall n | n in fields
      ensures M.Field(fields[n], env, rejected) == X.FieldOf(CompileField(fields[n], v).value, m.regs, m.bufs, rejected)
    {
      FieldAgrees(fields[n], w, v, env, m, rejected);
    }
  }

  lemma EndsReportAlike(doc: S.ProbeDocument, p: I.CompiledProbe, v: Unit, f: M.Finish, e: X.Ending<X.Machine>, prelude: Option<Bytes>)
    requires EndAlike(f, e, v) && Finish(doc, prelude, v) == Some(p)
    ensures f.Completed? ==>
              (X.Conclude(p, e) ==
               Report(M.VerdictsOf(doc.result), f.env.session, None,
                      map n | n in doc.result.fields :: M.Field(doc.result.fields[n], f.env, false)))
    ensures f.Rejected? ==>
              (X.Conclude(p, e) ==
               Report(M.VerdictsOf(doc.result), f.env.session, Some((f.confidence, f.status)),
                      map n | n in doc.result.fields :: M.Field(doc.result.fields[n], f.env, true)))
    ensures f.Failed? ==> X.Conclude(p, e) == FailedExecution(f.failure, f.sent)
    ensures !f.Meaningless?
  {
    hide Report, FailedExecution, Sum, CompileFields;
    if f.Completed? {
      BeforeSessions(v, f.env, e.machine);
      FieldsAgree(doc.result.fields, v, f.env, e.machine, false);
    } else if f.Rejected? {
      BeforeSessions(v, f.env, e.machine);
      FieldsAgree(doc.result.fields, v, f.env, e.machine, true);
    }
  }

  lemma BeforeSessions(v: Unit, env: M.Named, m: X.Machine)
    requires RelatedBefore(v, env, m)
    ensures env.session == m.session
  {}

  /**
   * For every document the compiler accepts and every behaviour of the network, executing the
   * compiled probe reports exactly what the document means: verdict, confidence, status, fields,
   * the bytes sent, or the failure. In particular every accepted document has a meaning.
   */
  lemma CompilerCorrect(host: Host, doc: S.ProbeDocument, dials: seq<Dial>)
    requires Compile(host.lib, doc).Some?
    ensures M.Interpret(host, doc, dials) == Some(X.Execute(host, Compile(host.lib, doc).value, dials))
  {
    var p := Compile(host.lib, doc).value;
    var prelude := CompilePrelude(doc.transport).value;
    var v := CompileSteps(host.lib, doc.transport.kind, doc.steps, EMPTY_UNIT).value;
    if Opened(dials).Ok? {
      var session := Opened(dials).value;
      var env, m := M.Named(map[], map[], session), X.Machine([], [], session);
      assert Related(EMPTY_UNIT, env, m) && Fits([], 0, m) && Consistent(EMPTY_UNIT);
      RunsAgree(host, doc.transport.kind, doc.steps, EMPTY_UNIT, v, env, m);
      hide M.RunSteps, X.RunOps, CompileSteps, EndAlike, Report, X.Conclude, Opened;
      assert v.ops[0..] == v.ops == p.ops by { FinishOps(doc, prelude, v); }
      EndsReportAlike(doc, p, v, M.RunSteps(host, doc.steps, env), X.RunOps(host, p.ops, m), prelude);
    }
  }

  lemma FinishOps(doc: S.ProbeDocument, prelude: Option<Bytes>, v: Unit)
    ensures Finish(doc, prelude, v).Some? ==> Finish(doc, prelude, v).value.ops == v.ops
  {
    hide CompileFields, Sum;
  }
}
