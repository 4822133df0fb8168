/** What a run reports, in terms of the document and of the values at its match and its rejection. */
module Verdicts {
  import opened Wrappers
  import opened Words
  import opened Sessions
  import opened StaticAnalysis
  import opened Runs
  import opened X = Executor
  import Compiler
  import CompiledMeaning
  import M = Meaning
  import Transport
  import S = Schema
  import I = Ir

  // ----- runs up to an operation

  lemma {:induction false} RunFrom(host: Host, ops: seq<I.Op>, m: Machine, k: nat)
    requires k <= |ops| && StateAt(host, ops, m, k).Some?
    ensures RunOps(host, ops, m) == RunOps(host, ops[k..], StateAt(host, ops, m, k).value)
    decreases k
  {
    hide ExecOp;
    if k == 0 {
      assert ops[0..] == ops;
    } else {
      RunFrom(host, ops[1..], ExecOp(host, ops[0], m).machine, k - 1);
      assert ops[1..][k - 1..] == ops[k..];
    }
  }

  /** A run goes through its states one operation after the other. */
  lemma {:induction false} StateNext(host: Host, ops: seq<I.Op>, m: Machine, k: nat)
    requires k < |ops| && StateAt(host, ops, m, k + 1).Some?
    ensures StateAt(host, ops, m, k).Some?
    ensures ExecOp(host, ops[k], StateAt(host, ops, m, k).value) == Continue(StateAt(host, ops, m, k + 1).value)
    decreases k
  {
    hide ExecOp;
    if k > 0 {
      StateNext(host, ops[1..], ExecOp(host, ops[0], m).machine, k - 1);
    }
  }

  // ----- the verdict is that of the last match

  datatype Verdict = Verdict(matched: bool, confidence: Option<real>, status: Option<string>)

  function VerdictOf(m: Machine): Verdict {
    Verdict(m.session.matched, m.session.confidence, m.session.status)
  }

  lemma OthersKeepVerdict(host: Host, op: I.Op, m: Machine)
    requires !op.Match? && ExecOp(host, op, m).Continue?
    ensures VerdictOf(ExecOp(host, op, m).machine) == VerdictOf(m)
  {
    hide Transport.ReadExact, Transport.ReadUpTo, Transport.ReadUntil, ReceiveFrame, ReceiveHttp, PackValue, TransformBytes, Joined,
      Eval, EvalBool, StatusValue, LengthValue, ToU64, Sessions.ExtractNumber, ExtractCrc, ExtractDecimal;
  }

  lemma MatchSets(host: Host, op: I.Op, m: Machine)
    requires op.Match?
    ensures var holds := EvalBool(host.lib, op.condition, m.regs, m.bufs);
            var p := ExecOp(host, op, m);
            p.Continue? && VerdictOf(p.machine) ==
            Verdict(holds, if holds then op.matchConfidence else None, if holds then op.matchStatus else None)
  {
    hide EvalBool;
  }

  /** The verdict before operation `k` is that of the match at `i`, if none lies in between. */
  lemma {:induction false} VerdictStays(host: Host, ops: seq<I.Op>, m: Machine, i: nat, k: nat)
    requires i < k <= |ops| && ops[i].Match? && StateAt(host, ops, m, k).Some?
    requires forall j :: i < j < k ==> !ops[j].Match?
    ensures StateAt(host, ops, m, i).Some?
    ensures var at := StateAt(host, ops, m, i).value;
            var holds := EvalBool(host.lib, ops[i].condition, at.regs, at.bufs);
            VerdictOf(StateAt(host, ops, m, k).value) ==
            Verdict(holds, if holds then ops[i].matchConfidence else None, if holds then ops[i].matchStatus else None)
    decreases k
  {
    hide ExecOp, StateAt, EvalBool, VerdictOf;
    StateNext(host, ops, m, k - 1);
    var before := StateAt(host, ops, m, k - 1).value;
    if i == k - 1 {
      MatchSets(host, ops[i], before);
    } else {
      VerdictStays(host, ops, m, i, k - 1);
      OthersKeepVerdict(host, ops[k - 1], before);
    }
  }

  // ----- a run is responsive once something was heard

  predicate Hears(op: I.Op) {
    op.RecvExact? || op.RecvUpTo? || op.RecvUntil? || op.RecvFrame? || op.RecvHttp? || op.PeerCertificateSha256?
  }

  lemma HearingResponds(host: Host, op: I.Op, m: Machine)
    requires ExecOp(host, op, m).Continue?
    ensures ExecOp(host, op, m).machine.session.responsive <==> m.session.responsive || Hears(op)
  {
    hide Transport.ReadExact, Transport.ReadUpTo, Transport.ReadUntil, ReceiveFrame, ReceiveHttp, PackValue, TransformBytes, Joined,
      Eval, EvalBool, StatusValue, LengthValue, ToU64, Sessions.ExtractNumber, ExtractCrc, ExtractDecimal;
  }

  /** Before operation `k` the run counts as responsive if and only if an earlier operation heard the peer. */
  lemma {:induction false} RespondsIff(host: Host, ops: seq<I.Op>, m: Machine, k: nat)
    requires k <= |ops| && StateAt(host, ops, m, k).Some?
    ensures StateAt(host, ops, m, k).value.session.responsive <==>
            m.session.responsive || exists j :: 0 <= j < k && Hears(ops[j])
    decreases k
  {
    hide ExecOp, Hears;
    if k > 0 {
      StateNext(host, ops, m, k - 1);
      RespondsIff(host, ops, m, k - 1);
      hide StateAt;
      HearingResponds(host, ops[k - 1], StateAt(host, ops, m, k - 1).value);
    }
  }

  // ----- steps and operations

  /** What an operation keeps of the step it was compiled from, as far as verdicts go. */
  predicate Decides(a: S.Action, op: I.Op) {
    && (a.Match? <==> op.Match?)
    && (a.RejectIf? <==> op.RejectIf?)
    && (a.Match? ==> op.matchConfidence == a.matchConfidence && op.matchStatus == a.matchStatus)
    && (a.RejectIf? ==> op.confidence == a.confidence && op.status == a.status)
  }

  lemma ActionDecides(lib: Library, kind: S.TransportType, a: S.Action, u: Compiler.Unit, v: Compiler.Unit)
    requires Consistent(u) && Compiler.CompileAction(lib, kind, a, u) == Some(v)
    ensures |v.ops| == |u.ops| + 1 && Decides(a, Emitted(u, v))
  {
    ActionLowered(lib, kind, a, u, v);
    hide Consistent, Compiler.CompileExpr, Compiler.CompileCondition, Compiler.CompileExtract, Compiler.SourceIndexes,
      Compiler.TotalSize, Compiler.TransformBound, Compiler.TransformAllowed, NumberKind.Size, NumberKind.Holds,
      Scoped, Allowed, NewSizes, NewRegs, Grows, S.IsBlank, S.IsConfidence;
    if Compiler.Receives(a) {
      ReceiveDecides(kind, a, u, v);
    } else if Compiler.Builds(a) {
      BuildDecides(a, u, v);
    } else {
      ControlDecides(lib, a, u, v);
    }
  }

  lemma ReceiveDecides(kind: S.TransportType, a: S.Action, u: Compiler.Unit, v: Compiler.Unit)
    requires Compiler.CompileReceive(kind, a, u) == Some(v) && |v.ops| == |u.ops| + 1
    ensures !a.Match? && !a.RejectIf? && !Emitted(u, v).Match? && !Emitted(u, v).RejectIf?
  {}

  lemma BuildDecides(a: S.Action, u: Compiler.Unit, v: Compiler.Unit)
    requires Compiler.CompileBuild(a, u) == Some(v) && |v.ops| == |u.ops| + 1
    ensures !a.Match? && !a.RejectIf? && !Emitted(u, v).Match? && !Emitted(u, v).RejectIf?
  {
    hide Compiler.CompileExpr, Compiler.SourceIndexes, Compiler.TotalSize, Compiler.TransformBound, Compiler.TransformAllowed,
      NumberKind.Size, NumberKind.Holds;
  }

  lemma ControlDecides(lib: Library, a: S.Action, u: Compiler.Unit, v: Compiler.Unit)
    requires Compiler.CompileControl(lib, a, u) == Some(v) && |v.ops| == |u.ops| + 1
    ensures Decides(a, Emitted(u, v))
  {
    hide Compiler.CompileExpr, Compiler.CompileCondition, S.IsBlank, S.IsConfidence;
  }

  /** The operations of a compiled probe are those of its steps, one each. */
  lemma {:induction false} StepsDecide(lib: Library, kind: S.TransportType, steps: seq<S.Step>, u: Compiler.Unit)
    requires Consistent(u) && Compiler.CompileSteps(lib, kind, steps, u).Some?
    ensures var ops := Compiler.CompileSteps(lib, kind, steps, u).value.ops;
            && |ops| == |u.ops| + |steps| && ops[..|u.ops|] == u.ops
            && forall i :: 0 <= i < |steps| ==> |steps[i].present| == 1 && Decides(steps[i].present[0], ops[|u.ops| + i])
    decreases steps
  {
    hide Compiler.CompileAction, Consistent, Decides;
    if steps != [] {
      var v := Compiler.CompileStep(lib, kind, steps[0], u).value;
      var ops := Compiler.CompileSteps(lib, kind, steps, u).value.ops;
      StepEmits(lib, kind, steps[0].present[0], u, v);
      StepsDecide(lib, kind, steps[1..], v);
      assert ops[..|u.ops|] == ops[..|v.ops|][..|u.ops|];
      forall i | 0 <= i < |steps|
        ensures |steps[i].present| == 1 && Decides(steps[i].present[0], ops[|u.ops| + i])
      {
        if i == 0 {
          assert ops[|u.ops|] == ops[..|v.ops|][|u.ops|];
        } else {
          assert steps[i] == steps[1..][i - 1];
          assert ops[|u.ops| + i] == ops[|v.ops| + (i - 1)];
        }
      }
    }
  }

  lemma StepEmits(lib: Library, kind: S.TransportType, a: S.Action, u: Compiler.Unit, v: Compiler.Unit)
    requires Consistent(u) && Compiler.CompileAction(lib, kind, a, u) == Some(v)
    ensures Consistent(v) && |v.ops| == |u.ops| + 1 && v.ops[..|u.ops|] == u.ops && Decides(a, v.ops[|u.ops|])
  {
    hide Compiler.CompileAction, Decides, Scoped, Allowed, NewSizes, NewRegs;
    ActionLowered(lib, kind, a, u, v);
    ActionDecides(lib, kind, a, u, v);
  }

  /** A compiled probe has the operations of its steps and the verdicts of its document. */
  lemma ProbeDecides(lib: Library, doc: S.ProbeDocument)
    requires Compiler.Compile(lib, doc).Some?
    ensures var p := Compiler.Compile(lib, doc).value;
            && |p.ops| == |doc.steps|
            && (forall i :: 0 <= i < |doc.steps| ==> |doc.steps[i].present| == 1 && Decides(doc.steps[i].present[0], p.ops[i]))
            && p.result.classification == doc.result.classification
            && p.result.confidence == doc.result.confidence && p.result.unmatchedConfidence == doc.result.unmatchedConfidence
            && p.result.status == doc.result.status && p.result.unmatchedStatus == doc.result.unmatchedStatus
  {
    hide Compiler.CompileSteps, Compiler.CompileFields, Compiler.Sum, Decides;
    assert Consistent(Compiler.EMPTY_UNIT);
    StepsDecide(lib, doc.transport.kind, doc.steps, Compiler.EMPTY_UNIT);
  }

  // ----- reports

  /** The three flags: only a match sets one, and it is that of the declared class. */
  predicate Flags(e: Execution, matched: bool, declared: S.MatchClass) {
    && e.confirmed == (matched && declared == S.Confirmed)
    && e.probable == (matched && declared == S.Probable)
    && e.observed == (matched && declared == S.Observation)
  }

  /** Whether the match at operation `i` held when the run came to it. */
  predicate Held(host: Host, p: I.CompiledProbe, session: Session, i: nat)
    requires i < |p.ops| && p.ops[i].Match? && StateAt(host, p.ops, Machine([], [], session), i).Some?
  {
    var m := StateAt(host, p.ops, Machine([], [], session), i).value;
    EvalBool(host.lib, p.ops[i].condition, m.regs, m.bufs)
  }

  /**
   * A run to the end of a compiled probe. If the match of the document held, the report has the
   * confidence and the status the match gives, or else those of the result, and the flag of the
   * declared class; if not, it has those declared for unmatched runs, an empty status being replaced.
   */
  lemma CompletedReport(host: Host, doc: S.ProbeDocument, dials: seq<Dial>, i: nat)
    requires Compiler.Compile(host.lib, doc).Some? && Opened(dials).Ok?
    requires var p := Compiler.Compile(host.lib, doc).value;
             StateAt(host, p.ops, Machine([], [], Opened(dials).value), |p.ops|).Some?
    requires i < |doc.steps| && |doc.steps[i].present| == 1 && doc.steps[i].present[0].Match?
    requires forall j :: i < j < |doc.steps| && |doc.steps[j].present| == 1 ==> !doc.steps[j].present[0].Match?
    ensures var p := Compiler.Compile(host.lib, doc).value;
            var start := Machine([], [], Opened(dials).value);
            i < |p.ops| && p.ops[i].Match? && StateAt(host, p.ops, start, i).Some? &&
            var matched := Held(host, p, Opened(dials).value, i);
            var end := StateAt(host, p.ops, start, |p.ops|).value.session;
            var step := doc.steps[i].present[0];
            var e := Execute(host, p, dials);
            && e.confidence == (if !matched then doc.result.unmatchedConfidence
                                else if step.matchConfidence.Some? then step.matchConfidence.value
                                else doc.result.confidence)
            && e.status == (if !matched then (if doc.result.unmatchedStatus == "" then "protocol_mismatch"
                                              else doc.result.unmatchedStatus)
                            else if step.matchStatus.Some? then step.matchStatus.value
                            else doc.result.status)
            && Flags(e, matched, doc.result.classification)
            && e.responsive == end.responsive && e.sent == end.sent
  {
    hide Compiler.Compile, ExecOp, StateAt, EvalBool, FieldsOf, RunOps;
    var p := Compiler.Compile(host.lib, doc).value;
    var start := Machine([], [], Opened(dials).value);
    ProbeDecides(host.lib, doc);
    VerdictStays(host, p.ops, start, i, |p.ops|);
    RunFrom(host, p.ops, start, |p.ops|);
    EndsCompleted(host, p.ops[|p.ops|..], StateAt(host, p.ops, start, |p.ops|).value);
  }

  lemma EndsCompleted(host: Host, ops: seq<I.Op>, m: Machine)
    requires ops == []
    ensures RunOps(host, ops, m) == Completed(m)
  {}

  /** A rejected run reports the confidence and the status of its rejection, and no flag. */
  lemma RejectedReport(host: Host, doc: S.ProbeDocument, dials: seq<Dial>, k: nat)
    requires Compiler.Compile(host.lib, doc).Some? && Opened(dials).Ok?
    requires k < |doc.steps| && |doc.steps[k].present| == 1 && doc.steps[k].present[0].RejectIf?
    requires var p := Compiler.Compile(host.lib, doc).value;
             var m := StateAt(host, p.ops, Machine([], [], Opened(dials).value), k);
             k < |p.ops| && p.ops[k].RejectIf? && m.Some? &&
             EvalBool(host.lib, p.ops[k].condition, m.value.regs, m.value.bufs)
    ensures var p := Compiler.Compile(host.lib, doc).value;
            var at := StateAt(host, p.ops, Machine([], [], Opened(dials).value), k).value.session;
            var e := Execute(host, p, dials);
            && e.confidence == doc.steps[k].present[0].confidence && e.status == doc.steps[k].present[0].status
            && !e.confirmed && !e.probable && !e.observed
            && e.responsive == at.responsive && e.sent == at.sent
  {
    hide Compiler.Compile, StateAt, EvalBool, FieldsOf;
    var p := Compiler.Compile(host.lib, doc).value;
    var start := Machine([], [], Opened(dials).value);
    ProbeDecides(host.lib, doc);
    RunFrom(host, p.ops, start, k);
    RejectsAt(host, p.ops[k..], StateAt(host, p.ops, start, k).value);
  }

  lemma RejectsAt(host: Host, ops: seq<I.Op>, m: Machine)
    requires ops != [] && ops[0].RejectIf? && EvalBool(host.lib, ops[0].condition, m.regs, m.bufs)
    ensures RunOps(host, ops, m) == Rejected(m, ops[0].confidence, ops[0].status)
  {
    hide EvalBool;
  }

  /** A run that fails, or never connects, reports nothing but the failure and what was sent before. */
  lemma FailedReport(host: Host, p: I.CompiledProbe, dials: seq<Dial>, k: nat)
    requires Opened(dials).Ok? ==>
               k < |p.ops| &&
               var m := StateAt(host, p.ops, Machine([], [], Opened(dials).value), k);
               m.Some? && ExecOp(host, p.ops[k], m.value).Fail?
    ensures var e := Execute(host, p, dials);
            && !e.confirmed && !e.probable && !e.observed && !e.responsive && e.confidence == 0.0 && e.fields == map[]
            && (Opened(dials).Err? ==> e.status == StatusText(Opened(dials).error) && e.sent == [])
            && (Opened(dials).Ok? ==>
                var m := StateAt(host, p.ops, Machine([], [], Opened(dials).value), k).value;
                e.status == StatusText(ExecOp(host, p.ops[k], m).failure) && e.sent == m.session.sent)
  {
    hide ExecOp, StateAt, StatusText;
    if Opened(dials).Ok? {
      var start := Machine([], [], Opened(dials).value);
      RunFrom(host, p.ops, start, k);
      FailsAt(host, p.ops[k..], StateAt(host, p.ops, start, k).value);
    }
  }

  lemma FailsAt(host: Host, ops: seq<I.Op>, m: Machine)
    requires ops != [] && ExecOp(host, ops[0], m).Fail?
    ensures RunOps(host, ops, m) == Failed(ExecOp(host, ops[0], m).failure, m.session.sent)
  {
    hide ExecOp;
  }

  /** Different failures are reported under different names. */
  lemma StatusNames(f: Transport.Failure, g: Transport.Failure)
    ensures StatusText(f) == StatusText(g) ==> f == g
  {
    assert |StatusText(Transport.ConnectionRefused)| == 18 && |StatusText(Transport.ConnectTimeout)| == 15;
    assert |StatusText(Transport.ReadTimeout)| == 12 && |StatusText(Transport.ConnectionReset)| == 16;
    assert |StatusText(Transport.TlsError)| == 9 && |StatusText(Transport.InvalidResponse)| == 16;
    assert |StatusText(Transport.ProbeError)| == 11 && |StatusText(Transport.InternalError)| == 14;
    assert StatusText(Transport.ConnectionReset)[0] == 'c' && StatusText(Transport.InvalidResponse)[0] == 'i';
  }

  /**
   * The fields of a run that ends or is rejected: each is the value its reference names at that
   * point, in the form its prefix asks for, or the constant it is.
   */
  lemma ReportedFields(host: Host, doc: S.ProbeDocument, dials: seq<Dial>, f: string, name: string)
    requires Compiler.Compile(host.lib, doc).Some? && Opened(dials).Ok? && f in doc.result.fields
    requires var end := M.RunSteps(host, doc.steps, M.Named(map[], map[], Opened(dials).value));
             end.Completed? || end.Rejected?
    ensures var end := M.RunSteps(host, doc.steps, M.Named(map[], map[], Opened(dials).value));
            var e := Execute(host, Compiler.Compile(host.lib, doc).value, dials);
            var value := doc.result.fields[f];
            e.fields.Keys == doc.result.fields.Keys
            && (value.JsonOther? || (value.text == name && (name == "" || name[0] != '$')) ==> e.fields[f] == Fixed(value))
            && (value == S.JsonString("$rejected") ==> e.fields[f] == Flag(end.Rejected?))
            && (value == S.JsonString("$hex:" + name) && S.Target(name) in end.env.bufs ==>
                  e.fields[f] == HexValue(end.env.bufs[S.Target(name)]))
            && (value == S.JsonString("$text:" + name) && S.Target(name) in end.env.bufs ==>
                  e.fields[f] == TextValue(end.env.bufs[S.Target(name)]))
            && (value == S.JsonString("$" + name) && PlainName(name) && S.Target(name) in end.env.regs ==>
                  e.fields[f] == NumberValue(end.env.regs[S.Target(name)]))
  {
    hide Compiler.Compile, Execute, M.RunSteps, M.Field, PlainName, Report;
    CompiledMeaning.CompilerCorrect(host, doc, dials);
    var end := M.RunSteps(host, doc.steps, M.Named(map[], map[], Opened(dials).value));
    var value := doc.result.fields[f];
    ConstantField(value, end.env, end.Rejected?);
    PrefixedFields(name, end.env, end.Rejected?);
    NumberField(name, end.env, end.Rejected?);
    ReportFields(M.VerdictsOf(doc.result), end.env.session, None, map n | n in doc.result.fields :: M.Field(doc.result.fields[n], end.env, false));
    if end.Rejected? {
      ReportFields(M.VerdictsOf(doc.result), end.env.session, Some((end.confidence, end.status)),
                   map n | n in doc.result.fields :: M.Field(doc.result.fields[n], end.env, true));
    }
  }

  lemma ReportFields(v: Sessions.Verdicts, s: Session, rejected: Option<(real, string)>, fields: map<string, FieldValue>)
    ensures Report(v, s, rejected, fields).fields == fields
  {}

  lemma ConstantField(value: S.Json, env: M.Named, rejected: bool)
    ensures value.JsonOther? || value.text == "" || value.text[0] != '$' ==> M.Field(value, env, rejected) == Fixed(value)
    ensures value == S.JsonString("$rejected") ==> M.Field(value, env, rejected) == Flag(rejected)
  {
    var text := "$rejected";
    assert text[1] == 'r' && text[..5][1] == text[1] && text[..6][1] == text[1] && "$hex:"[1] == 'h' && "$text:"[1] == 't';
  }

  lemma PrefixedFields(name: string, env: M.Named, rejected: bool)
    ensures S.Target(name) in env.bufs ==>
              M.Field(S.JsonString("$hex:" + name), env, rejected) == HexValue(env.bufs[S.Target(name)]) &&
              M.Field(S.JsonString("$text:" + name), env, rejected) == TextValue(env.bufs[S.Target(name)])
  {
    hide S.Target;
    assert ("$hex:" + name)[..5] == "$hex:" && ("$hex:" + name)[5..] == name;
    assert ("$text:" + name)[..6] == "$text:" && ("$text:" + name)[6..] == name;
    assert ("$text:" + name)[..5][1] == 't' && "$hex:"[1] == 'h';
  }

  lemma NumberField(name: string, env: M.Named, rejected: bool)
    ensures PlainName(name) && S.Target(name) in env.regs ==>
              M.Field(S.JsonString("$" + name), env, rejected) == NumberValue(env.regs[S.Target(name)])
  {
    var text := "$" + name;
    assert text[1..] == name && S.Target(text) == S.Target(name);
    assert |name| >= 4 && text[..5] == "$hex:" ==> name[..4] == text[..5][1..] == "hex:";
    assert |name| >= 5 && text[..6] == "$text:" ==> name[..5] == text[..6][1..] == "text:";
    assert text == "$rejected" ==> name == "$rejected"[1..] == "rejected";
    hide S.Target;
  }

  /** A register name that does not read as one of the other forms. */
  predicate PlainName(name: string) {
    && !(|name| >= 4 && name[..4] == "hex:") && !(|name| >= 5 && name[..5] == "text:") && name != "rejected"
  }
}
