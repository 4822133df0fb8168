/** Whole runs of compiled probes: sizes, definitions, failures, exact lengths. */
module Runs {
  import opened Wrappers
  import opened Words
  import opened Transport
  import opened Sessions
  import opened StaticAnalysis
  import opened Soundness
  import Compiler
  import S = Schema
  import I = Ir
  import opened X = Executor

  /** The machine before operation `k`, if the run gets there. */
  function StateAt(host: Host, ops: seq<I.Op>, m: Machine, k: nat): Option<Machine> {
    if k == 0 then Some(m)
    else if ops == [] then None
    else
      match ExecOp(host, ops[0], m)
      case Continue(next) => StateAt(host, ops[1..], next, k - 1)
      case Reject(_, _) => None
      case Fail(_) => None
  }

  function RegsAfter(ops: seq<I.Op>, regs: nat): nat {
    if ops == [] then regs else RegsAfter(ops[1..], regs + NewRegs(ops[0]))
  }

  // ----- compiling yields a checked sequence

  lemma {:induction false} CompiledOps(lib: Library, kind: S.TransportType, steps: seq<S.Step>, u: Compiler.Unit)
      returns (ops: seq<I.Op>)
    requires Consistent(u) && Compiler.CompileSteps(lib, kind, steps, u).Some?
    ensures var v := Compiler.CompileSteps(lib, kind, steps, u).value;
            && v.ops == u.ops + ops && |ops| == |steps|
            && Checked(ops, u.sizes, u.nextReg)
            && v.sizes == SizesAfter(ops, u.sizes)
            && Consistent(v) && Grows(u, v)
  {
    hide Compiler.CompileAction, Consistent, Grows, Checked, SizesAfter;
    if steps == [] {
      GrowsSelf(u);
      ops := [];
      NothingChecked(u.sizes, u.nextReg);
    } else {
      var v := Compiler.CompileStep(lib, kind, steps[0], u).value;
      ActionLowered(lib, kind, steps[0].present[0], u, v);
      var rest := CompiledOps(lib, kind, steps[1..], v);
      GrowsOn(u, v, Compiler.CompileSteps(lib, kind, steps, u).value);
      ops := [Emitted(u, v)] + rest;
      CheckedFirst(u, v, rest);
    }
  }

  lemma NothingChecked(sizes: seq<nat>, regs: nat)
    ensures Checked([], sizes, regs) && SizesAfter([], sizes) == sizes
  {}

  lemma CheckedFirst(u: Compiler.Unit, v: Compiler.Unit, rest: seq<I.Op>)
    requires Consistent(u) && Lowered(u, v) && Checked(rest, v.sizes, v.nextReg)
    ensures Checked([Emitted(u, v)] + rest, u.sizes, u.nextReg)
    ensures SizesAfter([Emitted(u, v)] + rest, u.sizes) == SizesAfter(rest, v.sizes)
  {
    assert ([Emitted(u, v)] + rest)[1..] == rest;
    hide Scoped, Allowed, NewSizes, NewRegs, Grows;
  }

  lemma CompiledProbeChecked(lib: Library, doc: S.ProbeDocument)
    requires Compiler.Compile(lib, doc).Some?
    ensures var p := Compiler.Compile(lib, doc).value;
            && Checked(p.ops, [], 0)
            && Compiler.Sum(SizesAfter(p.ops, [])) <= Compiler.MAX_PROBE_BUFFERS
  {
    hide Compiler.CompileFields, Compiler.CompileSteps, Compiler.Sum, Checked, SizesAfter;
    assert Consistent(Compiler.EMPTY_UNIT);
    var ops := CompiledOps(lib, doc.transport.kind, doc.steps, Compiler.EMPTY_UNIT);
    assert [] + ops == ops;
  }

  // ----- every state of a run fits

  lemma {:induction false} CheckedRunFits(host: Host, ops: seq<I.Op>, sizes: seq<nat>, regs: nat, m: Machine, k: nat)
    requires Checked(ops, sizes, regs) && Fits(sizes, regs, m)
    requires k <= |ops| && StateAt(host, ops, m, k).Some?
    ensures var n := StateAt(host, ops, m, k).value;
            var before := SizesAfter(ops[..k], sizes);
            var regsBefore := RegsAfter(ops[..k], regs);
            && Fits(before, regsBefore, n) && Keeps(m, n)
            && (k < |ops| ==> Scoped(ops[k], |before|, regsBefore) && Allowed(ops[k], before))
    decreases k
  {
    hide ExecOp, Fits, Scoped, Allowed, NewSizes, NewRegs;
    if k > 0 {
      OpBehaves(host, ops[0], sizes, regs, m);
      var next := ExecOp(host, ops[0], m).machine;
      CheckedRunFits(host, ops[1..], sizes + NewSizes(ops[0], sizes), regs + NewRegs(ops[0]), next, k - 1);
      assert ops[..k][1..] == ops[1..][..k - 1];
      KeepsOn(m, next, StateAt(host, ops, m, k).value);
    }
  }

  lemma {:induction false} SizesGrow(ops: seq<I.Op>, sizes: seq<nat>, k: nat)
    requires k <= |ops|
    ensures SizesAfter(ops[..k], sizes) <= SizesAfter(ops, sizes)
    ensures sizes <= SizesAfter(ops[..k], sizes)
    decreases |ops|, k
  {
    hide NewSizes;
    if k > 0 {
      assert ops[..k][1..] == ops[1..][..k - 1];
      SizesGrow(ops[1..], sizes + NewSizes(ops[0], sizes), k - 1);
    } else if ops != [] {
      SizesGrow(ops[1..], sizes + NewSizes(ops[0], sizes), 0);
      assert ops[1..][..0] == [];
    }
  }

  /** The bytes a machine holds in its buffers. */
  function Held(bufs: seq<Bytes>): nat {
    if bufs == [] then 0 else |bufs[0]| + Held(bufs[1..])
  }

  lemma {:induction false} HeldWithin(bufs: seq<Bytes>, sizes: seq<nat>)
    requires |bufs| <= |sizes| && forall i :: 0 <= i < |bufs| ==> |bufs[i]| <= sizes[i]
    ensures Held(bufs) <= Compiler.Sum(sizes)
  {
    if bufs != [] {
      HeldWithin(bufs[1..], sizes[1..]);
    }
  }

  /** The static sizes of the buffers of a probe. */
  function StaticSizes(p: I.CompiledProbe): seq<nat> {
    SizesAfter(p.ops, [])
  }

  /** A machine fits a probe: as many buffers as are defined so far, each within its static size. */
  ghost predicate Within(p: I.CompiledProbe, n: Machine) {
    && |n.bufs| <= |StaticSizes(p)|
    && (forall i :: 0 <= i < |n.bufs| ==> |n.bufs[i]| <= StaticSizes(p)[i])
    && Held(n.bufs) <= Compiler.MAX_PROBE_BUFFERS
  }

  /**
   * At every operation of every run of a compiled probe, whatever the peer sends: each buffer is
   * within its static size and all of them within 4 MiB; the operation reads only buffers and
   * registers that were written; and it fails with an internal error exactly for a computed
   * value that does not fit, a request above 1 MiB, or the set-up of a new connection.
   */
  lemma CompiledRunIsSafe(host: Host, doc: S.ProbeDocument, session: Session, k: nat)
    requires Compiler.Compile(host.lib, doc).Some?
    requires var p := Compiler.Compile(host.lib, doc).value;
             k <= |p.ops| && StateAt(host, p.ops, Machine([], [], session), k).Some?
    ensures var p := Compiler.Compile(host.lib, doc).value;
            var n := StateAt(host, p.ops, Machine([], [], session), k).value;
            && Within(p, n)
            && (k < |p.ops| ==>
                  && Scoped(p.ops[k], |n.bufs|, |n.regs|)
                  && (ExecOp(host, p.ops[k], n) == Fail(InternalError) <==> InternalCause(host, p.ops[k], n)))
  {
    hide Compiler.Compile, StateAt, ExecOp, Scoped, Allowed, InternalCause, Checked, SizesAfter, RegsAfter, Held;
    CompiledProbeChecked(host.lib, doc);
    var p := Compiler.Compile(host.lib, doc).value;
    var m := Machine([], [], session);
    CheckedRunFits(host, p.ops, [], 0, m, k);
    var n := StateAt(host, p.ops, m, k).value;
    var before := SizesAfter(p.ops[..k], []);
    SizesGrow(p.ops, [], k);
    HeldWithin(n.bufs, StaticSizes(p));
    if k < |p.ops| {
      OpBehaves(host, p.ops[k], before, RegsAfter(p.ops[..k], 0), n);
    }
  }

  // ----- buffers of exact length

  /** Which of the buffers an operation defines always have exactly their static size. */
  function NewExact(op: I.Op, exact: seq<bool>): seq<bool> {
    match op
    case SetLiteral(_, _) => [true]
    case Pack(_, _, _, _) => [true]
    case Concat(sources, _) => [forall s :: s in sources ==> s < |exact| && exact[s]]
    case RecvExact(_, _) => [true]
    case RecvUpTo(min, max, _) => [min == max]
    case RecvUntil(_, _, _) => [false]
    case RecvFrame(_, min, max, _, _) => [min == max]
    case RecvHttp(_, maxBody, _, _, _, _, _) => [false, maxBody == 0]
    case PeerCertificateSha256(_) => [true]
    case Transform(src, _, k) => [(k.AsciiHexDecode? || k.Base64Encode? || k.Rc4?) && src < |exact| && exact[src]]
    case _ => []
  }

  function ExactAfter(ops: seq<I.Op>, exact: seq<bool>): seq<bool> {
    if ops == [] then exact else ExactAfter(ops[1..], exact + NewExact(ops[0], exact))
  }

  ghost predicate Exact(exact: seq<bool>, sizes: seq<nat>, m: Machine) {
    |exact| == |sizes| == |m.bufs| && forall i :: 0 <= i < |exact| && exact[i] ==> |m.bufs[i]| == sizes[i]
  }

  /** The lengths a receiving operation gives to the buffers it defines. */
  lemma ExactReceived(host: Host, op: I.Op, sizes: seq<nat>, regs: nat, exact: seq<bool>, m: Machine)
    requires Fits(sizes, regs, m) && Scoped(op, |sizes|, regs) && ExecOp(host, op, m).Continue?
    requires op.RecvExact? || op.RecvUpTo? || op.RecvUntil? || op.RecvFrame? || op.RecvHttp?
    ensures var n := ExecOp(host, op, m).machine;
            |NewExact(op, exact)| == |NewSizes(op, sizes)| == |n.bufs| - |m.bufs| &&
            forall i :: 0 <= i < |NewExact(op, exact)| && NewExact(op, exact)[i] ==>
                          |n.bufs[|m.bufs| + i]| == NewSizes(op, sizes)[i]
  {
    hide ReadExact, ReadUpTo, ReadUntil, ReceiveFrame, ReceiveHttp, ExprScoped, CondScoped, SendAll,
      HttpRequest.BuildRequest, TransformBytes, Eval, EvalBool, StatusValue, LengthValue, Joined, NumberKind.Size;
    assert |m.bufs| == |sizes|;
    hide Fits;
    var w := m.session.conn.wire;
    match op
    case RecvExact(length, _) => ReadBounds(w, 0, length, []);
    case RecvUpTo(min, max, _) => ReadBounds(w, min, max, []);
    case RecvUntil(delimiter, max, _) => ReadBounds(w, 0, max, delimiter);
    case RecvFrame(kind, min, max, _, _) => FrameBounds(w, kind, min, max);
    case RecvHttp(maxHeader, maxBody, headersOnly, _, _, _, _) => HttpBounds(w, maxHeader, maxBody, headersOnly);
  }

  /** The lengths an operation that continues gives to the buffers it defines. */
  lemma ExactNew(host: Host, op: I.Op, sizes: seq<nat>, regs: nat, exact: seq<bool>, m: Machine)
    requires Fits(sizes, regs, m) && Scoped(op, |sizes|, regs) && Allowed(op, sizes) && Exact(exact, sizes, m)
    requires ExecOp(host, op, m).Continue?
    ensures var n := ExecOp(host, op, m).machine;
            |NewExact(op, exact)| == |NewSizes(op, sizes)| == |n.bufs| - |m.bufs| &&
            forall i :: 0 <= i < |NewExact(op, exact)| && NewExact(op, exact)[i] ==>
                          |n.bufs[|m.bufs| + i]| == NewSizes(op, sizes)[i]
  {
    hide ReadExact, ReadUpTo, ReadUntil, ReceiveFrame, ReceiveHttp, TransformBytes, Compiler.TransformBound,
      Gather, TotalOf, PackNum, NumberKind.Holds, Eval, EvalBool, SendAll, HttpRequest.BuildRequest, Keeps,
      ToU64, Sessions.ExtractNumber, ExtractCrc, ExtractDecimal, CondScoped, ExprScoped, Allowed;
    if op.RecvExact? || op.RecvUpTo? || op.RecvUntil? || op.RecvFrame? || op.RecvHttp? {
      ExactReceived(host, op, sizes, regs, exact, m);
      hide ExecOp;
    } else if op.Concat? {
      GatherBounds(m, op.sources, sizes, regs);
    } else if op.Transform? {
      BufferInRange(sizes, regs, m, op.src);
      TransformBounds(host.lib, m.bufs[op.src], op.transform, sizes[op.src]);
    }
  }

  lemma ExactStep(host: Host, op: I.Op, sizes: seq<nat>, regs: nat, exact: seq<bool>, m: Machine)
    requires Fits(sizes, regs, m) && Scoped(op, |sizes|, regs) && Allowed(op, sizes) && Exact(exact, sizes, m)
    requires ExecOp(host, op, m).Continue?
    ensures Exact(exact + NewExact(op, exact), sizes + NewSizes(op, sizes), ExecOp(host, op, m).machine)
  {
    hide ExecOp, NewExact, NewSizes, Scoped, Allowed, Fits, InternalCause, Exact;
    OpBehaves(host, op, sizes, regs, m);
    ExactNew(host, op, sizes, regs, exact, m);
    StaysExact(sizes, exact, m, ExecOp(host, op, m).machine, NewExact(op, exact), NewSizes(op, sizes));
  }

  lemma StaysExact(sizes: seq<nat>, exact: seq<bool>, m: Machine, n: Machine, newExact: seq<bool>, newSizes: seq<nat>)
    requires Exact(exact, sizes, m) && Keeps(m, n) && |newExact| == |newSizes| == |n.bufs| - |m.bufs|
    requires forall i :: 0 <= i < |newExact| && newExact[i] ==> |n.bufs[|m.bufs| + i]| == newSizes[i]
    ensures Exact(exact + newExact, sizes + newSizes, n)
  {
    var flags, lengths := exact + newExact, sizes + newSizes;
    forall i | 0 <= i < |flags| && flags[i]
      ensures |n.bufs[i]| == lengths[i]
    {
      if i < |exact| {
        assert n.bufs[i] == n.bufs[..|m.bufs|][i];
      } else {
        assert n.bufs[i] == n.bufs[|m.bufs| + (i - |m.bufs|)];
      }
    }
  }

  lemma {:induction false} CheckedRunExact(host: Host, ops: seq<I.Op>, sizes: seq<nat>, regs: nat, exact: seq<bool>,
                                           m: Machine, k: nat)
    requires Checked(ops, sizes, regs) && Fits(sizes, regs, m) && Exact(exact, sizes, m)
    requires k <= |ops| && StateAt(host, ops, m, k).Some?
    ensures Exact(ExactAfter(ops[..k], exact), SizesAfter(ops[..k], sizes), StateAt(host, ops, m, k).value)
    decreases k
  {
    hide ExecOp, Fits, Exact, Scoped, Allowed, NewSizes, NewRegs, NewExact;
    if k > 0 {
      OpBehaves(host, ops[0], sizes, regs, m);
      ExactStep(host, ops[0], sizes, regs, exact, m);
      CheckedRunExact(host, ops[1..], sizes + NewSizes(ops[0], sizes), regs + NewRegs(ops[0]),
                      exact + NewExact(ops[0], exact), ExecOp(host, ops[0], m).machine, k - 1);
      assert ops[..k][1..] == ops[1..][..k - 1];
    }
  }

  lemma ExtractSucceeds(host: Host, op: I.Op, sizes: seq<nat>, m: Machine)
    requires op.Extract? || op.Crc32?
    requires Allowed(op, sizes) && op.src < |m.bufs| && |m.bufs[op.src]| == sizes[op.src]
    ensures ExecOp(host, op, m).Continue?
  {
    hide ReadNumber;
  }

  /** On a buffer whose length is fixed statically, `extract` and `crc32` never fail. */
  lemma ExactExtractSucceeds(host: Host, doc: S.ProbeDocument, session: Session, k: nat)
    requires Compiler.Compile(host.lib, doc).Some?
    requires var p := Compiler.Compile(host.lib, doc).value;
             k < |p.ops| && StateAt(host, p.ops, Machine([], [], session), k).Some? &&
             (p.ops[k].Extract? || p.ops[k].Crc32?) &&
             p.ops[k].src < |ExactAfter(p.ops[..k], [])| && ExactAfter(p.ops[..k], [])[p.ops[k].src]
    ensures var p := Compiler.Compile(host.lib, doc).value;
            ExecOp(host, p.ops[k], StateAt(host, p.ops, Machine([], [], session), k).value).Continue?
  {
    hide Compiler.Compile, StateAt, ExecOp, Scoped, Allowed, Checked, SizesAfter, RegsAfter, ExactAfter;
    CompiledProbeChecked(host.lib, doc);
    var p := Compiler.Compile(host.lib, doc).value;
    var m := Machine([], [], session);
    CheckedRunFits(host, p.ops, [], 0, m, k);
    CheckedRunExact(host, p.ops, [], 0, [], m, k);
    ExtractSucceeds(host, p.ops[k], SizesAfter(p.ops[..k], []), StateAt(host, p.ops, m, k).value);
  }
}
