/** What a run takes from the peer: consecutive bytes, each once, within declared limits. */
module Consumption {
  import opened Wrappers
  import opened Words
  import opened Transport
  import opened Sessions
  import opened StaticAnalysis
  import opened Soundness
  import opened Runs
  import Compiler
  import Encodings
  import Meaning
  import HttpRequest
  import HttpResponse
  import S = Schema
  import I = Ir
  import opened X = Executor

  /** What an operation took from the stream, read off the machine after it. */
  function Took(op: I.Op, n: Machine): Bytes {
    match op
    case RecvExact(_, dst) => BufOf(n, dst)
    case RecvUpTo(_, _, dst) => BufOf(n, dst)
    case RecvUntil(_, _, dst) => BufOf(n, dst)
    case RecvFrame(kind, _, _, dst, lengthDst) => PackNum(RegOf(n, lengthDst), kind) + BufOf(n, dst)
    case RecvHttp(_, _, _, headerDst, bodyDst, _, _) => BufOf(n, headerDst) + BufOf(n, bodyDst)
    case _ => []
  }

  function BufOf(n: Machine, i: nat): Bytes {
    if i < |n.bufs| then n.bufs[i] else []
  }

  function RegOf(n: Machine, i: nat): u64 {
    if i < |n.regs| then n.regs[i] else 0
  }

  /** The most an operation may take: its declared maximum, plus the header of a frame. */
  function MayTake(op: I.Op): nat {
    match op
    case RecvExact(length, _) => length
    case RecvUpTo(_, max, _) => max
    case RecvUntil(_, max, _) => max
    case RecvFrame(kind, _, max, _, _) => kind.Size() + max
    case RecvHttp(maxHeader, maxBody, _, _, _, _, _) => maxHeader + maxBody
    case _ => 0
  }

  // ----- one read

  /** A successful read takes its data off the front of the stream. */
  lemma ReadTakes(w: Wire, r: Result<Taken, Failure>, min: nat, max: nat, delimiter: Bytes)
    requires r == ReadExact(w, max) || r == ReadUpTo(w, min, max) || r == ReadUntil(w, delimiter, max)
    requires r.Ok?
    ensures DataOf(w.items) == r.value.data + DataOf(r.value.rest.items)
  {
    ReadsAreSlices(w, r, min, max, delimiter);
    hide ReadExact, ReadUpTo, ReadUntil;
    var n := |r.value.data|;
    assert w.items == Items(r.value.data) + w.items[n..];
    DataOfItems(r.value.data, w.items[n..]);
    if r.value.rest.items != w.items[n..] {
      assert w.items[n..][1..] == w.items[n + 1..];
    }
  }

  lemma FrameTakes(w: Wire, kind: NumberKind, min: nat, max: nat)
    requires ReceiveFrame(w, kind, min, max).Ok?
    ensures var f := ReceiveFrame(w, kind, min, max).value;
            DataOf(w.items) == PackNum(f.length, kind) + f.body + DataOf(f.rest.items)
  {
    hide ReadExact, ReadUpTo, ReadUntil, ReadNumber, PackNum, DataOf, NumberKind.Holds, NumberKind.Size, Length;
    ReadBounds(w, 0, kind.Size(), []);
    var header := ReadExact(w, kind.Size());
    ReadTakes(w, header, 0, kind.Size(), []);
    PackAfterRead(header.value.data, kind);
    var length := Length(ReadNumber(header.value.data, kind));
    var body := ReadExact(header.value.rest, length);
    ReadTakes(header.value.rest, body, 0, length, []);
    assert header.value.data + (body.value.data + DataOf(body.value.rest.items)) ==
           header.value.data + body.value.data + DataOf(body.value.rest.items);
  }

  lemma HttpTakes(w: Wire, maxHeader: nat, maxBody: nat, headersOnly: bool)
    requires ReceiveHttp(w, maxHeader, maxBody, headersOnly).Ok?
    ensures var r := ReceiveHttp(w, maxHeader, maxBody, headersOnly).value;
            DataOf(w.items) == r.header + r.body + DataOf(r.rest.items)
  {
    hide ReadExact, ReadUpTo, ReadUntil, HttpResponse.ParseHeader, DataOf;
    var header := ReadUntil(w, BLANK_LINE, maxHeader);
    ReadTakes(w, header, 0, maxHeader, BLANK_LINE);
    var rest := header.value.rest;
    var response := HttpResponse.ParseHeader(header.value.data, maxBody).value;
    if !headersOnly {
      if response.contentLength.Some? {
        var length := response.contentLength.value;
        if length > 0 {
          ReadTakes(rest, ReadExact(rest, length), 0, length, []);
        }
      } else if maxBody > 0 {
        ReadTakes(rest, ReadUpTo(rest, 1, maxBody), 1, maxBody, []);
      }
    }
  }

  // ----- one operation

  function StreamOf(m: Machine): Bytes {
    DataOf(m.session.conn.wire.items)
  }

  predicate Receiving(op: I.Op) {
    op.RecvExact? || op.RecvUpTo? || op.RecvUntil? || op.RecvFrame? || op.RecvHttp?
  }

  lemma ReceivingTakes(host: Host, op: I.Op, sizes: seq<nat>, regs: nat, m: Machine)
    requires Fits(sizes, regs, m) && Scoped(op, |sizes|, regs) && Receiving(op) && ExecOp(host, op, m).Continue?
    ensures var n := ExecOp(host, op, m).machine;
            StreamOf(m) == Took(op, n) + StreamOf(n) && |Took(op, n)| <= MayTake(op)
  {
    hide DataOf, ReadExact, ReadUpTo, ReadUntil, ReceiveFrame, ReceiveHttp, PackNum, NumberKind.Size, Fits, ExprScoped,
      CondScoped, SendAll, HttpRequest.BuildRequest, TransformBytes, Eval, EvalBool, StatusValue, LengthValue, Joined;
    assert |m.bufs| == |sizes| && |m.regs| == regs by { FitsCounts(sizes, regs, m); }
    var w := m.session.conn.wire;
    match op
    case RecvExact(length, _) =>
      ReadBounds(w, 0, length, []);
      ReadTakes(w, ReadExact(w, length), 0, length, []);
    case RecvUpTo(min, max, _) =>
      ReadBounds(w, min, max, []);
      ReadTakes(w, ReadUpTo(w, min, max), min, max, []);
    case RecvUntil(delimiter, max, _) =>
      ReadBounds(w, 0, max, delimiter);
      ReadTakes(w, ReadUntil(w, delimiter, max), 0, max, delimiter);
    case RecvFrame(kind, min, max, _, _) =>
      FrameBounds(w, kind, min, max);
      FrameTakes(w, kind, min, max);
    case RecvHttp(maxHeader, maxBody, headersOnly, _, _, _, _) =>
      HttpBounds(w, maxHeader, maxBody, headersOnly);
      HttpTakes(w, maxHeader, maxBody, headersOnly);
  }

  lemma FitsCounts(sizes: seq<nat>, regs: nat, m: Machine)
    requires Fits(sizes, regs, m)
    ensures |m.bufs| == |sizes| && |m.regs| == regs
  {}

  lemma OthersTakeNothing(host: Host, op: I.Op, m: Machine)
    requires !Receiving(op) && ExecOp(host, op, m).Continue? && !op.Reconnect?
    ensures StreamOf(ExecOp(host, op, m).machine) == StreamOf(m) && Took(op, ExecOp(host, op, m).machine) == []
  {
    hide DataOf, PackValue, TransformBytes, Gather, Eval, EvalBool, HttpRequest.BuildRequest, ToU64,
      Sessions.ExtractNumber, ExtractCrc, ExtractDecimal;
  }

  /** Except for a reconnect, an operation takes exactly what it saves, from the front. */
  lemma OpTakes(host: Host, op: I.Op, sizes: seq<nat>, regs: nat, m: Machine)
    requires Fits(sizes, regs, m) && Scoped(op, |sizes|, regs) && Allowed(op, sizes)
    requires ExecOp(host, op, m).Continue? && !op.Reconnect?
    ensures var n := ExecOp(host, op, m).machine;
            StreamOf(m) == Took(op, n) + StreamOf(n) && |Took(op, n)| <= MayTake(op)
  {
    hide ExecOp, Fits, Scoped, Allowed, StreamOf, Took, MayTake;
    if Receiving(op) {
      ReceivingTakes(host, op, sizes, regs, m);
    } else {
      OthersTakeNothing(host, op, m);
      assert [] + StreamOf(m) == StreamOf(m);
    }
  }

  // ----- whole runs

  /** What the operations from `i` up to `j` took, in order. */
  function TookAll(ops: seq<I.Op>, n: Machine): Bytes {
    if ops == [] then [] else Took(ops[0], n) + TookAll(ops[1..], n)
  }

  function MayTakeAll(ops: seq<I.Op>): nat {
    if ops == [] then 0 else MayTake(ops[0]) + MayTakeAll(ops[1..])
  }

  predicate NoReconnect(ops: seq<I.Op>) {
    forall i :: 0 <= i < |ops| ==> !ops[i].Reconnect?
  }

  /** Later operations do not disturb what an earlier one saved. */
  lemma TookKept(op: I.Op, sizes: seq<nat>, regs: nat, n: Machine, later: Machine)
    requires Scoped(op, |sizes|, regs) && Keeps(n, later)
    requires Fits(sizes + NewSizes(op, sizes), regs + NewRegs(op), n)
    ensures Took(op, later) == Took(op, n)
  {
    hide PackNum, ExprScoped, CondScoped, Compiler.TransformBound, TotalOf;
    assert forall i :: 0 <= i < |n.bufs| ==> later.bufs[i] == later.bufs[..|n.bufs|][i];
    assert forall i :: 0 <= i < |n.regs| ==> later.regs[i] == later.regs[..|n.regs|][i];
  }

  lemma {:induction false} RunTakes(host: Host, ops: seq<I.Op>, sizes: seq<nat>, regs: nat, m: Machine, k: nat)
    requires Checked(ops, sizes, regs) && Fits(sizes, regs, m)
    requires k <= |ops| && StateAt(host, ops, m, k).Some? && NoReconnect(ops[..k])
    ensures var n := StateAt(host, ops, m, k).value;
            StreamOf(m) == TookAll(ops[..k], n) + StreamOf(n) && |TookAll(ops[..k], n)| <= MayTakeAll(ops[..k])
    decreases k
  {
    hide ExecOp, Fits, Scoped, Allowed, NewSizes, NewRegs, Keeps, Took, MayTake, StreamOf;
    var n := StateAt(host, ops, m, k).value;
    if k > 0 {
      assert ops[..k][0] == ops[0];
      assert ops[..k][1..] == ops[1..][..k - 1];
      var next := ExecOp(host, ops[0], m).machine;
      var moreSizes, moreRegs := sizes + NewSizes(ops[0], sizes), regs + NewRegs(ops[0]);
      OpBehaves(host, ops[0], sizes, regs, m);
      OpTakes(host, ops[0], sizes, regs, m);
      NoReconnectTail(ops[..k]);
      RunTakes(host, ops[1..], moreSizes, moreRegs, next, k - 1);
      CheckedRunFits(host, ops[1..], moreSizes, moreRegs, next, k - 1);
      TookKept(ops[0], sizes, regs, next, n);
      var rest := TookAll(ops[1..][..k - 1], n);
      assert Took(ops[0], n) + (rest + StreamOf(n)) == Took(ops[0], n) + rest + StreamOf(n);
    }
  }

  lemma NoReconnectTail(ops: seq<I.Op>)
    requires ops != [] && NoReconnect(ops)
    ensures NoReconnect(ops[1..]) && !ops[0].Reconnect?
  {
    assert forall i :: 0 <= i < |ops[1..]| ==> ops[1..][i] == ops[i + 1];
  }

  /**
   * Exact consumption on one connection. Between any two points of a run of a compiled probe with
   * no reconnect between them, the bytes the stream lost are exactly what the receiving operations
   * saved, in order and without gaps, and never more than the declared maxima and frame headers.
   */
  lemma CompiledRunConsumes(host: Host, doc: S.ProbeDocument, session: Session, i: nat, j: nat)
    requires Compiler.Compile(host.lib, doc).Some? && i <= j
    requires var p := Compiler.Compile(host.lib, doc).value;
             var start := Machine([], [], session);
             j <= |p.ops| && StateAt(host, p.ops, start, j).Some? && NoReconnect(p.ops[i..j])
    ensures var p := Compiler.Compile(host.lib, doc).value;
            var start := Machine([], [], session);
            StateAt(host, p.ops, start, i).Some? &&
            var m := StateAt(host, p.ops, start, i).value;
            var n := StateAt(host, p.ops, start, j).value;
            StreamOf(m) == TookAll(p.ops[i..j], n) + StreamOf(n) &&
            |TookAll(p.ops[i..j], n)| <= MayTakeAll(p.ops[i..j])
  {
    hide Compiler.Compile, ExecOp, StateAt, Checked, Scoped, Allowed, StreamOf, TookAll, MayTakeAll, NoReconnect;
    CompiledProbeChecked(host.lib, doc);
    var p := Compiler.Compile(host.lib, doc).value;
    var start := Machine([], [], session);
    StateSplits(host, p.ops, [], 0, start, i, j);
    var m := StateAt(host, p.ops, start, i).value;
    CheckedRunFits(host, p.ops, [], 0, start, i);
    var sizes, regs := SizesAfter(p.ops[..i], []), RegsAfter(p.ops[..i], 0);
    assert p.ops[i..][..j - i] == p.ops[i..j];
    RunTakes(host, p.ops[i..], sizes, regs, m, j - i);
  }

  lemma {:induction false} StateSplits(host: Host, ops: seq<I.Op>, sizes: seq<nat>, regs: nat, m: Machine, i: nat, j: nat)
    requires i <= j <= |ops| && StateAt(host, ops, m, j).Some? && Checked(ops, sizes, regs)
    ensures StateAt(host, ops, m, i).Some?
    ensures StateAt(host, ops, m, j) == StateAt(host, ops[i..], StateAt(host, ops, m, i).value, j - i)
    ensures Checked(ops[i..], SizesAfter(ops[..i], sizes), RegsAfter(ops[..i], regs))
    decreases i
  {
    hide ExecOp, Scoped, Allowed, NewSizes, NewRegs;
    if i == 0 {
      assert ops[0..] == ops;
    } else {
      assert ops[1..][i - 1..] == ops[i..];
      assert ops[..i][1..] == ops[1..][..i - 1];
      StateSplits(host, ops[1..], sizes + NewSizes(ops[0], sizes), regs + NewRegs(ops[0]),
                  ExecOp(host, ops[0], m).machine, i - 1, j - 1);
    }
  }

  // ----- failures and reconnects included

  lemma FrameTakesAtMost(w: Wire, kind: NumberKind, min: nat, max: nat)
    ensures 0 <= Lost(w, AfterFrame(w, kind, min, max)) <= kind.Size() + max
    ensures ReceiveFrame(w, kind, min, max).Ok? ==> ReceiveFrame(w, kind, min, max).value.rest == AfterFrame(w, kind, min, max)
  {
    hide ReadExact, AfterRead, ReadNumber, Length, NumberKind.Size, DataOf, Run;
    ReadTakesAtMost(w, kind.Size());
    SucceedsAfter(w, 0, kind.Size(), []);
    var header := ReadExact(w, kind.Size());
    if header.Ok? {
      var length := Length(ReadNumber(header.value.data, kind));
      ReadTakesAtMost(header.value.rest, length);
      SucceedsAfter(header.value.rest, 0, length, []);
    }
  }

  lemma HttpTakesAtMost(w: Wire, maxHeader: nat, maxBody: nat, headersOnly: bool)
    ensures 0 <= Lost(w, AfterHttp(w, maxHeader, maxBody, headersOnly)) <= maxHeader + maxBody
    ensures ReceiveHttp(w, maxHeader, maxBody, headersOnly).Ok? ==>
              ReceiveHttp(w, maxHeader, maxBody, headersOnly).value.rest == AfterHttp(w, maxHeader, maxBody, headersOnly)
  {
    hide ReadExact, ReadUpTo, ReadUntil, AfterRead, AfterUntil, HttpResponse.ParseHeader, DataOf, Run;
    UntilTakesAtMost(w, BLANK_LINE, maxHeader);
    SucceedsAfter(w, 0, maxHeader, BLANK_LINE);
    var header := ReadUntil(w, BLANK_LINE, maxHeader);
    if header.Ok? && HttpResponse.ParseHeader(header.value.data, maxBody).Ok? {
      HttpResponse.AcceptedBounds(header.value.data, maxBody);
      var length := HttpResponse.ParseHeader(header.value.data, maxBody).value.contentLength;
      var body := if length.Some? then length.value else maxBody;
      ReadTakesAtMost(header.value.rest, body);
      SucceedsAfter(header.value.rest, 1, body, []);
    }
  }

  /** An operation takes at most its declared maximum and its frame header, also when it fails. */
  lemma OpTakesAtMost(op: I.Op, w: Wire)
    ensures 0 <= Lost(w, WireAfter(op, w)) <= MayTake(op)
  {
    hide AfterRead, AfterUntil, AfterFrame, AfterHttp, DataOf, NumberKind.Size, Run;
    match op
    case RecvExact(length, _) => ReadTakesAtMost(w, length);
    case RecvUpTo(_, max, _) => ReadTakesAtMost(w, max);
    case RecvUntil(delimiter, max, _) => UntilTakesAtMost(w, delimiter, max);
    case RecvFrame(kind, min, max, _, _) => FrameTakesAtMost(w, kind, min, max);
    case RecvHttp(maxHeader, maxBody, headersOnly, _, _, _, _) => HttpTakesAtMost(w, maxHeader, maxBody, headersOnly);
    case _ =>
  }

  /** The stream an operation leaves when it continues is the one it leaves in any case. */
  lemma ContinuesAfter(host: Host, op: I.Op, m: Machine)
    requires ExecOp(host, op, m).Continue? && !op.Reconnect?
    ensures ExecOp(host, op, m).machine.session.conn.wire == WireAfter(op, m.session.conn.wire)
  {
    hide ExecOp, WireAfter;
    if Receiving(op) {
      ReceivesAfter(host, op, m);
    } else {
      OthersAfter(host, op, m);
    }
  }

  lemma ReceivesAfter(host: Host, op: I.Op, m: Machine)
    requires ExecOp(host, op, m).Continue? && Receiving(op)
    ensures ExecOp(host, op, m).machine.session.conn.wire == WireAfter(op, m.session.conn.wire)
  {
    hide ReadExact, ReadUpTo, ReadUntil, ReceiveFrame, ReceiveHttp, AfterRead, AfterUntil, AfterFrame, AfterHttp,
      SetBuf, SetReg, SendAll, HttpRequest.BuildRequest, TransformBytes, Eval, EvalBool, StatusValue, LengthValue, Joined;
    var w := m.session.conn.wire;
    match op
    case RecvExact(length, _) => SucceedsAfter(w, 0, length, []);
    case RecvUpTo(min, max, _) => SucceedsAfter(w, min, max, []);
    case RecvUntil(delimiter, max, _) => SucceedsAfter(w, 0, max, delimiter);
    case RecvFrame(kind, min, max, _, _) => FrameTakesAtMost(w, kind, min, max);
    case RecvHttp(maxHeader, maxBody, headersOnly, _, _, _, _) => HttpTakesAtMost(w, maxHeader, maxBody, headersOnly);
  }

  lemma OthersAfter(host: Host, op: I.Op, m: Machine)
    requires ExecOp(host, op, m).Continue? && !Receiving(op) && !op.Reconnect?
    ensures ExecOp(host, op, m).machine.session.conn.wire == WireAfter(op, m.session.conn.wire)
  {
    hide PackValue, TransformBytes, Gather, Eval, EvalBool, HttpRequest.BuildRequest, ToU64,
      Sessions.ExtractNumber, ExtractCrc, ExtractDecimal;
  }

  lemma {:induction false} TotalTakenAtMost(host: Host, ops: seq<I.Op>, m: Machine)
    ensures 0 <= TotalTaken(host, ops, m) <= MayTakeAll(ops)
  {
    hide ExecOp, WireAfter, MayTake, Lost;
    if ops != [] {
      OpTakesAtMost(ops[0], m.session.conn.wire);
      if ExecOp(host, ops[0], m).Continue? {
        TotalTakenAtMost(host, ops[1..], ExecOp(host, ops[0], m).machine);
      }
    }
  }

  // ----- what the document declares

  /** The most a step lets its probe read, from its own limits. */
  function Declares(a: S.Action): nat {
    match a
    case RecvExact(bytes, _) => bytes
    case RecvUpTo(_, maxBytes, _) => maxBytes
    case RecvUntil(_, maxBytes, _) => maxBytes
    case RecvFrame(kind, _, maxBytes, _, _) => kind.Size() + maxBytes
    case RecvHttp(maxHeader, maxBody, _, _, _, _, _) => maxHeader + maxBody
    case _ => 0
  }

  function DeclaresAll(steps: seq<S.Step>): nat
    requires forall i :: 0 <= i < |steps| ==> |steps[i].present| == 1
  {
    if steps == [] then 0 else Declares(steps[0].present[0]) + DeclaresAll(steps[1..])
  }

  ghost predicate Adds(u: Compiler.Unit, v: Compiler.Unit, most: nat) {
    exists op :: v.ops == u.ops + [op] && MayTake(op) == most
  }

  lemma SlotsAdd(u: Compiler.Unit, name: string, size: nat, op: I.Op)
    ensures Compiler.WithBuffer(u, name, size, op).Some? ==> Adds(u, Compiler.WithBuffer(u, name, size, op).value, MayTake(op))
    ensures Compiler.WithRegister(u, name, op).Some? ==> Adds(u, Compiler.WithRegister(u, name, op).value, MayTake(op))
  {
    hide MayTake;
    assert forall w: Compiler.Unit :: Compiler.Emit(w, op).ops == w.ops + [op];
  }

  lemma EmitAdds(u: Compiler.Unit, op: I.Op)
    ensures Adds(u, Compiler.Emit(u, op), MayTake(op))
  {
    hide MayTake;
    assert Compiler.Emit(u, op).ops == u.ops + [op];
  }

  lemma FrameAdds(a: S.Action, u: Compiler.Unit, v: Compiler.Unit)
    requires a.RecvFrame? && Compiler.CompileReceive(S.Tcp, a, u) == Some(v)
    ensures Adds(u, v, Declares(a))
  {
    hide NumberKind.Size;
    var op := I.RecvFrame(a.kind, a.minBytes, a.maxBytes, u.nextBuf, u.nextReg);
    assert v.ops == u.ops + [op] && MayTake(op) == Declares(a);
  }

  lemma ReplyAdds(a: S.Action, u: Compiler.Unit, v: Compiler.Unit)
    requires a.RecvHttp? && Compiler.CompileReceive(S.Tcp, a, u) == Some(v)
    ensures Adds(u, v, Declares(a))
  {
    var op := I.RecvHttp(a.maxHeader, a.maxBody, a.headersOnly, u.nextBuf, u.nextBuf + 1, u.nextReg, u.nextReg + 1);
    assert v.ops == u.ops + [op] && MayTake(op) == Declares(a);
  }

  lemma ReceiveAdds(kind: S.TransportType, a: S.Action, u: Compiler.Unit, v: Compiler.Unit)
    requires Compiler.CompileReceive(kind, a, u) == Some(v)
    ensures Adds(u, v, Declares(a))
  {
    hide Adds, Compiler.WithBuffer, Compiler.AddFrame, Compiler.AddReply, Encodings.ParseHex, NumberKind.Size;
    match a
    case RecvExact(bytes, saveAs) => SlotsAdd(u, saveAs, bytes, I.RecvExact(bytes, u.nextBuf));
    case RecvUpTo(min, max, saveAs) => SlotsAdd(u, saveAs, max, I.RecvUpTo(min, max, u.nextBuf));
    case RecvUntil(hex, max, saveAs) =>
      SlotsAdd(u, saveAs, max, I.RecvUntil(Encodings.ParseHex(hex).value, max, u.nextBuf));
    case RecvFrame(_, _, _, _, _) => FrameAdds(a, u, v);
    case RecvHttp(_, _, _, _, _, _, _) => ReplyAdds(a, u, v);
    case PeerCertificate(saveAs) => SlotsAdd(u, saveAs, 32, I.PeerCertificateSha256(u.nextBuf));
  }

  lemma BuildAdds(a: S.Action, u: Compiler.Unit, v: Compiler.Unit)
    requires Compiler.CompileBuild(a, u) == Some(v)
    ensures Adds(u, v, Declares(a))
  {
    hide Adds, Compiler.WithBuffer, Compiler.TotalSize, Compiler.TransformBound, Compiler.TransformAllowed, NumberKind.Size,
      NumberKind.Holds, Compiler.CompileExpr, Compiler.SourceIndexes, Meaning.KindOf;
    match a
    case Literal(name, text) => SlotsAdd(u, name, |text|, I.SetLiteral(text, u.nextBuf));
    case Pack(name, value, number, wrap) =>
      SlotsAdd(u, name, number.Size(), I.Pack(Compiler.CompileExpr(value, u.registers).value, number, wrap, u.nextBuf));
    case Concat(name, sources) =>
      var indexes := Compiler.SourceIndexes(u, sources).value;
      SlotsAdd(u, name, Compiler.TotalSize(u, indexes), I.Concat(indexes, u.nextBuf));
    case Transform(source, name, present) =>
      var src, k := Compiler.BufferIndex(u, source).value, Meaning.KindOf(present[0]).value;
      SlotsAdd(u, name, Compiler.TransformBound(k, Compiler.SizeOf(u, src)), I.Transform(src, u.nextBuf, k));
  }

  lemma ControlAdds(lib: Library, a: S.Action, u: Compiler.Unit, v: Compiler.Unit)
    requires Compiler.CompileControl(lib, a, u) == Some(v) && !Compiler.Receives(a) && !Compiler.Builds(a)
    ensures Adds(u, v, Declares(a))
  {
    hide Adds, Compiler.WithRegister, Compiler.CompileExpr, Compiler.CompileCondition, Compiler.CompileExtract,
      HttpRequest.ValidToken, HttpRequest.ValidPath, HttpRequest.ValidHeaders, S.IsBlank, S.IsConfidence, Encodings.ParseHex;
    match a
    case Extract(source, name, extract, offset, length) => ExtractAdds(a, u, v);
    case Compute(name, expr) =>
      SlotsAdd(u, name, 0, I.Compute(Compiler.CompileExpr(expr, u.registers).value, u.nextReg));
    case Match(condition, confidence, status) =>
      MatchAdds(lib, a, u, v);
    case Send(_, _) => SendAdds(lib, a, u, v);
    case SendHttp(_, _, _, _) => SendAdds(lib, a, u, v);
    case Reconnect => EmitAdds(u, I.Reconnect);
    case RejectIf(condition, status, confidence) =>
      EmitAdds(u, I.RejectIf(Compiler.CompileCondition(lib, condition, u).value, confidence, status));
  }

  lemma SendAdds(lib: Library, a: S.Action, u: Compiler.Unit, v: Compiler.Unit)
    requires (a.Send? || a.SendHttp?) && Compiler.CompileControl(lib, a, u) == Some(v)
    ensures Adds(u, v, 0)
  {
    hide HttpRequest.ValidToken, HttpRequest.ValidPath, HttpRequest.ValidHeaders, Encodings.ParseHex;
    assert v.ops == u.ops + [v.ops[|u.ops|]] && MayTake(v.ops[|u.ops|]) == 0;
  }

  lemma ExtractAdds(a: S.Action, u: Compiler.Unit, v: Compiler.Unit)
    requires a.Extract? && Compiler.BufferIndex(u, a.source).Some?
    requires var src := Compiler.BufferIndex(u, a.source).value;
             var op := Compiler.CompileExtract(a.extract, src, a.offset, a.length, Compiler.SizeOf(u, src), u.nextReg);
             op.Some? && Compiler.WithRegister(u, a.name, op.value) == Some(v)
    ensures Adds(u, v, 0)
  {
    hide Adds, Compiler.WithRegister;
    var src := Compiler.BufferIndex(u, a.source).value;
    SlotsAdd(u, a.name, 0,
      Compiler.CompileExtract(a.extract, src, a.offset, a.length, Compiler.SizeOf(u, src), u.nextReg).value);
  }

  lemma MatchAdds(lib: Library, a: S.Action, u: Compiler.Unit, v: Compiler.Unit)
    requires a.Match? && Compiler.CompileControl(lib, a, u) == Some(v)
    ensures Adds(u, v, 0)
  {
    hide Compiler.CompileCondition;
    var op := I.Match(Compiler.CompileCondition(lib, a.condition, u).value, a.matchConfidence, a.matchStatus);
    assert v.ops == u.ops + [op] && MayTake(op) == 0;
  }

  lemma StepDeclares(lib: Library, kind: S.TransportType, a: S.Action, u: Compiler.Unit, v: Compiler.Unit)
    requires Compiler.CompileAction(lib, kind, a, u) == Some(v)
    ensures MayTakeAll(v.ops) == MayTakeAll(u.ops) + Declares(a)
  {
    hide Compiler.CompileReceive, Compiler.CompileBuild, Compiler.CompileControl, Declares, MayTake;
    if Compiler.Receives(a) {
      ReceiveAdds(kind, a, u, v);
    } else if Compiler.Builds(a) {
      BuildAdds(a, u, v);
    } else {
      ControlAdds(lib, a, u, v);
    }
    var op :| v.ops == u.ops + [op] && MayTake(op) == Declares(a);
    MayTakeOneMore(u.ops, op);
  }

  lemma {:induction false} MayTakeOneMore(ops: seq<I.Op>, op: I.Op)
    ensures MayTakeAll(ops + [op]) == MayTakeAll(ops) + MayTake(op)
  {
    if ops == [] {
      assert [op][1..] == [];
    } else {
      assert (ops + [op])[1..] == ops[1..] + [op];
      MayTakeOneMore(ops[1..], op);
    }
  }

  lemma {:induction false} StepsDeclare(lib: Library, kind: S.TransportType, steps: seq<S.Step>, u: Compiler.Unit)
    requires Compiler.CompileSteps(lib, kind, steps, u).Some?
    ensures forall i :: 0 <= i < |steps| ==> |steps[i].present| == 1
    ensures MayTakeAll(Compiler.CompileSteps(lib, kind, steps, u).value.ops) == MayTakeAll(u.ops) + DeclaresAll(steps)
  {
    hide Compiler.CompileAction, MayTakeAll, Declares;
    if steps != [] {
      var v := Compiler.CompileStep(lib, kind, steps[0], u).value;
      StepDeclares(lib, kind, steps[0].present[0], u, v);
      StepsDeclare(lib, kind, steps[1..], v);
      assert forall i :: 1 <= i < |steps| ==> steps[i] == steps[1..][i - 1];
    }
  }

  /**
   * Every run of a compiled probe, over all its connections and whether it completes, is rejected
   * or fails, takes at most the maxima its document declares and the headers of its frames.
   */
  lemma CompiledRunTakesAtMost(host: Host, doc: S.ProbeDocument, dials: seq<Dial>)
    requires Compiler.Compile(host.lib, doc).Some?
    ensures forall i :: 0 <= i < |doc.steps| ==> |doc.steps[i].present| == 1
    ensures MayTakeAll(Compiler.Compile(host.lib, doc).value.ops) == DeclaresAll(doc.steps)
    ensures Opened(dials).Ok? ==>
              var p := Compiler.Compile(host.lib, doc).value;
              0 <= TotalTaken(host, p.ops, Machine([], [], Opened(dials).value)) <= DeclaresAll(doc.steps)
  {
    hide Compiler.CompileSteps, Compiler.CompileFields, Compiler.Sum, TotalTaken, Opened, DeclaresAll;
    StepsDeclare(host.lib, doc.transport.kind, doc.steps, Compiler.EMPTY_UNIT);
    if Opened(dials).Ok? {
      TotalTakenAtMost(host, Compiler.Compile(host.lib, doc).value.ops, Machine([], [], Opened(dials).value));
    }
  }
}
