/** Soundness of the static analysis over every run, for every peer. */
module Soundness {
  import opened Wrappers
  import opened Words
  import opened Transport
  import opened HttpRequest
  import opened Sessions
  import opened StaticAnalysis
  import HttpResponse
  import HttpText
  import Encodings
  import MsgPack
  import Rc4
  import Compiler
  import I = Ir
  import opened X = Executor

  /** The machine has exactly the slots defined so far, and no buffer exceeds its static size. */
  ghost predicate Fits(sizes: seq<nat>, regs: nat, m: Machine) {
    && |m.bufs| == |sizes| && |m.regs| == regs
    && forall i :: 0 <= i < |sizes| ==> |m.bufs[i]| <= sizes[i]
  }

  /** What `n` still holds of `m`: slots are only ever added. */
  ghost predicate Keeps(m: Machine, n: Machine) {
    && |m.bufs| <= |n.bufs| && n.bufs[..|m.bufs|] == m.bufs
    && |m.regs| <= |n.regs| && n.regs[..|m.regs|] == m.regs
  }

  // ----- bounds of what is received and built

  lemma ReadBounds(w: Wire, min: nat, max: nat, delimiter: Bytes)
    ensures var r := ReadExact(w, max); if r.Ok? then |r.value.data| == max else r.error != InternalError
    ensures var r := ReadUpTo(w, min, max); if r.Ok? then min <= |r.value.data| <= max else r.error != InternalError
    ensures var r := ReadUntil(w, delimiter, max); if r.Ok? then |r.value.data| <= max else r.error != InternalError
  {
    hide Run, FirstEnd;
  }

  lemma FrameBounds(w: Wire, kind: NumberKind, min: nat, max: nat)
    ensures var r := ReceiveFrame(w, kind, min, max);
            if r.Ok? then min <= |r.value.body| <= max else r.error != InternalError
  {
    hide ReadExact, ReadNumber, Length, NumberKind.Size;
    ReadBounds(w, 0, kind.Size(), []);
    if ReadExact(w, kind.Size()).Ok? {
      var header := ReadExact(w, kind.Size()).value;
      ReadBounds(header.rest, 0, Length(ReadNumber(header.data, kind)), []);
    }
  }

  lemma HttpBounds(w: Wire, maxHeader: nat, maxBody: nat, headersOnly: bool)
    ensures var r := ReceiveHttp(w, maxHeader, maxBody, headersOnly);
            if r.Ok? then |r.value.header| <= maxHeader && |r.value.body| <= maxBody else r.error != InternalError
  {
    hide ReadExact, ReadUntil, ReadUpTo, HttpResponse.ParseHeader;
    ReadBounds(w, 0, maxHeader, BLANK_LINE);
    var r := ReadUntil(w, BLANK_LINE, maxHeader);
    if r.Ok? {
      var parsed := HttpResponse.ParseHeader(r.value.data, maxBody);
      if parsed.Ok? {
        HttpResponse.AcceptedBounds(r.value.data, maxBody);
        if parsed.value.contentLength.Some? {
          ReadBounds(r.value.rest, 0, parsed.value.contentLength.value, []);
        } else {
          ReadBounds(r.value.rest, 1, maxBody, []);
        }
      }
    }
  }

  lemma MsgpackWithin(data: Bytes, wanted: Bytes)
    ensures var r := MsgPack.MsgpackString(data, wanted); r.Some? ==> |r.value| <= |data|
  {
    if MsgPack.MsgpackString(data, wanted).Some? {
      var s := MsgPack.Scan(data[1..], None);
      ScanWithin(wanted, data[0] as int - 0x80, s, |data|);
    }
  }

  lemma {:induction false} ScanWithin(wanted: Bytes, count: nat, s: MsgPack.Scan, limit: nat)
    requires |s.rest| <= limit && (s.found.Some? ==> |s.found.value| <= limit)
    ensures var r := MsgPack.ScanPairs(wanted, count, s);
            r.Some? && r.value.found.Some? ==> |r.value.found.value| <= limit
    decreases count
  {
    hide MsgPack.ScanPair;
    if count > 0 && MsgPack.ScanPair(wanted, s).Some? {
      PairWithin(wanted, s);
      ScanWithin(wanted, count - 1, MsgPack.ScanPair(wanted, s).value, limit);
    }
  }

  lemma PairWithin(wanted: Bytes, s: MsgPack.Scan)
    requires MsgPack.ScanPair(wanted, s).Some?
    ensures var t := MsgPack.ScanPair(wanted, s).value;
            |t.rest| <= |s.rest| && (t.found == s.found || (t.found.Some? && |t.found.value| <= |s.rest|))
  {
    hide MsgPack.TakeString;
    var key := MsgPack.TakeString(s.rest).value;
    TakenWithin(s.rest);
    TakenWithin(key.rest);
  }

  lemma TakenWithin(input: Bytes)
    requires MsgPack.TakeString(input).Some?
    ensures var t := MsgPack.TakeString(input).value; |t.value| <= |input| && |t.rest| <= |input|
  {}

  lemma TransformBounds(lib: Library, source: Bytes, k: I.TransformKind, size: nat)
    requires |source| <= size
    ensures var r := TransformBytes(lib, source, k);
            if r.Ok? then |r.value| <= Compiler.TransformBound(k, size) else r.error == InvalidResponse
    ensures (k.Base64Encode? || k.Rc4?) && |source| == size ==>
            TransformBytes(lib, source, k).Ok? && |TransformBytes(lib, source, k).value| == Compiler.TransformBound(k, size)
    ensures k.AsciiHexDecode? && |source| == size && TransformBytes(lib, source, k).Ok? ==>
            |TransformBytes(lib, source, k).value| == Compiler.TransformBound(k, size)
  {
    hide Encodings.HexDecode, Encodings.Base64Decode, Encodings.Base64Encode, Encodings.DropSpaces, Rc4.Rc4,
      MsgPack.MsgpackString;
    MsgpackWithin(source, if k.MsgpackString? then k.wanted else []);
    Quotients(|source|, size);
  }

  lemma Quotients(a: nat, b: nat)
    requires a <= b
    ensures a / 2 <= b / 2 && (a + 2) / 3 * 4 <= (b + 2) / 3 * 4
  {}

  lemma {:induction false} GatherBounds(m: Machine, sources: seq<nat>, sizes: seq<nat>, regs: nat)
    requires Fits(sizes, regs, m) && forall s :: s in sources ==> s < |sizes|
    ensures Gather(m, sources).Ok? && |Gather(m, sources).value| <= TotalOf(sources, sizes)
    ensures (forall s :: s in sources ==> |m.bufs[s]| == sizes[s]) ==>
            |Gather(m, sources).value| == TotalOf(sources, sizes)
  {
    if sources != [] {
      assert sources[0] in sources;
      assert forall s :: s in sources[1..] ==> s in sources;
      GatherBounds(m, sources[1..], sizes, regs);
    }
  }

  // ----- one operation

  lemma AddsBuffer(sizes: seq<nat>, regs: nat, m: Machine, data: Bytes, size: nat)
    requires Fits(sizes, regs, m) && |data| <= size
    ensures var n := SetBuf(m, |sizes|, data);
            Fits(sizes + [size], regs, n) && Keeps(m, n) && n.bufs[|sizes|] == data
  {}

  lemma AddsRegister(sizes: seq<nat>, regs: nat, m: Machine, value: u64)
    requires Fits(sizes, regs, m)
    ensures var n := SetReg(m, regs, value); Fits(sizes, regs + 1, n) && Keeps(m, n)
  {}

  lemma SessionAside(sizes: seq<nat>, regs: nat, m: Machine, n: Machine, s: Session)
    requires Fits(sizes, regs, n) && Keeps(m, n)
    ensures Fits(sizes, regs, n.(session := s)) && Keeps(m, n.(session := s))
  {}

  lemma KeepsOn(a: Machine, b: Machine, c: Machine)
    requires Keeps(a, b) && Keeps(b, c)
    ensures Keeps(a, c)
  {
    assert c.bufs[..|a.bufs|] == c.bufs[..|b.bufs|][..|a.bufs|];
    assert c.regs[..|a.regs|] == c.regs[..|b.regs|][..|a.regs|];
  }

  /** A computed value that does not fit and may not be truncated. */
  predicate Overflows(expr: I.ValueExpr, kind: NumberKind, wrap: bool, regs: seq<u64>) {
    !expr.Literal? && !wrap && !kind.Holds(Eval(expr, regs))
  }

  /**
   * Why an operation of a compiled probe can fail with an internal error: a packed value that was
   * computed and does not fit, a request above 1 MiB, or the set-up of a new connection.
   */
  ghost predicate InternalCause(host: Host, op: I.Op, m: Machine) {
    match op
    case Pack(expr, kind, wrap, _) => Overflows(expr, kind, wrap, m.regs)
    case SendHttp(verb, path, headers, bodySrc) =>
      var body := BodyOf(m, bodySrc);
      body.Ok? && BuildRequest(host.ipText, verb, path, headers, body.value).Err?
    case Reconnect => m.session.dials != [] && m.session.dials[0] == Unreachable(InternalError)
    case _ => false
  }

  /** What one operation does to a machine that fits. */
  ghost predicate Behaves(host: Host, op: I.Op, sizes: seq<nat>, regs: nat, m: Machine) {
    var p := ExecOp(host, op, m);
    && (p.Continue? ==> Fits(sizes + NewSizes(op, sizes), regs + NewRegs(op), p.machine) && Keeps(m, p.machine))
    && (p == Fail(InternalError) <==> InternalCause(host, op, m))
  }

  lemma ReceiveBehaves(host: Host, op: I.Op, sizes: seq<nat>, regs: nat, m: Machine)
    requires Fits(sizes, regs, m) && Scoped(op, |sizes|, regs) && Allowed(op, sizes)
    requires op.RecvExact? || op.RecvUpTo? || op.RecvUntil?
    ensures Behaves(host, op, sizes, regs, m)
  {
    hide ReadExact, ReadUpTo, ReadUntil, SetBuf, Fits, Keeps;
    var w := m.session.conn.wire;
    match op
    case RecvExact(length, _) =>
      ReadBounds(w, 0, length, []);
      if ReadExact(w, length).Ok? {
        StoresReceived(sizes, regs, m, ReadExact(w, length).value, length);
      }
    case RecvUpTo(min, max, _) =>
      ReadBounds(w, min, max, []);
      if ReadUpTo(w, min, max).Ok? {
        StoresReceived(sizes, regs, m, ReadUpTo(w, min, max).value, max);
      }
    case RecvUntil(delimiter, max, _) =>
      ReadBounds(w, 0, max, delimiter);
      if ReadUntil(w, delimiter, max).Ok? {
        StoresReceived(sizes, regs, m, ReadUntil(w, delimiter, max).value, max);
      }
  }

  lemma FrameBehaves(host: Host, op: I.Op, sizes: seq<nat>, regs: nat, m: Machine)
    requires Fits(sizes, regs, m) && Scoped(op, |sizes|, regs) && Allowed(op, sizes) && op.RecvFrame?
    ensures Behaves(host, op, sizes, regs, m)
  {
    hide ReceiveFrame, SetBuf, SetReg, Fits, Keeps;
    var w := m.session.conn.wire;
    FrameBounds(w, op.kind, op.min, op.max);
    var r := ReceiveFrame(w, op.kind, op.min, op.max);
    if r.Ok? {
      AddsBuffer(sizes, regs, m, r.value.body, op.max);
      var a := SetBuf(m, op.dst, r.value.body);
      AddsRegister(sizes + [op.max], regs, a, r.value.length);
      var b := SetReg(a, op.lengthDst, r.value.length);
      KeepsOn(m, a, b);
      SessionAside(sizes + [op.max], regs + 1, m, b, Heard(m.session, r.value.rest));
    }
  }

  lemma CertificateBehaves(host: Host, op: I.Op, sizes: seq<nat>, regs: nat, m: Machine)
    requires Fits(sizes, regs, m) && Scoped(op, |sizes|, regs) && op.PeerCertificateSha256?
    ensures Behaves(host, op, sizes, regs, m)
  {
    hide SetBuf, Fits, Keeps;
    if m.session.conn.certificate.Some? {
      AddsBuffer(sizes, regs, m, m.session.conn.certificate.value, 32);
      SessionAside(sizes + [32], regs, m, SetBuf(m, op.dst, m.session.conn.certificate.value),
                   m.session.(responsive := true));
    }
  }

  lemma StoresReceived(sizes: seq<nat>, regs: nat, m: Machine, taken: Taken, size: nat)
    requires Fits(sizes, regs, m) && |taken.data| <= size
    ensures var p := Store(m, |sizes|, Ok(taken));
            p.Continue? && Fits(sizes + [size], regs, p.machine) && Keeps(m, p.machine)
  {
    AddsBuffer(sizes, regs, m, taken.data, size);
  }

  lemma HttpBehaves(host: Host, op: I.Op, sizes: seq<nat>, regs: nat, m: Machine)
    requires Fits(sizes, regs, m) && Scoped(op, |sizes|, regs) && op.RecvHttp?
    ensures Behaves(host, op, sizes, regs, m)
  {
    hide ReceiveHttp, SetBuf, SetReg, Fits, Keeps, StatusValue, LengthValue;
    var w := m.session.conn.wire;
    HttpBounds(w, op.maxHeader, op.maxBody, op.headersOnly);
    var r := ReceiveHttp(w, op.maxHeader, op.maxBody, op.headersOnly);
    if r.Ok? {
      AddsBuffer(sizes, regs, m, r.value.header, op.maxHeader);
      var a := SetBuf(m, op.headerDst, r.value.header);
      var sizes1 := sizes + [op.maxHeader];
      AddsBuffer(sizes1, regs, a, r.value.body, op.maxBody);
      var b := SetBuf(a, op.bodyDst, r.value.body);
      var sizes2 := sizes1 + [op.maxBody];
      KeepsOn(m, a, b);
      AddsRegister(sizes2, regs, b, StatusValue(r.value.response));
      var c := SetReg(b, op.statusDst, StatusValue(r.value.response));
      KeepsOn(m, b, c);
      AddsRegister(sizes2, regs + 1, c, LengthValue(r.value.response));
      var d := SetReg(c, op.contentLengthDst, LengthValue(r.value.response));
      KeepsOn(m, c, d);
      SessionAside(sizes2, regs + 2, m, d, Heard(m.session, r.value.rest));
      assert sizes2 == sizes + [op.maxHeader, op.maxBody];
    }
  }

  lemma LiteralBehaves(host: Host, op: I.Op, sizes: seq<nat>, regs: nat, m: Machine)
    requires Fits(sizes, regs, m) && Scoped(op, |sizes|, regs) && op.SetLiteral?
    ensures Behaves(host, op, sizes, regs, m)
  {
    hide SetBuf, Keeps, Fits;
    AddsBuffer(sizes, regs, m, op.data, |op.data|);
  }

  lemma PackBehaves(host: Host, op: I.Op, sizes: seq<nat>, regs: nat, m: Machine)
    requires Fits(sizes, regs, m) && Scoped(op, |sizes|, regs) && Allowed(op, sizes) && op.Pack?
    ensures Behaves(host, op, sizes, regs, m)
  {
    PackKeepsFit(host, op, sizes, regs, m);
    PackFailure(host, op, sizes, m);
    hide ExecOp, Fits, Keeps, Scoped, Allowed, InternalCause;
  }

  lemma PackKeepsFit(host: Host, op: I.Op, sizes: seq<nat>, regs: nat, m: Machine)
    requires Fits(sizes, regs, m) && Scoped(op, |sizes|, regs) && op.Pack?
    ensures var p := ExecOp(host, op, m);
            p.Continue? ==> Fits(sizes + NewSizes(op, sizes), regs + NewRegs(op), p.machine) && Keeps(m, p.machine)
  {
    hide SetBuf, Keeps, Fits, Eval, ExprScoped, NumberKind.Holds, NumberKind.Size;
    PackOutcome(Eval(op.expr, m.regs), op.kind, op.wrap);
    PackRuns(host, op, m);
    hide PackValue, ExecOp;
    var r := PackValue(Eval(op.expr, m.regs), op.kind, op.wrap);
    if r.Ok? {
      AddsBuffer(sizes, regs, m, r.value, op.kind.Size());
    }
  }

  lemma PackFailure(host: Host, op: I.Op, sizes: seq<nat>, m: Machine)
    requires Allowed(op, sizes) && op.Pack?
    ensures ExecOp(host, op, m) == Fail(InternalError) <==> InternalCause(host, op, m)
  {
    match op
    case Pack(expr, kind, wrap, _) =>
      PackOverflow(expr, kind, wrap, m.regs);
      PackRuns(host, op, m);
      hide PackValue, ExecOp, SetBuf, LiteralFits, Overflows, Eval;
  }

  lemma PackOverflow(expr: I.ValueExpr, kind: NumberKind, wrap: bool, regs: seq<u64>)
    requires LiteralFits(expr, kind, wrap)
    ensures PackValue(Eval(expr, regs), kind, wrap) == Err(InternalError) <==> Overflows(expr, kind, wrap, regs)
  {
    hide Eval, PackNum, NumberKind.Holds;
    LiteralEval(expr, regs);
  }

  lemma PackRuns(host: Host, op: I.Op, m: Machine)
    requires op.Pack?
    ensures ExecOp(host, op, m) == ToBuffer(m, op.dst, PackValue(Eval(op.expr, m.regs), op.kind, op.wrap))
  {
    hide ToBuffer, PackValue, Eval;
  }

  lemma PackOutcome(value: u64, kind: NumberKind, wrap: bool)
    ensures var r := PackValue(value, kind, wrap);
            if r.Ok? then |r.value| == kind.Size() else r.error == InternalError
  {
    hide PackNum, NumberKind.Holds;
  }

  lemma ConcatBehaves(host: Host, op: I.Op, sizes: seq<nat>, regs: nat, m: Machine)
    requires Fits(sizes, regs, m) && Scoped(op, |sizes|, regs) && Allowed(op, sizes) && op.Concat?
    ensures Behaves(host, op, sizes, regs, m)
  {
    hide SetBuf, Keeps, Fits, Gather, TotalOf;
    GatherBounds(m, op.sources, sizes, regs);
    AddsBuffer(sizes, regs, m, Gather(m, op.sources).value, TotalOf(op.sources, sizes));
  }

  lemma TransformBehaves(host: Host, op: I.Op, sizes: seq<nat>, regs: nat, m: Machine)
    requires Fits(sizes, regs, m) && Scoped(op, |sizes|, regs) && op.Transform?
    ensures Behaves(host, op, sizes, regs, m)
  {
    BufferInRange(sizes, regs, m, op.src);
    hide SetBuf, Keeps, Fits, TransformBytes, Compiler.TransformBound;
    TransformBounds(host.lib, m.bufs[op.src], op.transform, sizes[op.src]);
    var r := TransformBytes(host.lib, m.bufs[op.src], op.transform);
    if r.Ok? {
      AddsBuffer(sizes, regs, m, r.value, Compiler.TransformBound(op.transform, sizes[op.src]));
    }
  }

  lemma BufferInRange(sizes: seq<nat>, regs: nat, m: Machine, src: nat)
    requires Fits(sizes, regs, m) && src < |sizes|
    ensures src < |m.bufs| && |m.bufs[src]| <= sizes[src]
  {}

  lemma LiteralEval(e: I.ValueExpr, regs: seq<u64>)
    ensures e.Literal? ==> Eval(e, regs) == e.value
  {}

  lemma ControlBehaves(host: Host, op: I.Op, sizes: seq<nat>, regs: nat, m: Machine)
    requires Fits(sizes, regs, m) && Scoped(op, |sizes|, regs) && Allowed(op, sizes)
    requires op.SendLiteral? || op.SendBuffer? || op.SendHttp? || op.Reconnect? || op.RejectIf? || op.Match?
    ensures Behaves(host, op, sizes, regs, m)
  {
    hide SendAll, BuildRequest, EvalBool, ValidToken, ValidPath, ValidHeaders, CondScoped;
    SendsNeverInternal(m.session);
    BuildFailsInternally(host.ipText);
    assert sizes + [] == sizes;
  }

  lemma SendsNeverInternal(s: Session)
    ensures forall data :: SendAll(s, data).Err? ==> SendAll(s, data).error != InternalError
  {}

  lemma BuildFailsInternally(ip: Bytes)
    ensures forall verb, path, headers, body :: BuildRequest(ip, verb, path, headers, body).Err? ==>
              BuildRequest(ip, verb, path, headers, body).error == InternalError
  {}

  lemma ExtractBehaves(host: Host, op: I.Op, sizes: seq<nat>, regs: nat, m: Machine)
    requires Fits(sizes, regs, m) && Scoped(op, |sizes|, regs)
    requires op.Extract? || op.Crc32? || op.AsciiDecimal?
    ensures Behaves(host, op, sizes, regs, m)
  {
    hide Sessions.ExtractNumber, ExtractCrc, ExtractDecimal, SetReg, Keeps, Fits;
    assert sizes + [] == sizes;
    BufferInRange(sizes, regs, m, op.src);
    var s := m.bufs[op.src];
    ExtractsFailAsResponses(host.lib, s, op.offset, if op.Extract? then 0 else op.length, if op.Extract? then op.kind else U8);
    var r := if op.Extract? then Sessions.ExtractNumber(s, op.offset, op.kind)
             else if op.Crc32? then ExtractCrc(host.lib, s, op.offset, op.length)
             else ExtractDecimal(s, op.offset, op.length);
    if r.Ok? {
      AddsRegister(sizes, regs, m, r.value);
    }
  }

  lemma ComputeBehaves(host: Host, op: I.Op, sizes: seq<nat>, regs: nat, m: Machine)
    requires Fits(sizes, regs, m) && Scoped(op, |sizes|, regs)
    requires op.BufferLen? || op.Compute?
    ensures Behaves(host, op, sizes, regs, m)
  {
    hide Eval, ToU64, SetReg, Keeps, Fits, ExprScoped;
    assert sizes + [] == sizes;
    if op.BufferLen? {
      BufferInRange(sizes, regs, m, op.src);
      AddsRegister(sizes, regs, m, ToU64(|m.bufs[op.src]|));
    } else {
      AddsRegister(sizes, regs, m, Eval(op.expr, m.regs));
    }
  }

  lemma ExtractsFailAsResponses(lib: Library, s: Bytes, offset: nat, length: nat, kind: NumberKind)
    ensures var r := Sessions.ExtractNumber(s, offset, kind);
            if r.Ok? then true else r.error == InvalidResponse && |s| < offset + kind.Size()
    ensures var r := ExtractCrc(lib, s, offset, length);
            if r.Ok? then true else r.error == InvalidResponse && |s| < offset + length
    ensures ExtractDecimal(s, offset, length).Err? ==> ExtractDecimal(s, offset, length).error == InvalidResponse
  {
    hide ReadNumber, ToU64, HttpText.ParseUnsigned;
  }

  /** Every checked operation behaves, whatever the peer does. */
  lemma OpBehaves(host: Host, op: I.Op, sizes: seq<nat>, regs: nat, m: Machine)
    requires Fits(sizes, regs, m) && Scoped(op, |sizes|, regs) && Allowed(op, sizes)
    ensures Behaves(host, op, sizes, regs, m)
  {
    hide Fits, Scoped, Allowed, Behaves;
    if op.RecvHttp? {
      HttpBehaves(host, op, sizes, regs, m);
    } else if op.RecvExact? || op.RecvUpTo? || op.RecvUntil? {
      ReceiveBehaves(host, op, sizes, regs, m);
    } else if op.RecvFrame? {
      FrameBehaves(host, op, sizes, regs, m);
    } else if op.PeerCertificateSha256? {
      CertificateBehaves(host, op, sizes, regs, m);
    } else if op.SetLiteral? {
      LiteralBehaves(host, op, sizes, regs, m);
    } else if op.Pack? {
      PackBehaves(host, op, sizes, regs, m);
    } else if op.Concat? {
      ConcatBehaves(host, op, sizes, regs, m);
    } else if op.Transform? {
      TransformBehaves(host, op, sizes, regs, m);
    } else if op.Extract? || op.Crc32? || op.AsciiDecimal? {
      ExtractBehaves(host, op, sizes, regs, m);
    } else if op.BufferLen? || op.Compute? {
      ComputeBehaves(host, op, sizes, regs, m);
    } else {
      ControlBehaves(host, op, sizes, regs, m);
    }
  }
}
