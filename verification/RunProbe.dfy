/**
 * The executor as it runs: a loop over the operations that mutates its connection, buffers and
 * registers, against a peer whose bytes arrive in arbitrary chunks.
 */
module RunProbe {
  import opened Wrappers
  import opened Words
  import opened Transport
  import opened HttpRequest
  import opened Sessions
  import opened Ir
  import opened X = Executor
  import opened Consumption
  import HttpResponse
  import MsgPack
  import Rc4

  /** A connection attempt, with the peer's bytes as the socket will deliver them. */
  datatype Attempt =
    | NoAnswer(failure: Failure)
    | Answer(events: seq<Event>, ending: Transport.Ending, sendFaults: seq<Option<IoKind>>, certificate: Option<Digest>)

  function ViewOf(a: Attempt): Dial {
    match a
    case NoAnswer(failure) => Unreachable(failure)
    case Answer(events, ending, sendFaults, certificate) =>
      Connected(Conn(Wire(Flatten(events), ending), sendFaults, certificate))
  }

  function Views(attempts: seq<Attempt>): (r: seq<Dial>)
    ensures |r| == |attempts|
  {
    if attempts == [] then [] else [ViewOf(attempts[0])] + Views(attempts[1..])
  }

  class Connection {
    const stream: PeerStream
    var sendFaults: seq<Option<IoKind>>
    const certificate: Option<Digest>

    constructor (events: seq<Event>, ending: Transport.Ending, sendFaults: seq<Option<IoKind>>, certificate: Option<Digest>)
      ensures fresh(stream)
      ensures View() == Conn(Wire(Flatten(events), ending), sendFaults, certificate)
    {
      this.stream := new PeerStream(events, ending);
      this.sendFaults := sendFaults;
      this.certificate := certificate;
    }

    ghost function View(): Conn
      reads this, stream
    {
      Conn(stream.View(), sendFaults, certificate)
    }

    /** `send_all`: the failure, if any. */
    method Send(data: Bytes) returns (r: Option<Failure>)
      modifies this
      ensures stream.View() == old(stream.View())
      ensures if old(sendFaults) != [] && old(sendFaults)[0].Some?
              then r == Some(FromIo(old(sendFaults)[0].value))
              else r == None && sendFaults == if old(sendFaults) == [] then [] else old(sendFaults)[1..]
    {
      if sendFaults == [] {
        return None;
      }
      var fault := sendFaults[0];
      if fault.Some? {
        return Some(FromIo(fault.value));
      }
      sendFaults := sendFaults[1..];
      return None;
    }
  }

  method Dial(attempts: seq<Attempt>) returns (r: Result<Connection, Failure>)
    ensures match Connect(Views(attempts))
            case Err(f) => r == Err(f)
            case Ok((conn, rest)) =>
              r.Ok? && fresh(r.value) && fresh(r.value.stream) && r.value.View() == conn &&
              attempts != [] && rest == Views(attempts[1..])
  {
    if attempts == [] {
      return Err(ConnectTimeout);
    }
    match attempts[0]
    case NoAnswer(failure) => return Err(failure);
    case Answer(events, ending, sendFaults, certificate) =>
      var c := new Connection(events, ending, sendFaults, certificate);
      return Ok(c);
  }

  /** The local variables of `run`. */
  datatype Vars = Vars(
    bufs: seq<Bytes>,
    regs: seq<u64>,
    sent: seq<Bytes>,
    responsive: bool,
    matched: bool,
    confidence: Option<real>,
    status: Option<string>)

  ghost function MachineOf(v: Vars, conn: Conn, dials: seq<Dial>): Machine {
    Machine(v.bufs, v.regs, Session(conn, dials, v.sent, v.responsive, v.matched, v.confidence, v.status))
  }

  /** What one pass through the loop does. */
  datatype Pass = Went(v: Vars) | Stopped(confidence: real, status: string) | Broke(failure: Failure)

  ghost predicate Mirrors(r: Pass, p: Progress<Machine>, conn: Conn, dials: seq<Dial>) {
    match p
    case Continue(n) => r.Went? && MachineOf(r.v, conn, dials) == n
    case Reject(confidence, status) => r == Stopped(confidence, status)
    case Fail(f) => r == Broke(f)
  }

  lemma MirrorsWhat(p: Progress<Machine>)
    ensures p.Continue? ==> forall v, conn, dials :: MachineOf(v, conn, dials) == p.machine ==> Mirrors(Went(v), p, conn, dials)
    ensures p.Fail? ==> forall conn, dials :: Mirrors(Broke(p.failure), p, conn, dials)
  {}

  lemma WireOfMachine(v: Vars, conn: Conn, dials: seq<Dial>)
    ensures MachineOf(v, conn, dials).session.conn.wire == conn.wire
  {}

  function Kept(v: Vars, dst: nat, data: Bytes): Vars {
    v.(bufs := Put(v.bufs, dst, data, []))
  }

  function Noted(v: Vars, dst: nat, value: u64): Vars {
    v.(regs := Put(v.regs, dst, value, 0))
  }

  predicate IsReceive(op: Op) {
    op.RecvExact? || op.RecvUpTo? || op.RecvUntil?
  }

  function ReadOf(op: Op, w: Wire): Result<Taken, Failure>
    requires IsReceive(op)
  {
    match op
    case RecvExact(length, _) => ReadExact(w, length)
    case RecvUpTo(min, max, _) => ReadUpTo(w, min, max)
    case RecvUntil(delimiter, max, _) => ReadUntil(w, delimiter, max)
  }

  lemma ReceiveIs(host: Host, op: Op, m: Machine)
    requires IsReceive(op)
    ensures ExecOp(host, op, m) == Store(m, op.dst, ReadOf(op, m.session.conn.wire))
  {
    hide ReadExact, ReadUpTo, ReadUntil, Store;
  }

  lemma ReadLeaves(op: Op, w: Wire)
    requires IsReceive(op) && ReadOf(op, w).Ok?
    ensures ReadOf(op, w).value.rest == WireAfter(op, w)
  {
    SucceedsAfter(w, if op.RecvUpTo? then op.min else 0, if op.RecvExact? then op.length else op.max,
                  if op.RecvUntil? then op.delimiter else []);
    hide ReadExact, ReadUpTo, ReadUntil, AfterRead, AfterUntil;
  }

  method Receive(op: Op, v: Vars, io: Connection, ghost host: Host, ghost dials: seq<Dial>) returns (r: Pass)
    requires IsReceive(op)
    modifies io.stream
    ensures Mirrors(r, ExecOp(host, op, MachineOf(v, old(io.View()), dials)), io.View(), dials)
    ensures io.stream.View() == WireAfter(op, old(io.stream.View()))
  {
    hide ExecOp, WireAfter;
    ghost var m := MachineOf(v, io.View(), dials);
    ReceiveIs(host, op, m);
    var got := Read(op, io.stream);
    if ReadOf(op, m.session.conn.wire).Ok? {
      ReadLeaves(op, m.session.conn.wire);
    }
    hide ReadOf;
    if got.Err? {
      return Broke(got.error);
    }
    return Went(Kept(v, op.dst, got.value).(responsive := true));
  }

  method Read(op: Op, stream: PeerStream) returns (r: Result<Bytes, Failure>)
    requires IsReceive(op)
    modifies stream
    ensures match ReadOf(op, old(stream.View()))
            case Ok(taken) => r == Ok(taken.data)
            case Err(failure) => r == Err(failure)
    ensures stream.View() == WireAfter(op, old(stream.View()))
  {
    hide ReadExact, ReadUpTo, ReadUntil, AfterRead, AfterUntil, AfterFrame, AfterHttp;
    match op {
      case RecvExact(length, _) => r := stream.ReadExactly(length);
      case RecvUpTo(min, max, _) => r := stream.ReadAtMost(min, max);
      case RecvUntil(delimiter, max, _) => r := stream.ReadDelimited(delimiter, max);
    }
  }

  /** The machine after a frame, on the values of the loop. */
  lemma FrameStored(v: Vars, conn: Conn, dials: seq<Dial>, rest: Wire, dst: nat, body: Bytes, lengthDst: nat, length: u64)
    ensures var m := MachineOf(v, conn, dials);
            MachineOf(Noted(Kept(v, dst, body), lengthDst, length).(responsive := true), conn.(wire := rest), dials) ==
            SetReg(SetBuf(m, dst, body), lengthDst, length).(session := Heard(m.session, rest))
  {}

  lemma FrameIs(host: Host, op: Op, m: Machine)
    requires op.RecvFrame?
    ensures var w := m.session.conn.wire; var r := ReceiveFrame(w, op.kind, op.min, op.max);
            && WireAfter(op, w) == AfterFrame(w, op.kind, op.min, op.max)
            && ExecOp(host, op, m) ==
               if r.Err? then Fail(r.error)
               else Continue(SetReg(SetBuf(m, op.dst, r.value.body), op.lengthDst, r.value.length)
                             .(session := Heard(m.session, r.value.rest)))
  {
    hide ReceiveFrame, AfterFrame, SetBuf, SetReg, Heard, NumberKind.Size;
  }

  method ReceiveFramed(op: Op, v: Vars, io: Connection, ghost host: Host, ghost dials: seq<Dial>) returns (r: Pass)
    requires op.RecvFrame?
    modifies io.stream
    ensures Mirrors(r, ExecOp(host, op, MachineOf(v, old(io.View()), dials)), io.View(), dials)
    ensures io.stream.View() == WireAfter(op, old(io.stream.View()))
  {
    hide ExecOp, WireAfter, ReceiveFrame, AfterFrame, SetBuf, SetReg, Heard, Kept, Noted, MachineOf, Mirrors;
    ghost var conn := io.View();
    ghost var p := ExecOp(host, op, MachineOf(v, conn, dials));
    FrameIs(host, op, MachineOf(v, conn, dials));
    WireOfMachine(v, conn, dials);
    MirrorsWhat(p);
    FrameTakesAtMost(conn.wire, op.kind, op.min, op.max);
    var frame := ReadFrame(io, op.kind, op.min, op.max);
    if frame.Err? {
      return Broke(frame.error);
    }
    var (body, length) := frame.value;
    FrameStored(v, conn, dials, io.stream.View(), op.dst, body, op.lengthDst, length);
    assert io.View() == conn.(wire := io.stream.View());
    return Went(Noted(Kept(v, op.dst, body), op.lengthDst, length).(responsive := true));
  }

  /** The length, checked against its bounds, and then as many bytes. */
  method ReadFrame(io: Connection, kind: NumberKind, min: nat, max: nat) returns (r: Result<(Bytes, u64), Failure>)
    modifies io.stream
    ensures match ReceiveFrame(old(io.stream.View()), kind, min, max)
            case Err(f) => r == Err(f)
            case Ok(frame) => r == Ok((frame.body, frame.length))
    ensures io.stream.View() == AfterFrame(old(io.stream.View()), kind, min, max)
  {
    hide ReadExact, AfterRead, ReadNumber, Length, NumberKind.Size;
    SucceedsAfter(io.stream.View(), 0, kind.Size(), []);
    var header := io.stream.ReadExactly(kind.Size());
    if header.Err? {
      return Err(header.error);
    }
    var length := ReadNumber(header.value, kind);
    if !(min <= Length(length) <= max) {
      return Err(InvalidResponse);
    }
    var body := io.stream.ReadExactly(Length(length));
    if body.Err? {
      return Err(body.error);
    }
    return Ok((body.value, length));
  }

  /** The machine after a response, on the values of the loop. */
  lemma ResponseStored(v: Vars, conn: Conn, dials: seq<Dial>, rest: Wire, op: Op, header: Bytes, body: Bytes,
                       status: u64, length: u64)
    requires op.RecvHttp?
    ensures var m := MachineOf(v, conn, dials);
            var now := Noted(Noted(Kept(Kept(v, op.headerDst, header), op.bodyDst, body), op.statusDst, status),
                             op.contentLengthDst, length);
            MachineOf(now.(responsive := true), conn.(wire := rest), dials) ==
            SetReg(SetReg(SetBuf(SetBuf(m, op.headerDst, header), op.bodyDst, body), op.statusDst, status),
                   op.contentLengthDst, length).(session := Heard(m.session, rest))
  {}

  lemma ResponseIs(host: Host, op: Op, m: Machine)
    requires op.RecvHttp?
    ensures var w := m.session.conn.wire; var r := ReceiveHttp(w, op.maxHeader, op.maxBody, op.headersOnly);
            && WireAfter(op, w) == AfterHttp(w, op.maxHeader, op.maxBody, op.headersOnly)
            && ExecOp(host, op, m) ==
               if r.Err? then Fail(r.error)
               else
                 var stored := SetBuf(SetBuf(m, op.headerDst, r.value.header), op.bodyDst, r.value.body);
                 Continue(SetReg(SetReg(stored, op.statusDst, StatusValue(r.value.response)),
                                 op.contentLengthDst, LengthValue(r.value.response))
                          .(session := Heard(m.session, r.value.rest)))
  {
    hide ReceiveHttp, AfterHttp, SetBuf, SetReg, Heard, StatusValue, LengthValue;
  }

  method ReceiveResponse(op: Op, v: Vars, io: Connection, ghost host: Host, ghost dials: seq<Dial>) returns (r: Pass)
    requires op.RecvHttp?
    modifies io.stream
    ensures Mirrors(r, ExecOp(host, op, MachineOf(v, old(io.View()), dials)), io.View(), dials)
    ensures io.stream.View() == WireAfter(op, old(io.stream.View()))
  {
    hide ExecOp, WireAfter, ReceiveHttp, AfterHttp, StatusValue, LengthValue, SetBuf, SetReg, Heard, Kept, Noted, MachineOf,
      Mirrors;
    ghost var conn := io.View();
    ghost var p := ExecOp(host, op, MachineOf(v, conn, dials));
    ResponseIs(host, op, MachineOf(v, conn, dials));
    WireOfMachine(v, conn, dials);
    MirrorsWhat(p);
    HttpTakesAtMost(conn.wire, op.maxHeader, op.maxBody, op.headersOnly);
    var reply := ReadReply(io, op.maxHeader, op.maxBody, op.headersOnly);
    if reply.Err? {
      return Broke(reply.error);
    }
    var (header, body, response) := reply.value;
    var status, length := StatusValue(response), LengthValue(response);
    ResponseStored(v, conn, dials, io.stream.View(), op, header, body, status, length);
    assert io.View() == conn.(wire := io.stream.View());
    var stored := Kept(Kept(v, op.headerDst, header), op.bodyDst, body);
    return Went(Noted(Noted(stored, op.statusDst, status), op.contentLengthDst, length).(responsive := true));
  }

  /** Header block, then the body its fields and the limits call for. */
  method ReadReply(io: Connection, maxHeader: nat, maxBody: nat, headersOnly: bool)
      returns (r: Result<(Bytes, Bytes, HttpResponse.Response), Failure>)
    modifies io.stream
    ensures match ReceiveHttp(old(io.stream.View()), maxHeader, maxBody, headersOnly)
            case Err(f) => r == Err(f)
            case Ok(reply) => r == Ok((reply.header, reply.body, reply.response))
    ensures io.stream.View() == AfterHttp(old(io.stream.View()), maxHeader, maxBody, headersOnly)
  {
    hide ReadExact, ReadUpTo, ReadUntil, AfterRead, AfterUntil, HttpResponse.ParseHeader;
    SucceedsAfter(io.stream.View(), 0, maxHeader, BLANK_LINE);
    var header := io.stream.ReadDelimited(BLANK_LINE, maxHeader);
    if header.Err? {
      return Err(header.error);
    }
    var response := HttpResponse.ParseHttpHeader(header.value, maxBody);
    if response.Err? {
      return Err(response.error);
    }
    var length := response.value.contentLength;
    var body: Result<Bytes, Failure> := Ok([]);
    if !headersOnly && length.Some? && length.value > 0 {
      body := io.stream.ReadExactly(length.value);
    } else if !headersOnly && length.None? && maxBody > 0 {
      body := io.stream.ReadAtMost(1, maxBody);
    }
    if body.Err? {
      return Err(body.error);
    }
    return Ok((header.value, body.value, response.value));
  }

  predicate IsSend(op: Op) {
    op.SendLiteral? || op.SendBuffer? || op.SendHttp?
  }

  /** The bytes a send puts on the wire. */
  function Payload(host: Host, op: Op, m: Machine): Result<Bytes, Failure>
    requires IsSend(op)
  {
    match op
    case SendLiteral(literal) => Ok(literal)
    case SendBuffer(src) => Buffer(m, src, InternalError)
    case SendHttp(verb, path, headers, bodySrc) =>
      var body :- BodyOf(m, bodySrc);
      BuildRequest(host.ipText, verb, path, headers, body)
  }

  lemma SendIs(host: Host, op: Op, m: Machine)
    requires IsSend(op)
    ensures var data := Payload(host, op, m);
            && ExecOp(host, op, m) == (if data.Err? then Fail(data.error) else ToSession(m, SendAll(m.session, data.value)))
            && WireAfter(op, m.session.conn.wire) == m.session.conn.wire
  {
    hide BuildRequest, SendAll;
  }

  method Transmit(host: Host, op: Op, v: Vars, io: Connection, ghost dials: seq<Dial>) returns (r: Pass)
    requires IsSend(op)
    modifies io
    ensures Mirrors(r, ExecOp(host, op, MachineOf(v, old(io.View()), dials)), io.View(), dials)
    ensures io.stream.View() == WireAfter(op, old(io.stream.View()))
  {
    hide ExecOp, WireAfter, BuildRequest;
    ghost var m := MachineOf(v, io.View(), dials);
    SendIs(host, op, m);
    var data: Bytes := [];
    match op {
      case SendLiteral(literal) => data := literal;
      case SendBuffer(src) =>
        if src >= |v.bufs| {
          return Broke(InternalError);
        }
        data := v.bufs[src];
      case SendHttp(verb, path, headers, bodySrc) =>
        if bodySrc.Some? && bodySrc.value >= |v.bufs| {
          return Broke(InternalError);
        }
        var body := if bodySrc.Some? then v.bufs[bodySrc.value] else [];
        var request := BuildHttpRequest(host.ipText, verb, path, headers, body);
        if request.Err? {
          return Broke(request.error);
        }
        data := request.value;
    }
    hide Payload;
    var fault := io.Send(data);
    if fault.Some? {
      return Broke(fault.value);
    }
    return Went(v.(sent := v.sent + [data]));
  }

  /** Joins the buffers in order after checking that each exists and that the total is within limits. */
  method JoinBuffers(bufs: seq<Bytes>, sources: seq<nat>, ghost m: Machine) returns (r: Result<Bytes, Failure>)
    requires m.bufs == bufs
    ensures r == Joined(m, sources)
  {
    var combined: Bytes := [];
    assert sources[0..] == sources;
    assert forall rest: Bytes :: [] + rest == rest;
    for i := 0 to |sources|
      invariant match Gather(m, sources[i..])
                case Err(f) => Gather(m, sources) == Err(f)
                case Ok(rest) => Gather(m, sources) == Ok(combined + rest)
    {
      assert sources[i..][1..] == sources[i + 1..];
      if sources[i] >= |bufs| {
        return Err(InternalError);
      }
      ghost var rest := Gather(m, sources[i + 1..]);
      assert rest.Ok? ==> combined + (bufs[sources[i]] + rest.value) == combined + bufs[sources[i]] + rest.value;
      combined := combined + bufs[sources[i]];
    }
    assert combined + [] == combined;
    if |combined| > MAX_CONCAT {
      return Err(InternalError);
    }
    return Ok(combined);
  }

  /** The transforms, with the in-place cipher and the scanning parser. */
  method Transformed(lib: Library, source: Bytes, kind: TransformKind) returns (r: Result<Bytes, Failure>)
    ensures r == TransformBytes(lib, source, kind)
  {
    match kind
    case Rc4(key) =>
      var data := Rc4.Crypt(source, key);
      return Ok(data);
    case MsgpackString(wanted) =>
      var found := MsgPack.FindString(source, wanted);
      return Orelse(found);
    case _ => return TransformBytes(lib, source, kind);
  }

  predicate IsBuild(op: Op) {
    op.SetLiteral? || op.Pack? || op.Concat? || op.Transform?
  }

  method Build(host: Host, op: Op, v: Vars, ghost conn: Conn, ghost dials: seq<Dial>) returns (r: Pass)
    requires IsBuild(op)
    ensures Mirrors(r, ExecOp(host, op, MachineOf(v, conn, dials)), conn, dials)
  {
    ghost var m := MachineOf(v, conn, dials);
    var data: Result<Bytes, Failure>;
    var dst;
    hide TransformBytes, PackValue, Eval, Joined;
    match op {
      case SetLiteral(literal, d) => data, dst := Ok(literal), d;
      case Pack(expr, kind, wrap, d) => data, dst := PackValue(Eval(expr, v.regs), kind, wrap), d;
      case Concat(sources, d) => data := JoinBuffers(v.bufs, sources, m); dst := d;
      case Transform(src, d, kind) =>
        if src >= |v.bufs| {
          return Broke(InternalError);
        }
        data := Transformed(host.lib, v.bufs[src], kind); dst := d;
    }
    assert ExecOp(host, op, m) == ToBuffer(m, dst, data);
    hide ExecOp;
    if data.Err? {
      return Broke(data.error);
    }
    return Went(Kept(v, dst, data.value));
  }

  predicate IsNumber(op: Op) {
    op.Extract? || op.Crc32? || op.BufferLen? || op.AsciiDecimal? || op.Compute?
  }

  function NumberOf(host: Host, op: Op, m: Machine): Result<u64, Failure>
    requires IsNumber(op)
  {
    if op.Compute? then Ok(Eval(op.expr, m.regs))
    else
      var s :- Buffer(m, op.src, if op.BufferLen? then InternalError else InvalidResponse);
      if op.Extract? then Sessions.ExtractNumber(s, op.offset, op.kind)
      else if op.Crc32? then ExtractCrc(host.lib, s, op.offset, op.length)
      else if op.AsciiDecimal? then ExtractDecimal(s, op.offset, op.length)
      else Ok(ToU64(|s|))
  }

  lemma NumberIs(host: Host, op: Op, m: Machine)
    requires IsNumber(op)
    ensures ExecOp(host, op, m) == ToRegister(m, op.dst, NumberOf(host, op, m))
  {
    hide Sessions.ExtractNumber, ExtractCrc, ExtractDecimal, ToU64, Eval;
  }

  lemma NumberStored(v: Vars, conn: Conn, dials: seq<Dial>, dst: nat)
    ensures forall value :: MachineOf(Noted(v, dst, value), conn, dials) == SetReg(MachineOf(v, conn, dials), dst, value)
  {}

  method Number(host: Host, op: Op, v: Vars, ghost conn: Conn, ghost dials: seq<Dial>) returns (r: Pass)
    requires IsNumber(op)
    ensures Mirrors(r, ExecOp(host, op, MachineOf(v, conn, dials)), conn, dials)
  {
    hide ExecOp, Mirrors, Noted, SetReg, Sessions.ExtractNumber, ExtractCrc, ExtractDecimal, ToU64, Eval;
    ghost var m := MachineOf(v, conn, dials);
    NumberIs(host, op, m);
    MirrorsWhat(ExecOp(host, op, m));
    NumberStored(v, conn, dials, op.dst);
    if op.Compute? {
      return Went(Noted(v, op.dst, Eval(op.expr, v.regs)));
    }
    if op.src >= |v.bufs| {
      return Broke(if op.BufferLen? then InternalError else InvalidResponse);
    }
    var s := v.bufs[op.src];
    var value :=
      if op.Extract? then Sessions.ExtractNumber(s, op.offset, op.kind)
      else if op.Crc32? then ExtractCrc(host.lib, s, op.offset, op.length)
      else if op.AsciiDecimal? then ExtractDecimal(s, op.offset, op.length)
      else Ok(ToU64(|s|));
    if value.Err? {
      return Broke(value.error);
    }
    return Went(Noted(v, op.dst, value.value));
  }

  method Decide(host: Host, op: Op, v: Vars, io: Connection, ghost dials: seq<Dial>) returns (r: Pass)
    requires op.RejectIf? || op.Match? || op.PeerCertificateSha256?
    ensures Mirrors(r, ExecOp(host, op, MachineOf(v, io.View(), dials)), io.View(), dials)
  {
    hide EvalBool;
    match op {
      case RejectIf(condition, confidence, status) =>
        if EvalBool(host.lib, condition, v.regs, v.bufs) {
          return Stopped(confidence, status);
        }
        return Went(v);
      case Match(condition, confidence, status) =>
        var matched := EvalBool(host.lib, condition, v.regs, v.bufs);
        return Went(v.(matched := matched, confidence := if matched then confidence else None,
                       status := if matched then status else None));
      case PeerCertificateSha256(dst) =>
        if io.certificate.None? {
          return Broke(TlsError);
        }
        return Went(Kept(v, dst, io.certificate.value).(responsive := true));
    }
  }

  method Step(host: Host, op: Op, v: Vars, io: Connection, ghost dials: seq<Dial>) returns (r: Pass)
    requires !op.Reconnect?
    modifies io, io.stream
    ensures Mirrors(r, ExecOp(host, op, MachineOf(v, old(io.View()), dials)), io.View(), dials)
    ensures io.stream.View() == WireAfter(op, old(io.stream.View()))
  {
    hide ExecOp, Mirrors;
    if IsReceive(op) {
      r := Receive(op, v, io, host, dials);
    } else if op.RecvFrame? {
      r := ReceiveFramed(op, v, io, host, dials);
    } else if op.RecvHttp? {
      r := ReceiveResponse(op, v, io, host, dials);
    } else if IsSend(op) {
      r := Transmit(host, op, v, io, dials);
    } else if IsBuild(op) {
      r := Build(host, op, v, io.View(), dials);
    } else if IsNumber(op) {
      r := Number(host, op, v, io.View(), dials);
    } else {
      r := Decide(host, op, v, io, dials);
    }
  }

  /** The report of the values a run ended with. */
  method Conclusion(p: CompiledProbe, v: Vars, rejected: Option<(real, string)>, ghost m: Machine) returns (r: Execution)
    requires m == MachineOf(v, m.session.conn, m.session.dials)
    ensures r == Report(VerdictsOf(p.result), m.session, rejected, FieldsOf(p.result.fields, v.regs, v.bufs, rejected.Some?))
  {
    var matched := rejected.None? && v.matched;
    var confidence := if v.matched then p.result.confidence else p.result.unmatchedConfidence;
    var status := if v.matched then p.result.status else p.result.unmatchedStatus;
    if status == "" && !v.matched {
      status := "protocol_mismatch";
    }
    if v.confidence.Some? {
      confidence := v.confidence.value;
    }
    if v.status.Some? {
      status := v.status.value;
    }
    if rejected.Some? {
      confidence, status := rejected.value.0, rejected.value.1;
    }
    var fields := FieldsOf(p.result.fields, v.regs, v.bufs, rejected.Some?);
    return Execution(matched && p.result.classification.Confirmed?, matched && p.result.classification.Probable?,
                     matched && p.result.classification.Observation?, v.responsive, confidence, status, fields, v.sent);
  }

  /**
   * The whole run, mutating connection, buffers and registers, reports what `Execute` says of the
   * peers' bytes alone: how they were cut into chunks cannot be seen. All in all the peers' streams
   * lose `taken` bytes, at most what the operations declare, however the run ends.
   */
  method RunProbe(host: Host, p: CompiledProbe, attempts: seq<Attempt>) returns (r: Execution, ghost taken: int)
    ensures r == Execute(host, p, Views(attempts))
    ensures taken == if Opened(Views(attempts)).Ok?
                     then TotalTaken(host, p.ops, Machine([], [], Opened(Views(attempts)).value)) else 0
    ensures 0 <= taken <= MayTakeAll(p.ops)
  {
    hide ExecOp, WireAfter, Lost, MayTake, Report, FieldsOf, FailedExecution;
    taken := 0;
    var io;
    var connected := Dial(attempts);
    if connected.Err? {
      r := FailedExecution(connected.error, []);
      return;
    }
    io := connected.value;
    var pending := attempts[1..];
    var v := Vars([], [], [], false, false, None, None);
    ghost var start := MachineOf(v, io.View(), Views(pending));
    TotalTakenAtMost(host, p.ops, start);
    assert p.ops[0..] == p.ops;
    for i := 0 to |p.ops|
      invariant fresh(io) && fresh(io.stream)
      invariant RunOps(host, p.ops, start) == RunOps(host, p.ops[i..], MachineOf(v, io.View(), Views(pending)))
      invariant TotalTaken(host, p.ops, start) ==
                taken + TotalTaken(host, p.ops[i..], MachineOf(v, io.View(), Views(pending)))
    {
      ghost var m := MachineOf(v, io.View(), Views(pending));
      assert p.ops[i..][1..] == p.ops[i + 1..];
      if p.ops[i].Reconnect? {
        connected := Dial(pending);
        assert Lost(m.session.conn.wire, WireAfter(p.ops[i], m.session.conn.wire)) == 0 by { ReconnectTakes(p.ops[i], m.session.conn.wire); }
        assert ExecOp(host, p.ops[i], m) == ToSession(m, Redial(m.session)) by { ReconnectIs(host, p.ops[i], m); }
        if connected.Err? {
          r := FailedExecution(connected.error, v.sent);
          return;
        }
        io := connected.value;
        pending := pending[1..];
      } else {
        var pass := Step(host, p.ops[i], v, io, Views(pending));
        taken := taken + Lost(m.session.conn.wire, io.stream.View());
        match pass {
          case Broke(failure) =>
            r := FailedExecution(failure, v.sent);
            return;
          case Stopped(confidence, status) =>
            r := Conclusion(p, v, Some((confidence, status)), m);
            return;
          case Went(next) => v := next;
        }
      }
    }
    r := Conclusion(p, v, None, MachineOf(v, io.View(), Views(pending)));
  }

  lemma ReconnectTakes(op: Op, w: Wire)
    requires op.Reconnect?
    ensures Lost(w, WireAfter(op, w)) == 0
  {}

  lemma ReconnectIs(host: Host, op: Op, m: Machine)
    requires op.Reconnect?
    ensures ExecOp(host, op, m) == ToSession(m, Redial(m.session))
  {}

  /** Two deliveries of the same bytes, cut differently, end in the same report. */
  method RunTwice(host: Host, p: CompiledProbe, one: seq<Attempt>, other: seq<Attempt>) returns (first: Execution, second: Execution)
    requires Views(one) == Views(other)
    ensures first == second
  {
    ghost var taken;
    first, taken := RunProbe(host, p, one);
    second, taken := RunProbe(host, p, other);
  }
}
