/** The Winos rule of the converter, and the script it stands for. */
module ConverterWinos {
  import opened Wrappers
  import opened Words
  import opened Schema
  import opened Converter
  import S = Sessions
  import T = Transport
  import M = Meaning

  datatype WinosProfile = WinosProfile(
    frameLength: u64, magic: u64, reserved: u64, requestType: u64, requestCommand: u64,
    headerFirst: u64, maskAdd: u64, receiveBytes: nat, command0: u64, command1: u64, command2: u64)

  /** The constants of the reviewed script; the first header byte is the low byte of the magic. */
  const WINOS: WinosProfile :=
    WinosProfile(15, 0x1234_5678, 0, 0xca, 0xc9, 0x78, 54, 15, 201, 202, 203)

  datatype WinosNames = WinosNames(
    requestMask: string, requestCommand: string, requestLength: string, requestMagic: string,
    requestReserved: string, requestType: string, requestPayload: string, request: string, response: string,
    declaredLength: string, headerFirst: string, encryptedCommand: string, mask: string, responseCommand: string)
  {
    predicate DistinctRegisters() {
      && requestMask !in {requestCommand, declaredLength, headerFirst, encryptedCommand, mask, responseCommand}
      && requestCommand !in {declaredLength, headerFirst, encryptedCommand, mask, responseCommand}
      && declaredLength !in {headerFirst, encryptedCommand, mask, responseCommand}
      && headerFirst !in {encryptedCommand, mask, responseCommand}
      && encryptedCommand !in {mask, responseCommand}
      && mask != responseCommand
    }

    predicate DistinctBuffers() {
      && requestLength !in {requestMagic, requestReserved, requestType, requestPayload, request, response}
      && requestMagic !in {requestReserved, requestType, requestPayload, request, response}
      && requestReserved !in {requestType, requestPayload, request, response}
      && requestType !in {requestPayload, request, response}
      && requestPayload !in {request, response}
      && request != response
    }

    predicate AllPlain() {
      && Plain(requestMask) && Plain(requestCommand) && Plain(requestLength) && Plain(requestMagic)
      && Plain(requestReserved) && Plain(requestType) && Plain(requestPayload) && Plain(request) && Plain(response)
      && Plain(declaredLength) && Plain(headerFirst) && Plain(encryptedCommand) && Plain(mask) && Plain(responseCommand)
    }

    predicate Distinct() {
      DistinctRegisters() && DistinctBuffers() && AllPlain()
    }
  }

  const WINOS_NAMES: WinosNames := WinosNames(
    "request_mask", "request_command", "request_length", "request_magic", "request_reserved", "request_type",
    "request_payload", "request", "response", "declared_length", "response_header_first", "encrypted_command",
    "mask", "response_command")

  function WinosSteps(p: WinosProfile, n: WinosNames): seq<Step> {
    [ One(Compute(n.requestMask, Op(Add, Number(p.headerFirst), Number(p.maskAdd)))),
      One(Compute(n.requestCommand, Op(Xor, Number(p.requestCommand), Var(n.requestMask)))),
      One(Pack(n.requestLength, Number(p.frameLength), U32Le, false)),
      One(Pack(n.requestMagic, Number(p.magic), U32Le, false)),
      One(Pack(n.requestReserved, Number(p.reserved), U32Le, false)),
      One(Pack(n.requestType, Number(p.requestType), U16Le, false)),
      One(Pack(n.requestPayload, Var(n.requestCommand), U8, false)),
      One(Concat(n.request, RequestParts(n))),
      One(Send(None, Some(Ref(n.request)))),
      One(RecvExact(p.receiveBytes, n.response)),
      One(Extract(n.response, n.declaredLength, ExtractNumber(U32Le), 0, None)),
      One(Extract(n.response, n.headerFirst, ExtractNumber(U8), 4, None)),
      One(Extract(n.response, n.encryptedCommand, ExtractNumber(U8), 14, None)),
      One(Compute(n.mask, Op(Add, Var(n.headerFirst), Number(p.maskAdd)))),
      One(Compute(n.responseCommand, Op(Xor, Var(n.encryptedCommand), Var(n.mask)))),
      One(RejectIf(Condition([BufferStartsWith(n.response, n.request)]), "winos_request_reflected", 0.0)),
      One(Match(Condition([All([Equals(Var(n.declaredLength), Number(p.frameLength)), Commands(p, n)])]), None, None)) ]
  }

  function RequestParts(n: WinosNames): seq<string> {
    [Ref(n.requestLength), Ref(n.requestMagic), Ref(n.requestReserved), Ref(n.requestType), Ref(n.requestPayload)]
  }

  function Commands(p: WinosProfile, n: WinosNames): Condition {
    Condition([Any([Equals(Var(n.responseCommand), Number(p.command0)),
                    Equals(Var(n.responseCommand), Number(p.command1)),
                    Equals(Var(n.responseCommand), Number(p.command2))])])
  }

  function WinosRule(p: WinosProfile, n: WinosNames): ProbeDocument {
    ProbeDocument(
      1, "valleyrat-winos", [], TransportSpec(Tcp, false, None), WinosSteps(p, n),
      ResultSpec(Confirmed, "$match", 0.95, 0.45, "winos_control_response", "winos_unknown_response",
                 map["declared_length" := JsonString(Ref(n.declaredLength)),
                     "response_command" := JsonString(Ref(n.responseCommand)),
                     "request_reflected" := JsonString("$rejected"),
                     "victim_metadata_sent" := JsonOther(0),
                     "stage_requested" := JsonOther(0)]))
  }

  // ----- the script

  /** The payload mask: the header byte plus 0x36, in eight bits. */
  function MaskOf(header: byte): byte {
    ((header as bv8) + 0x36) as byte
  }

  /** The heartbeat the script sends: length, magic, reserved, type, and the masked command. */
  const NSE_FRAME: Bytes :=
    [15, 0, 0, 0, 0x78, 0x56, 0x34, 0x12, 0, 0, 0, 0, 0xca, 0] + [Xored(0xc9, MaskOf(0x78))]

  function Declared(response: Bytes): nat
    requires |response| >= 4
  {
    response[0] as int + 0x100 * response[1] as int + 0x1_0000 * response[2] as int + 0x100_0000 * response[3] as int
  }

  function Command(response: Bytes): byte
    requires |response| >= 15
  {
    Xored(response[14], MaskOf(response[4]))
  }

  /** The script's verdict on whatever was received. */
  predicate NseWinos(response: Bytes) {
    && |response| >= 15
    && response[..15] != NSE_FRAME
    && 15 <= Declared(response) <= 64 && Declared(response) <= |response|
    && Command(response) in {0xc9, 0xca, 0xcb}
  }

  // ----- the rule's arithmetic

  function Byte(frame: Bytes, at: nat): u64
    requires at < |frame|
  {
    ReadNumber(frame[at..at + 1], U8)
  }

  /** The decoded command, in unmasked 64-bit arithmetic. */
  function WideCommand(header: u64, encrypted: u64): u64 {
    S.ApplyBinary(Xor, encrypted, S.ApplyBinary(Add, header, 54))
  }

  predicate IsCommand(c: u64) {
    c == 201 || c == 202 || c == 203
  }

  function Widened(b: bv8): u64 {
    b as bv64
  }

  function Masked(h: bv8, e: bv8): bv8 {
    e ^ (h + 0x36)
  }

  predicate IsCommand8(c: bv8) {
    c == 201 || c == 202 || c == 203
  }

  predicate Fits(h: bv8) {
    h <= 201
  }

  lemma ByteIs(frame: Bytes, at: nat)
    requires at < |frame|
    ensures Byte(frame, at) == Widened(Eight(frame[at]))
  {}

  lemma CommandBits(h: bv8, e: bv8)
    ensures var c := (e as bv64) ^ ((h as bv64) + 54);
            (c == 201 || c == 202 || c == 203) <==> (h <= 201 && IsCommand8(e ^ (h + 0x36)))
  {}

  lemma WideCommandIs(h: bv8, e: bv8)
    ensures WideCommand(h as bv64, e as bv64) == (e as bv64) ^ ((h as bv64) + 54)
  {}

  lemma WideCommandFits(h: bv8, e: bv8)
    ensures IsCommand(WideCommand(h as bv64, e as bv64)) <==> h <= 201 && IsCommand8(e ^ (h + 0x36))
  {
    hide WideCommand, IsCommand8;
    WideCommandIs(h, e);
    CommandBits(h, e);
  }

  lemma CommandFits(h: bv8, e: bv8)
    ensures IsCommand(WideCommand(Widened(h), Widened(e))) <==> Fits(h) && IsCommand8(Masked(h, e))
  {
    hide WideCommand, IsCommand, IsCommand8;
    WideCommandFits(h, e);
  }

  lemma SmallBits(x: bv8)
    ensures Fits(x) <==> x as byte <= 201
    ensures IsCommand8(x) <==> x as byte in {0xc9, 0xca, 0xcb}
  {}

  lemma CommandIs(response: Bytes)
    requires |response| >= 15
    ensures Command(response) == Masked(Eight(response[4]), Eight(response[14])) as byte
  {
    BitsOfNumber((response[4] as bv8) + 0x36);
  }

  /** The rule accepts the command if and only if the script does and the mask does not overflow eight bits. */
  lemma CommandAgrees(response: Bytes)
    requires |response| >= 15
    ensures IsCommand(WideCommand(Byte(response, 4), Byte(response, 14))) <==>
            response[4] <= 201 && Command(response) in {0xc9, 0xca, 0xcb}
  {
    hide WideCommand, Byte, Command, Eight, Widened, Masked, IsCommand8, Fits, IsCommand;
    var h, e := Eight(response[4]), Eight(response[14]);
    ByteIs(response, 4);
    ByteIs(response, 14);
    CommandFits(h, e);
    CommandIs(response);
    SmallBits(Masked(h, e));
    SmallBits(h);
    EightBack(response[4]);
  }

  lemma EightBack(b: byte)
    ensures Eight(b) as byte == b
  {
    NumberOfBits(b);
  }

  lemma LengthBits(a: bv8, b: bv8, c: bv8, d: bv8)
    ensures (a as bv64) | ((b as bv64) << 8) | ((c as bv64) << 16) | ((d as bv64) << 24) == 15 <==>
            a == 15 && b == 0 && c == 0 && d == 0
  {}

  lemma WordIs(frame: Bytes)
    requires |frame| >= 4
    ensures Word(frame, 0) ==
            ((frame[0] as bv8) as bv64) | (((frame[1] as bv8) as bv64) << 8) |
            (((frame[2] as bv8) as bv64) << 16) | (((frame[3] as bv8) as bv64) << 24)
  {}

  lemma ZeroBits(b: byte)
    ensures b as bv8 == 0 <==> b == 0
    ensures b as bv8 == 15 <==> b == 15
  {
    NumberOfBits(b);
  }

  lemma LengthAgrees(response: Bytes)
    requires |response| >= 4
    ensures Word(response, 0) == 15 <==> Declared(response) == 15
  {
    hide Word;
    WordIs(response);
    LengthBits(response[0] as bv8, response[1] as bv8, response[2] as bv8, response[3] as bv8);
    ZeroBits(response[0]);
    ZeroBits(response[1]);
    ZeroBits(response[2]);
    ZeroBits(response[3]);
    DeclaredFifteen(response);
  }

  lemma DeclaredFifteen(response: Bytes)
    requires |response| >= 4
    ensures Declared(response) == 15 <==> response[0] == 15 && response[1] == response[2] == response[3] == 0
  {}

  // ----- the request

  function Packed(v: u64, kind: NumberKind): Bytes {
    PackNum(v, kind)
  }

  const REQUEST: Bytes :=
    Packed(15, U32Le) + (Packed(0x1234_5678, U32Le) + (Packed(0, U32Le) + (Packed(0xca, U16Le) + (Packed(0x67, U8) + []))))

  lemma FirstParts()
    ensures Packed(15, U32Le) == [15, 0, 0, 0] && Packed(0x1234_5678, U32Le) == [0x78, 0x56, 0x34, 0x12]
  {}

  lemma LastParts()
    ensures Packed(0, U32Le) == [0, 0, 0, 0] && Packed(0xca, U16Le) == [0xca, 0] && Packed(0x67, U8) == [0x67]
  {}

  /** The rule asks with the very bytes of the script. */
  lemma RequestIsScripts()
    ensures REQUEST == NSE_FRAME && |REQUEST| == 15
  {
    hide Packed, Xored, MaskOf;
    FirstParts();
    LastParts();
    MaskedCommand();
  }

  lemma MaskedCommand()
    ensures Xored(0xc9, MaskOf(0x78)) == 0x67
  {
    assert MaskOf(0x78) == 0xae;
    hide MaskOf;
    assert Xored(0xc9, 0xae) == 0x67;
    hide Xored;
  }

  // ----- running the rule

  lemma PackedStep(host: S.Host, steps: seq<Step>, i: nat, env: M.Named, name: string, expr: Expr, kind: NumberKind, v: u64)
    requires i < |steps| && steps[i] == One(Pack(name, expr, kind, false))
    requires M.Value(expr, env.regs) == Some(v) && kind.Holds(v)
    ensures M.RunSteps(host, steps[i..], env) ==
            M.RunSteps(host, steps[i + 1..], env.(bufs := env.bufs[name := Packed(v, kind)]))
  {
    hide M.Value, PackNum, NumberKind.Holds;
    assert steps[i..][1..] == steps[i + 1..];
  }

  lemma JoinedStep(host: S.Host, steps: seq<Step>, i: nat, env: M.Named, name: string, sources: seq<string>, data: Bytes)
    requires i < |steps| && steps[i] == One(Concat(name, sources))
    requires M.JoinedSources(sources, env.bufs) == Some(data)
    ensures M.RunSteps(host, steps[i..], env) == M.RunSteps(host, steps[i + 1..], env.(bufs := env.bufs[name := data]))
  {
    hide M.JoinedSources;
    assert steps[i..][1..] == steps[i + 1..];
  }

  lemma SentStep(host: S.Host, steps: seq<Step>, i: nat, env: M.Named, source: string)
    requires i < |steps| && steps[i] == One(Send(None, Some(Ref(source)))) && Plain(source) && source in env.bufs
    ensures match S.SendAll(env.session, env.bufs[source])
            case Ok(s) => M.RunSteps(host, steps[i..], env) == M.RunSteps(host, steps[i + 1..], env.(session := s))
            case Err(f) => M.RunSteps(host, steps[i..], env) == M.Failed(f, env.session.sent)
  {
    hide S.SendAll;
    TargetOfRef(source);
    assert steps[i..][1..] == steps[i + 1..];
  }

  lemma JoinNext(bufs: map<string, Bytes>, sources: seq<string>, name: string, rest: Bytes)
    requires sources != [] && sources[0] == Ref(name) && Plain(name) && name in bufs
    requires M.JoinedSources(sources[1..], bufs) == Some(rest)
    ensures M.JoinedSources(sources, bufs) == Some(bufs[name] + rest)
  {
    TargetOfRef(name);
  }

  lemma Joins(bufs: map<string, Bytes>, n: WinosNames)
    requires n.AllPlain()
    requires {n.requestLength, n.requestMagic, n.requestReserved, n.requestType, n.requestPayload} <= bufs.Keys
    ensures M.JoinedSources(RequestParts(n), bufs) ==
            Some(bufs[n.requestLength] + (bufs[n.requestMagic] + (bufs[n.requestReserved] +
                 (bufs[n.requestType] + (bufs[n.requestPayload] + [])))))
  {
    hide Plain;
    var parts := RequestParts(n);
    assert parts[1..][1..] == parts[2..] && parts[2..][1..] == parts[3..] && parts[3..][1..] == parts[4..];
    assert parts[4..][1..] == [];
    JoinNext(bufs, parts[4..], n.requestPayload, []);
    JoinNext(bufs, parts[3..], n.requestType, bufs[n.requestPayload] + []);
    JoinNext(bufs, parts[2..], n.requestReserved, bufs[n.requestType] + (bufs[n.requestPayload] + []));
    JoinNext(bufs, parts[1..], n.requestMagic, bufs[n.requestReserved] + (bufs[n.requestType] + (bufs[n.requestPayload] + [])));
    JoinNext(bufs, parts, n.requestLength, bufs[n.requestMagic] + (bufs[n.requestReserved] +
                                           (bufs[n.requestType] + (bufs[n.requestPayload] + []))));
  }

  lemma RequestArithmetic()
    ensures S.ApplyBinary(Add, 0x78, 54) == 0xae && S.ApplyBinary(Xor, 0xc9, 0xae) == 0x67
  {}

  lemma RequestFits()
    ensures U32Le.Holds(15) && U32Le.Holds(0x1234_5678) && U32Le.Holds(0) && U16Le.Holds(0xca) && U8.Holds(0x67)
  {}

  lemma WinosComputes(host: S.Host, n: WinosNames, session: S.Session)
    requires n.Distinct()
    ensures M.RunSteps(host, WinosSteps(WINOS, n), M.Named(map[], map[], session)) ==
            M.RunSteps(host, WinosSteps(WINOS, n)[2..],
                       M.Named(map[], map[n.requestMask := 0xae, n.requestCommand := 0x67], session))
  {
    hide M.RunSteps, M.Value, Plain, S.ApplyBinary, NumberKind.Holds;
    RequestArithmetic();
    var steps := WinosSteps(WINOS, n);
    assert steps[0..] == steps;
    var env := M.Named(map[], map[], session);
    NumberValue(env.regs, 0x78);
    NumberValue(env.regs, 54);
    ComputedOp(host, steps, 0, env, n.requestMask, Add, Number(0x78), Number(54), 0x78, 54);
    var e1 := M.Named(map[], map[n.requestMask := 0xae], session);
    NumberValue(e1.regs, 0xc9);
    VarValue(e1.regs, n.requestMask);
    ComputedOp(host, steps, 1, e1, n.requestCommand, Xor, Number(0xc9), Var(n.requestMask), 0xc9, 0xae);
  }

  lemma PackSteps(n: WinosNames)
    ensures var steps := WinosSteps(WINOS, n);
            && |steps| == 17
            && steps[2] == One(Pack(n.requestLength, Number(15), U32Le, false))
            && steps[3] == One(Pack(n.requestMagic, Number(0x1234_5678), U32Le, false))
            && steps[4] == One(Pack(n.requestReserved, Number(0), U32Le, false))
            && steps[5] == One(Pack(n.requestType, Number(0xca), U16Le, false))
            && steps[6] == One(Pack(n.requestPayload, Var(n.requestCommand), U8, false))
            && steps[7] == One(Concat(n.request, RequestParts(n)))
  {}

  lemma WinosPacks(host: S.Host, n: WinosNames, session: S.Session) returns (env: M.Named)
    requires n.Distinct()
    ensures M.RunSteps(host, WinosSteps(WINOS, n), M.Named(map[], map[], session)) ==
            M.RunSteps(host, WinosSteps(WINOS, n)[8..], env)
    ensures env.session == session && n.request in env.bufs && env.bufs[n.request] == REQUEST
  {
    hide M.RunSteps, M.Value, Plain, NumberKind.Holds, Packed, WinosSteps, Var, One, RequestParts;
    PackSteps(n);
    WinosComputes(host, n, session);
    RequestFits();
    var steps := WinosSteps(WINOS, n);
    env := M.Named(map[], map[n.requestMask := 0xae, n.requestCommand := 0x67], session);
    NumberValue(env.regs, 15);
    NumberValue(env.regs, 0x1234_5678);
    NumberValue(env.regs, 0);
    NumberValue(env.regs, 0xca);
    VarValue(env.regs, n.requestCommand);
    PackedStep(host, steps, 2, env, n.requestLength, Number(15), U32Le, 15);
    env := env.(bufs := env.bufs[n.requestLength := Packed(15, U32Le)]);
    PackedStep(host, steps, 3, env, n.requestMagic, Number(0x1234_5678), U32Le, 0x1234_5678);
    env := env.(bufs := env.bufs[n.requestMagic := Packed(0x1234_5678, U32Le)]);
    PackedStep(host, steps, 4, env, n.requestReserved, Number(0), U32Le, 0);
    env := env.(bufs := env.bufs[n.requestReserved := Packed(0, U32Le)]);
    PackedStep(host, steps, 5, env, n.requestType, Number(0xca), U16Le, 0xca);
    env := env.(bufs := env.bufs[n.requestType := Packed(0xca, U16Le)]);
    PackedStep(host, steps, 6, env, n.requestPayload, Var(n.requestCommand), U8, 0x67);
    env := env.(bufs := env.bufs[n.requestPayload := Packed(0x67, U8)]);
    Joins(env.bufs, n);
    JoinedStep(host, steps, 7, env, n.request, RequestParts(n), REQUEST);
    env := env.(bufs := env.bufs[n.request := REQUEST]);
  }

  lemma ExtractedByte(host: S.Host, steps: seq<Step>, i: nat, env: M.Named, source: string, name: string, at: nat)
    requires i < |steps| && steps[i] == One(Extract(source, name, ExtractNumber(U8), at, None))
    requires Plain(source) && source in env.bufs && at + 1 <= |env.bufs[source]|
    ensures M.RunSteps(host, steps[i..], env) ==
            M.RunSteps(host, steps[i + 1..], env.(regs := env.regs[name := Byte(env.bufs[source], at)]))
  {
    hide M.RunSteps, ReadNumber;
    TargetOfRef(source);
    Extracted(host, steps, i, env, source, name, ExtractNumber(U8), at, None, Byte(env.bufs[source], at));
  }

  lemma WinosHears(host: S.Host, n: WinosNames, env: M.Named, taken: T.Taken) returns (later: M.Named)
    requires n.Distinct() && n.request in env.bufs && T.ReadExact(env.session.conn.wire, 15) == Ok(taken)
    ensures |taken.data| == 15
    ensures M.RunSteps(host, WinosSteps(WINOS, n)[9..], env) == M.RunSteps(host, WinosSteps(WINOS, n)[13..], later)
    ensures later.session == S.Heard(env.session, taken.rest)
    ensures later.bufs == env.bufs[n.response := taken.data]
    ensures later.regs == env.regs[n.declaredLength := Word(taken.data, 0)][n.headerFirst := Byte(taken.data, 4)]
                                  [n.encryptedCommand := Byte(taken.data, 14)]
  {
    hide M.RunSteps, T.ReadExact, Plain, Word, Byte;
    Exactly(env.session.conn.wire, 15);
    var steps := WinosSteps(WINOS, n);
    Received(host, steps, 9, env, 15, n.response, taken);
    later := env.(bufs := env.bufs[n.response := taken.data], session := S.Heard(env.session, taken.rest));
    ExtractedWord(host, steps, 10, later, n.response, n.declaredLength, 0);
    later := later.(regs := later.regs[n.declaredLength := Word(taken.data, 0)]);
    ExtractedByte(host, steps, 11, later, n.response, n.headerFirst, 4);
    later := later.(regs := later.regs[n.headerFirst := Byte(taken.data, 4)]);
    ExtractedByte(host, steps, 12, later, n.response, n.encryptedCommand, 14);
    later := later.(regs := later.regs[n.encryptedCommand := Byte(taken.data, 14)]);
  }

  lemma WinosDecodes(host: S.Host, n: WinosNames, env: M.Named, header: u64, encrypted: u64) returns (later: M.Named)
    requires n.Distinct() && n.headerFirst in env.regs && env.regs[n.headerFirst] == header
    requires n.encryptedCommand in env.regs && env.regs[n.encryptedCommand] == encrypted
    ensures M.RunSteps(host, WinosSteps(WINOS, n)[13..], env) == M.RunSteps(host, WinosSteps(WINOS, n)[15..], later)
    ensures later.session == env.session && later.bufs == env.bufs
    ensures n.responseCommand in later.regs && later.regs[n.responseCommand] == WideCommand(header, encrypted)
    ensures n.declaredLength in env.regs ==>
              n.declaredLength in later.regs && later.regs[n.declaredLength] == env.regs[n.declaredLength]
  {
    hide M.RunSteps, M.Value, Plain, S.ApplyBinary;
    var steps := WinosSteps(WINOS, n);
    var mask := S.ApplyBinary(Add, header, 54);
    VarValue(env.regs, n.headerFirst);
    NumberValue(env.regs, 54);
    ComputedOp(host, steps, 13, env, n.mask, Add, Var(n.headerFirst), Number(54), header, 54);
    later := env.(regs := env.regs[n.mask := mask]);
    VarValue(later.regs, n.encryptedCommand);
    VarValue(later.regs, n.mask);
    ComputedOp(host, steps, 14, later, n.responseCommand, Xor, Var(n.encryptedCommand), Var(n.mask), encrypted, mask);
    later := later.(regs := later.regs[n.responseCommand := WideCommand(header, encrypted)]);
  }

  // ----- the verdict

  lemma VarIs(lib: S.Library, env: M.Named, name: string, v: u64)
    requires Plain(name) && name in env.regs
    ensures M.Truth(lib, Equals(Var(name), Number(v)), env) == Some(env.regs[name] == v)
  {
    hide M.Value;
    VarValue(env.regs, name);
    NumberValue(env.regs, v);
  }

  lemma AnyIs(lib: S.Library, env: M.Named, conditions: seq<Condition>, values: seq<bool>)
    requires M.Truths(lib, conditions, env) == Some(values)
    ensures M.Truth(lib, Condition([Any(conditions)]), env) == Some(true in values)
  {
    assert M.TestTruth(lib, Any(conditions), env) == Some(true in values);
  }

  lemma CommandsTruth(lib: S.Library, n: WinosNames, env: M.Named)
    requires Plain(n.responseCommand) && n.responseCommand in env.regs
    ensures M.Truth(lib, Commands(WINOS, n), env) == Some(IsCommand(env.regs[n.responseCommand]))
  {
    hide M.Truth, M.Truths, Plain;
    var c := env.regs[n.responseCommand];
    var x, y, z := Equals(Var(n.responseCommand), Number(201)), Equals(Var(n.responseCommand), Number(202)),
                   Equals(Var(n.responseCommand), Number(203));
    VarIs(lib, env, n.responseCommand, 201);
    VarIs(lib, env, n.responseCommand, 202);
    VarIs(lib, env, n.responseCommand, 203);
    var p, q, r := c == 201, c == 202, c == 203;
    TruthsOf(lib, env, z, [], r, []);
    TruthsOf(lib, env, y, [z] + [], q, [r] + []);
    TruthsOf(lib, env, x, [y] + ([z] + []), p, [q] + ([r] + []));
    assert [x] + ([y] + ([z] + [])) == [x, y, z];
    AnyIs(lib, env, [x, y, z], [p] + ([q] + ([r] + [])));
    assert true in [p] + ([q] + ([r] + [])) <==> p || q || r;
  }

  predicate Reflected(env: M.Named, n: WinosNames)
    requires n.request in env.bufs && n.response in env.bufs
  {
    S.BytesAt(env.bufs[n.response], 0, env.bufs[n.request])
  }

  lemma StartsTruth(lib: S.Library, env: M.Named, n: WinosNames)
    requires Plain(n.request) && Plain(n.response) && n.request in env.bufs && n.response in env.bufs
    ensures M.Truth(lib, Condition([BufferStartsWith(n.response, n.request)]), env) == Some(Reflected(env, n))
  {
    TargetOfRef(n.request);
    TargetOfRef(n.response);
    assert M.TestTruth(lib, BufferStartsWith(n.response, n.request), env) == Some(Reflected(env, n));
  }

  lemma RejectedStep(host: S.Host, steps: seq<Step>, i: nat, env: M.Named, condition: Condition, status: string, v: bool)
    requires i < |steps| && steps[i] == One(RejectIf(condition, status, 0.0)) && M.Truth(host.lib, condition, env) == Some(v)
    ensures M.RunSteps(host, steps[i..], env) ==
            if v then M.Rejected(env, 0.0, status) else M.RunSteps(host, steps[i + 1..], env)
  {
    hide M.Truth;
    assert steps[i..][1..] == steps[i + 1..];
  }

  lemma WinosJudges(host: S.Host, n: WinosNames, env: M.Named)
    requires n.Distinct() && n.request in env.bufs && n.response in env.bufs
    requires n.declaredLength in env.regs && n.responseCommand in env.regs
    ensures var end := M.RunSteps(host, WinosSteps(WINOS, n)[15..], env);
            if Reflected(env, n) then end.Rejected? && end.env == env
            else end.Completed? &&
                 end.env.session == env.session.(
                   matched := env.regs[n.declaredLength] == 15 && IsCommand(env.regs[n.responseCommand]),
                   confidence := None, status := None)
  {
    hide M.RunSteps, M.Truth, Plain, IsCommand, Reflected;
    var steps := WinosSteps(WINOS, n);
    StartsTruth(host.lib, env, n);
    RejectedStep(host, steps, 15, env, Condition([BufferStartsWith(n.response, n.request)]), "winos_request_reflected",
                 Reflected(env, n));
    var length := Equals(Var(n.declaredLength), Number(15));
    VarIs(host.lib, env, n.declaredLength, 15);
    CommandsTruth(host.lib, n, env);
    var p, q := env.regs[n.declaredLength] == 15, IsCommand(env.regs[n.responseCommand]);
    Both(host.lib, env, length, Commands(WINOS, n), p, q);
    Judged(host, steps, env, Condition([All([length, Commands(WINOS, n)])]), p && q);
  }

  /** The rule's test of the fifteen bytes it receives. */
  predicate RuleMatches(frame: Bytes)
    requires |frame| == 15
  {
    frame != REQUEST && Word(frame, 0) == 15 && IsCommand(WideCommand(Byte(frame, 4), Byte(frame, 14)))
  }

  lemma WinosAnswers(host: S.Host, n: WinosNames, env: M.Named, taken: T.Taken)
    requires n.Distinct() && n.request in env.bufs && env.bufs[n.request] == REQUEST
    requires T.ReadExact(env.session.conn.wire, 15) == Ok(taken)
    ensures |taken.data| == 15
    ensures var end := M.RunSteps(host, WinosSteps(WINOS, n)[9..], env);
            (end.Rejected? && !RuleMatches(taken.data) && end.env.session.sent == env.session.sent) ||
            (end.Completed? && end.env.session.matched == RuleMatches(taken.data) && end.env.session.sent == env.session.sent)
  {
    hide M.RunSteps, Plain, T.ReadExact, Word, Byte, WideCommand, IsCommand, WinosSteps;
    var frame := taken.data;
    var heard := WinosHears(host, n, env, taken);
    var decoded := WinosDecodes(host, n, heard, Byte(frame, 4), Byte(frame, 14));
    WinosJudges(host, n, decoded);
    RequestIsScripts();
    assert S.BytesAt(frame, 0, REQUEST) <==> frame == REQUEST by {
      assert frame[0..0 + 15] == frame;
    }
  }

  /** The bytes that answer the request on the first connection, if all goes well up to then. */
  function Answer(dials: seq<S.Dial>): Option<Bytes> {
    match S.Opened(dials)
    case Err(_) => None
    case Ok(session) =>
      match S.SendAll(session, NSE_FRAME)
      case Err(_) => None
      case Ok(asked) =>
        match T.ReadExact(asked.conn.wire, 15)
        case Err(_) => None
        case Ok(taken) => Some(taken.data)
  }

  /** What the script may receive in answer to its request. */
  ghost predicate MayAnswer(dials: seq<S.Dial>, response: Option<Bytes>) {
    match S.Opened(dials)
    case Err(_) => response.None?
    case Ok(session) =>
      match S.SendAll(session, NSE_FRAME)
      case Err(_) => response.None?
      case Ok(asked) => MayReceive(asked.conn.wire, 15, response)
  }

  lemma AnswersFirst(dials: seq<S.Dial>, response: Option<Bytes>)
    requires MayAnswer(dials, response)
    ensures if Answer(dials).Some?
            then response.Some? && |response.value| >= 15 && response.value[..15] == Answer(dials).value
            else response.None? || |response.value| < 15
  {
    hide T.ReadExact, MayReceive, S.SendAll;
    if S.Opened(dials).Ok? {
      var asking := S.SendAll(S.Opened(dials).value, NSE_FRAME);
      if asking.Ok? {
        ReceivesFirst(asking.value.conn.wire, 15, response);
      }
    }
  }

  /** Of the responses the script confirms, those the rule is made for. */
  predicate RuleAdmits(response: Bytes) {
    |response| >= 15 && Declared(response) == 15 && response[4] <= 201
  }

  lemma WinosFails(host: S.Host, n: WinosNames, env: M.Named)
    requires T.ReadExact(env.session.conn.wire, 15).Err?
    ensures var end := M.RunSteps(host, WinosSteps(WINOS, n)[9..], env);
            end.Failed? && end.sent == env.session.sent
  {
    hide T.ReadExact;
    assert WinosSteps(WINOS, n)[9] == One(RecvExact(15, n.response));
  }

  predicate Matched(end: M.Finish) {
    end.Completed? && end.env.session.matched
  }

  lemma WinosRuns(host: S.Host, n: WinosNames, session: S.Session)
    requires n.Distinct()
    ensures var end := M.RunSteps(host, WinosSteps(WINOS, n), M.Named(map[], map[], session));
            var asking := S.SendAll(session, NSE_FRAME);
            if asking.Err? then end.Failed? && end.sent == session.sent
            else
              var read := T.ReadExact(asking.value.conn.wire, 15);
              if read.Err? then end.Failed? && end.sent == asking.value.sent
              else
                |read.value.data| == 15 && (end.Completed? || end.Rejected?) && end.env.session.sent == asking.value.sent &&
                (Matched(end) <==> RuleMatches(read.value.data))
  {
    hide M.RunSteps, Plain, T.ReadExact, RuleMatches, S.SendAll;
    RequestIsScripts();
    var env := WinosPacks(host, n, session);
    WinosSends(host, n, env);
    var asking := S.SendAll(session, NSE_FRAME);
    if asking.Ok? {
      var later := env.(session := asking.value);
      var read := T.ReadExact(asking.value.conn.wire, 15);
      hide WinosSteps;
      if read.Ok? {
        WinosAnswers(host, n, later, read.value);
      } else {
        WinosFails(host, n, later);
      }
    }
  }

  lemma WinosSends(host: S.Host, n: WinosNames, env: M.Named)
    requires n.AllPlain() && n.request in env.bufs && env.bufs[n.request] == NSE_FRAME
    ensures var asking := S.SendAll(env.session, NSE_FRAME);
            M.RunSteps(host, WinosSteps(WINOS, n)[8..], env) ==
            if asking.Ok? then M.RunSteps(host, WinosSteps(WINOS, n)[9..], env.(session := asking.value))
            else M.Failed(asking.error, env.session.sent)
  {
    hide M.RunSteps, Plain, S.SendAll;
    SentStep(host, WinosSteps(WINOS, n), 8, env, n.request);
  }

  lemma SendingAppends(session: S.Session, data: Bytes)
    ensures S.SendAll(session, data).Ok? ==> S.SendAll(session, data).value.sent == session.sent + [data]
  {}

  lemma WinosNamesDistinct()
    ensures WINOS_NAMES.Distinct()
  {
    assert WINOS_NAMES.DistinctRegisters();
    assert WINOS_NAMES.DistinctBuffers();
    assert WINOS_NAMES.AllPlain();
  }

  /** The rule asks with the script's frame alone, and confirms exactly the answers its test accepts. */
  lemma WinosRuleDecides(host: S.Host, dials: seq<S.Dial>)
    ensures var report := M.Interpret(host, WinosRule(WINOS, WINOS_NAMES), dials);
            && report.Some?
            && (report.value.confirmed <==>
                Answer(dials).Some? && |Answer(dials).value| == 15 && RuleMatches(Answer(dials).value))
            && (S.Opened(dials).Ok? && S.SendAll(S.Opened(dials).value, NSE_FRAME).Ok? ==> report.value.sent == [NSE_FRAME])
  {
    hide M.RunSteps, T.ReadExact, RuleMatches, M.Field, WinosSteps, S.SendAll;
    WinosNamesDistinct();
    if S.Opened(dials).Ok? {
      var session := S.Opened(dials).value;
      WinosRuns(host, WINOS_NAMES, session);
      SendingAppends(session, NSE_FRAME);
      assert [] + [NSE_FRAME] == [NSE_FRAME];
    }
  }

  /**
   * What the rule accepts, in terms of the script: the script confirms, the declared length is 15,
   * and the header byte is at most 201, because the rule omits the script's mask to eight bits.
   */
  lemma RuleIsScriptRestricted(response: Bytes)
    requires |response| >= 15
    ensures RuleMatches(response[..15]) <==> NseWinos(response) && Declared(response) == 15 && response[4] <= 201
  {
    hide Word, Byte, WideCommand, IsCommand, Command;
    var frame := response[..15];
    RequestIsScripts();
    LengthAgrees(frame);
    CommandAgrees(frame);
    assert Declared(frame) == Declared(response);
    CommandOfPrefix(response);
  }

  lemma CommandOfPrefix(response: Bytes)
    requires |response| >= 15
    ensures Command(response[..15]) == Command(response)
  {}

  /** Of answers of exactly fifteen bytes, the rule accepts those the script does up to a header byte of 201. */
  lemma RuleIsScriptOnFrames(response: Bytes)
    requires |response| == 15
    ensures RuleMatches(response) <==> NseWinos(response) && response[4] <= 201
  {
    hide RuleMatches, Command;
    assert response[..15] == response;
    RuleIsScriptRestricted(response);
  }

  const HIGH_HEADER: Bytes := [15, 0, 0, 0, 202, 0, 0, 0, 0, 0, 0, 0, 0, 0, 0xc9]

  /** An answer that the script confirms and the rule does not. */
  lemma RuleMissesHighHeaders()
    ensures NseWinos(HIGH_HEADER) && !RuleMatches(HIGH_HEADER)
  {
    hide RuleMatches, Command;
    RuleIsScriptOnFrames(HIGH_HEADER);
    HighHeaderCommand();
    assert HIGH_HEADER[..15] == HIGH_HEADER && HIGH_HEADER[4] == 202;
    assert NSE_FRAME[4] == 0x78;
    assert Declared(HIGH_HEADER) == 15;
  }

  lemma HighHeaderCommand()
    ensures Command(HIGH_HEADER) == 0xc9
  {
    assert MaskOf(202) == 0 && Xored(0xc9, 0) == 0xc9;
  }
}
