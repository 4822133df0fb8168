/** The rules that the NSE converter emits, and the predicates of the scripts they stand for. */
module Converter {
  import opened Wrappers
  import opened Words
  import opened Schema
  import S = Sessions
  import T = Transport
  import M = Meaning

  function Ref(name: string): string {
    "$" + name
  }

  function One(a: Action): Step {
    Step([a])
  }

  function Op(kind: BinaryKind, left: Expr, right: Expr): Expr {
    Operation([Binary(kind, left, right)])
  }

  function Equals(left: Expr, right: Expr): Condition {
    Condition([Compare(Eq, left, right)])
  }

  function Var(name: string): Expr {
    Reference(Ref(name))
  }

  predicate Plain(name: string) {
    name != "" && name[0] != '$'
  }

  lemma TargetOfRef(name: string)
    requires Plain(name)
    ensures Target(Ref(name)) == name && Target(name) == name
  {
    assert Ref(name)[0] == '$' && Ref(name)[1..] == name;
  }

  // ----- the N520 handshake

  datatype N520Profile = N520Profile(receiveBytes: nat, magicOr: u64, crcOffset: nat, crcLength: nat)

  const N520: N520Profile := N520Profile(44, 0xa5a5_0000, 40, 40)

  datatype N520Names = N520Names(
    response: string, sessionId: string, receivedMagic: string, storedCrc: string, calculatedCrc: string,
    sessionHigh: string, sessionLow: string, folded: string, mixed: string, expectedMagic: string)
  {
    /** No two registers share a name, and no name looks like a reference. */
    predicate Distinct() {
      && sessionId !in {receivedMagic, storedCrc, calculatedCrc, sessionHigh, sessionLow, folded, mixed, expectedMagic}
      && receivedMagic !in {storedCrc, calculatedCrc, sessionHigh, sessionLow, folded, mixed, expectedMagic}
      && storedCrc !in {calculatedCrc, sessionHigh, sessionLow, folded, mixed, expectedMagic}
      && calculatedCrc !in {sessionHigh, sessionLow, folded, mixed, expectedMagic}
      && sessionHigh !in {sessionLow, folded, mixed, expectedMagic}
      && sessionLow !in {folded, mixed, expectedMagic}
      && folded !in {mixed, expectedMagic}
      && mixed != expectedMagic
      && Plain(response) && Plain(sessionId) && Plain(receivedMagic) && Plain(storedCrc) && Plain(calculatedCrc)
      && Plain(sessionHigh) && Plain(sessionLow) && Plain(folded) && Plain(mixed) && Plain(expectedMagic)
    }
  }

  const N520_NAMES: N520Names := N520Names(
    "response", "session_id", "received_magic", "stored_crc", "calculated_crc",
    "session_high", "session_low", "folded", "mixed", "expected_magic")

  function N520Steps(p: N520Profile, n: N520Names): seq<Step> {
    [ One(RecvExact(p.receiveBytes, n.response)),
      One(Extract(n.response, n.sessionId, ExtractNumber(U32Le), 0, None)),
      One(Extract(n.response, n.receivedMagic, ExtractNumber(U32Le), 4, None)),
      One(Extract(n.response, n.storedCrc, ExtractNumber(U32Le), p.crcOffset, None)),
      One(Extract(n.response, n.calculatedCrc, Crc32, 0, Some(p.crcLength))),
      One(Compute(n.sessionHigh, Op(ShiftRight, Var(n.sessionId), Number(16)))),
      One(Compute(n.sessionLow, Op(And, Var(n.sessionId), Number(65535)))),
      One(Compute(n.folded, Op(Xor, Var(n.sessionHigh), Var(n.sessionLow)))),
      One(Compute(n.mixed, Op(Or, Var(n.folded), Number(p.magicOr)))),
      One(Compute(n.expectedMagic, Op(Xor, Var(n.sessionId), Var(n.mixed)))),
      One(Match(Condition([All([Equals(Var(n.receivedMagic), Var(n.expectedMagic)),
                                Equals(Var(n.storedCrc), Var(n.calculatedCrc))])]), None, None)) ]
  }

  function N520Rule(p: N520Profile, n: N520Names): ProbeDocument {
    ProbeDocument(
      1, "valleyrat-n520", [], TransportSpec(Tls, true, None), N520Steps(p, n),
      ResultSpec(Confirmed, "$match", 0.98, 0.35, "n520_server_first_handshake_match", "n520_handshake_mismatch",
                 map["session_id" := JsonString(Ref(n.sessionId)),
                     "received_magic" := JsonString(Ref(n.receivedMagic)),
                     "expected_magic" := JsonString(Ref(n.expectedMagic)),
                     "stored_crc" := JsonString(Ref(n.storedCrc)),
                     "calculated_crc" := JsonString(Ref(n.calculatedCrc)),
                     "application_data_sent" := JsonOther(0)]))
  }

  /** A little-endian 32-bit number, as the script unpacks it. */
  function Le32(s: Bytes, at: nat): bv32
    requires at + 4 <= |s|
  {
    Join32(Eight(s[at]), Eight(s[at + 1]), Eight(s[at + 2]), Eight(s[at + 3]))
  }

  function Join32(a: bv8, b: bv8, c: bv8, d: bv8): bv32 {
    (a as bv32) | ((b as bv32) << 8) | ((c as bv32) << 16) | ((d as bv32) << 24)
  }

  function High32(session: bv32): bv32 {
    session >> 16
  }

  function Low32(session: bv32): bv32 {
    session & 0xffff
  }

  function Xor32(a: bv32, b: bv32): bv32 {
    a ^ b
  }

  function WithMagic32(folded: bv32): bv32 {
    folded | 0xa5a5_0000
  }

  /** The script's test of a frame of 44 bytes, in 32-bit arithmetic. */
  predicate NseN520(crc32: Bytes -> bv32, frame: Bytes)
    requires |frame| == 44
  {
    var session := Le32(frame, 0);
    var mixed := WithMagic32(Xor32(High32(session), Low32(session)));
    Le32(frame, 4) == Xor32(session, mixed) && Le32(frame, 40) == crc32(frame[..40])
  }

  // ----- running a rule step by step

  lemma Received(host: S.Host, steps: seq<Step>, i: nat, env: M.Named, count: nat, name: string, taken: T.Taken)
    requires i < |steps| && steps[i] == One(RecvExact(count, name))
    requires T.ReadExact(env.session.conn.wire, count) == Ok(taken)
    ensures M.RunSteps(host, steps[i..], env) ==
            M.RunSteps(host, steps[i + 1..],
                       env.(bufs := env.bufs[name := taken.data], session := S.Heard(env.session, taken.rest)))
  {
    hide T.ReadExact;
    assert steps[i..][1..] == steps[i + 1..];
  }

  lemma Extracted(host: S.Host, steps: seq<Step>, i: nat, env: M.Named, source: string, name: string,
                  kind: ExtractKind, offset: nat, length: Option<nat>, value: u64)
    requires i < |steps| && steps[i] == One(Extract(source, name, kind, offset, length))
    requires M.Lookup(env.bufs, source).Some? && (kind.Crc32? || kind.AsciiDecimal? ==> length.Some?)
    requires M.ExtractValue(host.lib, kind, M.Lookup(env.bufs, source).value, offset,
                            if length.Some? then length.value else 0) == Ok(value)
    ensures M.RunSteps(host, steps[i..], env) == M.RunSteps(host, steps[i + 1..], env.(regs := env.regs[name := value]))
  {
    hide M.ExtractValue, M.Lookup;
    assert steps[i..][1..] == steps[i + 1..];
  }

  lemma Computed(host: S.Host, steps: seq<Step>, i: nat, env: M.Named, name: string, expr: Expr, value: u64)
    requires i < |steps| && steps[i] == One(Compute(name, expr)) && M.Value(expr, env.regs) == Some(value)
    ensures M.RunSteps(host, steps[i..], env) == M.RunSteps(host, steps[i + 1..], env.(regs := env.regs[name := value]))
  {
    hide M.Value;
    assert steps[i..][1..] == steps[i + 1..];
  }

  lemma Judged(host: S.Host, steps: seq<Step>, env: M.Named, condition: Condition, matched: bool)
    requires steps != [] && steps[|steps| - 1] == One(Match(condition, None, None))
    requires M.Truth(host.lib, condition, env) == Some(matched)
    ensures M.RunSteps(host, steps[|steps| - 1..], env) ==
            M.Completed(env.(session := env.session.(matched := matched, confidence := None, status := None)))
  {
    hide M.Truth;
    assert steps[|steps| - 1..][1..] == [];
  }

  lemma VarValue(regs: map<string, u64>, name: string)
    requires Plain(name) && name in regs
    ensures M.Value(Var(name), regs) == Some(regs[name])
  {
    TargetOfRef(name);
  }

  lemma OpValue(regs: map<string, u64>, kind: BinaryKind, left: Expr, right: Expr)
    requires M.Value(left, regs).Some? && M.Value(right, regs).Some?
    ensures M.Value(Op(kind, left, right), regs) ==
            Some(S.ApplyBinary(kind, M.Value(left, regs).value, M.Value(right, regs).value))
  {}

  // ----- what the N520 rule computes

  function Word(frame: Bytes, at: nat): u64
    requires at + 4 <= |frame|
  {
    ReadNumber(frame[at..at + 4], U32Le)
  }

  // The intermediate values of the rule, in unmasked 64-bit arithmetic.

  function High(session: u64): u64 {
    session >> 16
  }

  function Low(session: u64): u64 {
    session & 65535
  }

  function Folded(session: u64): u64 {
    S.ApplyBinary(Xor, High(session), Low(session))
  }

  function Mixed(session: u64): u64 {
    S.ApplyBinary(Or, Folded(session), 0xa5a5_0000)
  }

  function Expected(session: u64): u64 {
    S.ApplyBinary(Xor, session, Mixed(session))
  }

  predicate N520Wide(crc32: Bytes -> bv32, frame: Bytes)
    requires |frame| == 44
  {
    Word(frame, 4) == Expected(Word(frame, 0)) && Word(frame, 40) == Checksum(crc32, frame)
  }

  function Checksum(crc32: Bytes -> bv32, frame: Bytes): u64
    requires |frame| == 44
  {
    crc32(frame[..40]) as bv64
  }

  lemma HighIs(session: u64)
    ensures S.ApplyBinary(ShiftRight, session, 16) == High(session)
  {}

  lemma LowIs(session: u64)
    ensures S.ApplyBinary(And, session, 65535) == Low(session)
  {}

  /** An extracted 32-bit word. */
  lemma ExtractedWord(host: S.Host, steps: seq<Step>, i: nat, env: M.Named, source: string, name: string, at: nat)
    requires i < |steps| && steps[i] == One(Extract(source, name, ExtractNumber(U32Le), at, None))
    requires Plain(source) && source in env.bufs && at + 4 <= |env.bufs[source]|
    ensures M.RunSteps(host, steps[i..], env) ==
            M.RunSteps(host, steps[i + 1..], env.(regs := env.regs[name := Word(env.bufs[source], at)]))
  {
    hide M.RunSteps, ReadNumber;
    TargetOfRef(source);
    Extracted(host, steps, i, env, source, name, ExtractNumber(U32Le), at, None, Word(env.bufs[source], at));
  }

  lemma ExtractedCrc(host: S.Host, steps: seq<Step>, i: nat, env: M.Named, source: string, name: string, length: nat)
    requires i < |steps| && steps[i] == One(Extract(source, name, Crc32, 0, Some(length)))
    requires Plain(source) && source in env.bufs && length <= |env.bufs[source]|
    ensures M.RunSteps(host, steps[i..], env) ==
            M.RunSteps(host, steps[i + 1..],
                       env.(regs := env.regs[name := host.lib.crc32(env.bufs[source][..length]) as bv64]))
  {
    hide M.RunSteps;
    TargetOfRef(source);
    assert env.bufs[source][0..0 + length] == env.bufs[source][..length];
    Extracted(host, steps, i, env, source, name, Crc32, 0, Some(length),
              host.lib.crc32(env.bufs[source][..length]) as bv64);
  }

  lemma N520Extracts(host: S.Host, n: N520Names, env: M.Named)
    requires Plain(n.response) && n.response in env.bufs && |env.bufs[n.response]| == 44 && env.regs == map[]
    ensures var frame := env.bufs[n.response];
            M.RunSteps(host, N520Steps(N520, n)[1..], env) ==
            M.RunSteps(host, N520Steps(N520, n)[5..],
                       env.(regs := map[n.sessionId := Word(frame, 0), n.receivedMagic := Word(frame, 4),
                                        n.storedCrc := Word(frame, 40),
                                        n.calculatedCrc := host.lib.crc32(frame[..40]) as bv64]))
  {
    hide M.RunSteps, Word, Plain;
    var steps := N520Steps(N520, n);
    var frame := env.bufs[n.response];
    ExtractedWord(host, steps, 1, env, n.response, n.sessionId, 0);
    var e2 := env.(regs := map[n.sessionId := Word(frame, 0)]);
    ExtractedWord(host, steps, 2, e2, n.response, n.receivedMagic, 4);
    var e3 := e2.(regs := e2.regs[n.receivedMagic := Word(frame, 4)]);
    ExtractedWord(host, steps, 3, e3, n.response, n.storedCrc, 40);
    var e4 := e3.(regs := e3.regs[n.storedCrc := Word(frame, 40)]);
    ExtractedCrc(host, steps, 4, e4, n.response, n.calculatedCrc, 40);
  }

  /** A register computed from two expressions of known value. */
  lemma ComputedOp(host: S.Host, steps: seq<Step>, i: nat, env: M.Named, name: string, kind: BinaryKind,
                   left: Expr, right: Expr, a: u64, b: u64)
    requires i < |steps| && steps[i] == One(Compute(name, Op(kind, left, right)))
    requires M.Value(left, env.regs) == Some(a) && M.Value(right, env.regs) == Some(b)
    ensures M.RunSteps(host, steps[i..], env) ==
            M.RunSteps(host, steps[i + 1..], env.(regs := env.regs[name := S.ApplyBinary(kind, a, b)]))
  {
    hide M.RunSteps, S.ApplyBinary;
    OpValue(env.regs, kind, left, right);
    Computed(host, steps, i, env, name, Op(kind, left, right), S.ApplyBinary(kind, a, b));
  }

  lemma N520Computes(host: S.Host, n: N520Names, env: M.Named, session: u64)
    requires n.Distinct() && n.sessionId in env.regs && env.regs[n.sessionId] == session
    ensures M.RunSteps(host, N520Steps(N520, n)[5..], env) ==
            M.RunSteps(host, N520Steps(N520, n)[10..],
                       env.(regs := env.regs[n.sessionHigh := High(session)][n.sessionLow := Low(session)]
                                    [n.folded := Folded(session)][n.mixed := Mixed(session)]
                                    [n.expectedMagic := Expected(session)]))
  {
    hide M.RunSteps, S.ApplyBinary, M.Value, Plain, High, Low;
    HighIs(session);
    LowIs(session);
    var steps := N520Steps(N520, n);
    var r5 := env.regs;
    VarValue(r5, n.sessionId);
    NumberValue(r5, 16);
    ComputedOp(host, steps, 5, env, n.sessionHigh, ShiftRight, Var(n.sessionId), Number(16), session, 16);
    var r6 := r5[n.sessionHigh := High(session)];
    VarValue(r6, n.sessionId);
    NumberValue(r6, 65535);
    ComputedOp(host, steps, 6, env.(regs := r6), n.sessionLow, And, Var(n.sessionId), Number(65535), session, 65535);
    var r7 := r6[n.sessionLow := Low(session)];
    VarValue(r7, n.sessionHigh);
    VarValue(r7, n.sessionLow);
    ComputedOp(host, steps, 7, env.(regs := r7), n.folded, Xor, Var(n.sessionHigh), Var(n.sessionLow),
               High(session), Low(session));
    var r8 := r7[n.folded := Folded(session)];
    VarValue(r8, n.folded);
    NumberValue(r8, 0xa5a5_0000);
    ComputedOp(host, steps, 8, env.(regs := r8), n.mixed, Or, Var(n.folded), Number(0xa5a5_0000),
               Folded(session), 0xa5a5_0000);
    var r9 := r8[n.mixed := Mixed(session)];
    VarValue(r9, n.sessionId);
    VarValue(r9, n.mixed);
    ComputedOp(host, steps, 9, env.(regs := r9), n.expectedMagic, Xor, Var(n.sessionId), Var(n.mixed),
               session, Mixed(session));
  }

  lemma NumberValue(regs: map<string, u64>, v: u64)
    ensures M.Value(Number(v), regs) == Some(v)
  {}

  lemma VarsEqual(lib: S.Library, env: M.Named, a: string, b: string)
    requires Plain(a) && Plain(b) && a in env.regs && b in env.regs
    ensures M.Truth(lib, Equals(Var(a), Var(b)), env) == Some(env.regs[a] == env.regs[b])
  {
    hide M.Value;
    VarValue(env.regs, a);
    VarValue(env.regs, b);
  }

  lemma Both(lib: S.Library, env: M.Named, one: Condition, other: Condition, p: bool, q: bool)
    requires M.Truth(lib, one, env) == Some(p) && M.Truth(lib, other, env) == Some(q)
    ensures M.Truth(lib, Condition([All([one, other])]), env) == Some(p && q)
  {
    TruthsOf(lib, env, one, [other], p, [q]);
    TruthsOf(lib, env, other, [], q, []);
    hide M.Truth, M.Truths;
    assert [one] + [other] == [one, other] && [other] + [] == [other] && [q] + [] == [q];
    AllIs(lib, env, [one, other], [p] + [q]);
    assert false !in [p] + [q] <==> p && q;
  }

  lemma TruthsOf(lib: S.Library, env: M.Named, first: Condition, rest: seq<Condition>, v: bool, vs: seq<bool>)
    requires M.Truth(lib, first, env) == Some(v)
    ensures M.Truths(lib, rest, env) == Some(vs) ==> M.Truths(lib, [first] + rest, env) == Some([v] + vs)
    ensures M.Truths(lib, [], env) == Some([])
  {
    hide M.Truth;
    assert ([first] + rest)[1..] == rest;
  }

  lemma AllIs(lib: S.Library, env: M.Named, conditions: seq<Condition>, values: seq<bool>)
    requires M.Truths(lib, conditions, env) == Some(values)
    ensures M.Truth(lib, Condition([All(conditions)]), env) == Some(false !in values)
  {
    assert M.TestTruth(lib, All(conditions), env) == Some(false !in values);
  }

  lemma N520Receives(host: S.Host, n: N520Names, session: S.Session, taken: T.Taken)
    requires T.ReadExact(session.conn.wire, 44) == Ok(taken)
    ensures M.RunSteps(host, N520Steps(N520, n), M.Named(map[], map[], session)) ==
            M.RunSteps(host, N520Steps(N520, n)[1..],
                       M.Named(map[n.response := taken.data], map[], S.Heard(session, taken.rest)))
  {
    hide M.RunSteps, T.ReadExact;
    var steps := N520Steps(N520, n);
    assert steps[0..] == steps;
    Received(host, steps, 0, M.Named(map[], map[], session), 44, n.response, taken);
  }

  /** From the extracted words on: the rest is computed and judged. */
  lemma N520Decides(host: S.Host, n: N520Names, env: M.Named, session: u64)
    requires n.Distinct() && {n.sessionId, n.receivedMagic, n.storedCrc, n.calculatedCrc} <= env.regs.Keys
    requires env.regs[n.sessionId] == session
    ensures var end := M.RunSteps(host, N520Steps(N520, n)[5..], env);
            end.Completed? &&
            end.env.session == env.session.(
              matched := env.regs[n.receivedMagic] == Expected(session) && env.regs[n.storedCrc] == env.regs[n.calculatedCrc],
              confidence := None, status := None)
  {
    hide M.RunSteps, Plain, High, Low, Folded, Mixed, Expected, N520Steps;
    assert n.sessionId in env.regs;
    N520Computes(host, n, env, session);
    N520Judges(host, n, env, session);
  }

  lemma N520Works(host: S.Host, n: N520Names, frame: Bytes, session: S.Session)
    requires n.Distinct() && |frame| == 44
    ensures var end := M.RunSteps(host, N520Steps(N520, n)[1..], M.Named(map[n.response := frame], map[], session));
            end.Completed? && end.env.session.matched == N520Wide(host.lib.crc32, frame) &&
            end.env.session.confidence.None? && end.env.session.status.None?
  {
    hide M.RunSteps, Plain, Word, Expected, Checksum, N520Steps;
    var env := M.Named(map[n.response := frame], map[], session);
    N520Extracts(host, n, env);
    N520Sum(host.lib.crc32, frame);
    var regs := map[n.sessionId := Word(frame, 0), n.receivedMagic := Word(frame, 4),
                    n.storedCrc := Word(frame, 40), n.calculatedCrc := Checksum(host.lib.crc32, frame)];
    N520Decides(host, n, env.(regs := regs), Word(frame, 0));
  }

  lemma N520Runs(host: S.Host, n: N520Names, session: S.Session, taken: T.Taken)
    requires n.Distinct() && T.ReadExact(session.conn.wire, 44) == Ok(taken)
    ensures |taken.data| == 44
    ensures var end := M.RunSteps(host, N520Steps(N520, n), M.Named(map[], map[], session));
            end.Completed? && end.env.session.matched == N520Wide(host.lib.crc32, taken.data) &&
            end.env.session.confidence.None? && end.env.session.status.None?
  {
    hide M.RunSteps, T.ReadExact, N520Steps, N520Wide;
    Exactly(session.conn.wire, 44);
    N520Receives(host, n, session, taken);
    N520Works(host, n, taken.data, S.Heard(session, taken.rest));
  }

  lemma Exactly(w: T.Wire, n: nat)
    requires T.ReadExact(w, n).Ok?
    ensures |T.ReadExact(w, n).value.data| == n
  {
    hide T.Run;
  }

  lemma N520Sum(crc32: Bytes -> bv32, frame: Bytes)
    requires |frame| == 44
    ensures crc32(frame[..40]) as bv64 == Checksum(crc32, frame)
  {}

  lemma N520Judges(host: S.Host, n: N520Names, env: M.Named, session: u64)
    requires n.Distinct() && {n.sessionId, n.receivedMagic, n.storedCrc, n.calculatedCrc} <= env.regs.Keys
    ensures var later := env.(regs := env.regs[n.sessionHigh := High(session)][n.sessionLow := Low(session)]
                                              [n.folded := Folded(session)][n.mixed := Mixed(session)]
                                              [n.expectedMagic := Expected(session)]);
            M.RunSteps(host, N520Steps(N520, n)[10..], later) ==
            M.Completed(later.(session := later.session.(
              matched := env.regs[n.receivedMagic] == Expected(session) && env.regs[n.storedCrc] == env.regs[n.calculatedCrc],
              confidence := None, status := None)))
  {
    hide M.RunSteps, Plain, High, Low, Folded, Mixed, Expected, M.Truth;
    var later := env.(regs := env.regs[n.sessionHigh := High(session)][n.sessionLow := Low(session)]
                                      [n.folded := Folded(session)][n.mixed := Mixed(session)]
                                      [n.expectedMagic := Expected(session)]);
    assert {n.receivedMagic, n.storedCrc, n.calculatedCrc} <= later.regs.Keys;
    var magic := Equals(Var(n.receivedMagic), Var(n.expectedMagic));
    var crc := Equals(Var(n.storedCrc), Var(n.calculatedCrc));
    VarsEqual(host.lib, later, n.receivedMagic, n.expectedMagic);
    VarsEqual(host.lib, later, n.storedCrc, n.calculatedCrc);
    var p, q := later.regs[n.receivedMagic] == later.regs[n.expectedMagic], later.regs[n.storedCrc] == later.regs[n.calculatedCrc];
    Both(host.lib, later, magic, crc, p, q);
    Judged(host, N520Steps(N520, n), later, Condition([All([magic, crc])]), p && q);
  }

  // ----- agreement with the script

  /** The first `count` bytes of the first connection, if they arrive in time. */
  function Arrived(dials: seq<S.Dial>, count: nat): Option<Bytes> {
    match S.Opened(dials)
    case Err(_) => None
    case Ok(session) =>
      match T.ReadExact(session.conn.wire, count)
      case Err(_) => None
      case Ok(taken) => Some(taken.data)
  }

  /**
   * What the script's `receive_bytes(count)` may return: at least `count` bytes of the stream, and
   * perhaps more of them, if so many come in time; otherwise nothing, or too little.
   */
  ghost predicate MayReceive(w: T.Wire, count: nat, response: Option<Bytes>) {
    var run := T.Run(w.items);
    if |run| < count then response.None? || |response.value| < count
    else response.Some? && count <= |response.value| <= |run| && response.value == run[..|response.value|]
  }

  /** The same of the first connection. */
  ghost predicate MayArrive(dials: seq<S.Dial>, count: nat, response: Option<Bytes>) {
    match S.Opened(dials)
    case Err(_) => response.None?
    case Ok(session) => MayReceive(session.conn.wire, count, response)
  }

  /** Whatever the script receives, it starts with the bytes that a read of exactly `count` takes. */
  lemma ReceivesFirst(w: T.Wire, count: nat, response: Option<Bytes>)
    requires MayReceive(w, count, response)
    ensures var read := T.ReadExact(w, count);
            if read.Ok? then response.Some? && |response.value| >= count && response.value[..count] == read.value.data
            else response.None? || |response.value| < count
  {}

  lemma ArrivesFirst(dials: seq<S.Dial>, count: nat, response: Option<Bytes>)
    requires MayArrive(dials, count, response)
    ensures if Arrived(dials, count).Some?
            then response.Some? && |response.value| >= count && response.value[..count] == Arrived(dials, count).value
            else response.None? || |response.value| < count
  {
    hide T.ReadExact, MayReceive;
    if S.Opened(dials).Ok? {
      ReceivesFirst(S.Opened(dials).value.conn.wire, count, response);
    }
  }

  /** The script refuses every response that is not of 44 bytes. */
  predicate NseN520Confirms(crc32: Bytes -> bv32, response: Option<Bytes>) {
    response.Some? && |response.value| == 44 && NseN520(crc32, response.value)
  }

  function Wide(x: bv32): u64 {
    x as bv64
  }

  /** Unmasked 64-bit arithmetic on 32-bit words decides as 32-bit arithmetic does. */
  lemma WideIsNarrow(crc32: Bytes -> bv32, frame: Bytes)
    requires |frame| == 44
    ensures N520Wide(crc32, frame) <==> NseN520(crc32, frame)
  {
    hide Word, Le32, High, Low, High32, Low32, Xor32, WithMagic32, Wide, S.ApplyBinary, Checksum;
    WordIsLe32(frame, 0);
    WordIsLe32(frame, 4);
    WordIsLe32(frame, 40);
    ChecksumIsWide(crc32, frame);
    var session := Le32(frame, 0);
    HighWide(session);
    LowWide(session);
    var folded := Xor32(High32(session), Low32(session));
    XorWide(High32(session), Low32(session));
    OrWide(folded);
    XorWide(session, WithMagic32(folded));
    WideInjective(Le32(frame, 4), Xor32(session, WithMagic32(folded)));
    WideInjective(Le32(frame, 40), crc32(frame[..40]));
  }

  lemma ChecksumIsWide(crc32: Bytes -> bv32, frame: Bytes)
    requires |frame| == 44
    ensures Checksum(crc32, frame) == Wide(crc32(frame[..40]))
  {}

  lemma WideInjective(a: bv32, b: bv32)
    ensures Wide(a) == Wide(b) <==> a == b
  {}

  lemma HighWide(x: bv32)
    ensures High(Wide(x)) == Wide(High32(x))
  {
    hide High;
    assert Wide(x) == x as bv64;
    hide Wide;
    HighConverted(x);
  }

  lemma HighConverted(x: bv32)
    ensures High(x as bv64) == Wide(x >> 16)
  {}

  lemma LowWide(x: bv32)
    ensures Low(Wide(x)) == Wide(Low32(x))
  {
    hide Low;
    assert Wide(x) == x as bv64;
    hide Wide;
    LowConverted(x);
  }

  lemma LowConverted(x: bv32)
    ensures Low(x as bv64) == Wide(x & 0xffff)
  {}

  lemma XorWide(a: bv32, b: bv32)
    ensures S.ApplyBinary(Xor, Wide(a), Wide(b)) == Wide(Xor32(a, b))
  {
    hide S.ApplyBinary;
    assert Wide(a) == a as bv64 && Wide(b) == b as bv64;
    hide Wide;
    XorConverted(a, b);
  }

  lemma XorConverted(a: bv32, b: bv32)
    ensures S.ApplyBinary(Xor, a as bv64, b as bv64) == Wide(a ^ b)
  {}

  lemma OrWide(a: bv32)
    ensures S.ApplyBinary(Or, Wide(a), 0xa5a5_0000) == Wide(WithMagic32(a))
  {
    hide S.ApplyBinary;
    assert Wide(a) == a as bv64;
    hide Wide;
    OrConverted(a);
  }

  lemma OrConverted(a: bv32)
    ensures S.ApplyBinary(Or, a as bv64, 0xa5a5_0000) == Wide(a | 0xa5a5_0000)
  {}

  lemma WordIsLe32(frame: Bytes, at: nat)
    requires at + 4 <= |frame|
    ensures Word(frame, at) == Wide(Le32(frame, at))
  {
    hide Wide, Join32, Join4, Bits, Eight;
    SliceBits(frame, at);
    WideJoin(Eight(frame[at]), Eight(frame[at + 1]), Eight(frame[at + 2]), Eight(frame[at + 3]));
  }

  function Eight(b: byte): bv8 {
    b as bv8
  }

  lemma BitsAt(s: Bytes, i: nat)
    requires i < |s|
    ensures Bits(s)[i] == Eight(s[i])
  {}

  lemma SliceBits(frame: Bytes, at: nat)
    requires at + 4 <= |frame|
    ensures Bits(frame[at..at + 4]) == [Eight(frame[at]), Eight(frame[at + 1]), Eight(frame[at + 2]), Eight(frame[at + 3])]
  {
    hide Bits, Eight;
    var slice := frame[at..at + 4];
    BitsAt(slice, 0);
    BitsAt(slice, 1);
    BitsAt(slice, 2);
    BitsAt(slice, 3);
  }

  lemma WideJoin(a: bv8, b: bv8, c: bv8, d: bv8)
    ensures Wide(Join32(a, b, c, d)) == Join4([a, b, c, d])
  {
    hide Wide;
    assert Join32(a, b, c, d) == (a as bv32) | ((b as bv32) << 8) | ((c as bv32) << 16) | ((d as bv32) << 24);
    hide Join32;
    WideBytes(a, b, c, d);
  }

  lemma WideBytes(a: bv8, b: bv8, c: bv8, d: bv8)
    ensures Wide((a as bv32) | ((b as bv32) << 8) | ((c as bv32) << 16) | ((d as bv32) << 24)) == Join4([a, b, c, d])
  {}

  /** The rule confirms exactly when 44 bytes arrive that pass the script's test of a frame. */
  lemma N520RuleDecides(host: S.Host, dials: seq<S.Dial>)
    ensures var report := M.Interpret(host, N520Rule(N520, N520_NAMES), dials);
            report.Some? && (report.value.confirmed <==> NseN520Confirms(host.lib.crc32, Arrived(dials, 44)))
  {
    hide M.RunSteps, T.ReadExact, N520Wide, NseN520, M.Field, N520Steps;
    var rule := N520Rule(N520, N520_NAMES);
    assert N520_NAMES.Distinct();
    if S.Opened(dials).Ok? {
      var session := S.Opened(dials).value;
      var read := T.ReadExact(session.conn.wire, 44);
      if read.Ok? {
        N520Runs(host, N520_NAMES, session, read.value);
        WideIsNarrow(host.lib.crc32, read.value.data);
      } else {
        N520Fails(host, N520_NAMES, session);
      }
    }
  }

  /** The rule's test on the first 44 bytes of a response, and the length that it does not check. */
  lemma N520Restricted(crc32: Bytes -> bv32, response: Bytes)
    requires |response| >= 44
    ensures NseN520Confirms(crc32, Some(response)) <==> N520Wide(crc32, response[..44]) && |response| == 44
  {
    hide N520Wide, NseN520;
    WideIsNarrow(crc32, response[..44]);
    assert |response| == 44 ==> response[..44] == response;
  }

  /** Whether the first 44 bytes of a response pass the test of a frame. */
  predicate N520Starts(crc32: Bytes -> bv32, response: Option<Bytes>) {
    response.Some? && |response.value| >= 44 && NseN520(crc32, response.value[..44])
  }

  /**
   * The rule and the script on the same connection, whatever the script receives on it. The rule
   * confirms every response that starts with a good frame, the script only those of 44 bytes; so
   * they agree if and only if the response has no more than 44 bytes or its first 44 fail the test.
   */
  lemma N520RuleIsScript(host: S.Host, dials: seq<S.Dial>, response: Option<Bytes>)
    requires MayArrive(dials, 44, response)
    ensures var report := M.Interpret(host, N520Rule(N520, N520_NAMES), dials);
            var script := NseN520Confirms(host.lib.crc32, response);
            && report.Some?
            && (report.value.confirmed <==> N520Starts(host.lib.crc32, response))
            && (script <==> report.value.confirmed && |response.value| == 44)
            && ((report.value.confirmed <==> script) <==>
                response.None? || |response.value| <= 44 || !NseN520(host.lib.crc32, response.value[..44]))
  {
    hide M.Interpret, NseN520, MayArrive, Arrived;
    N520RuleDecides(host, dials);
    ArrivesFirst(dials, 44, response);
    ArrivedIsExact(dials, 44);
    assert response.Some? && |response.value| == 44 ==> response.value[..44] == response.value;
  }

  lemma ArrivedIsExact(dials: seq<S.Dial>, count: nat)
    ensures Arrived(dials, count).Some? ==> |Arrived(dials, count).value| == count
  {
    hide T.ReadExact;
    if S.Opened(dials).Ok? && T.ReadExact(S.Opened(dials).value.conn.wire, count).Ok? {
      Exactly(S.Opened(dials).value.conn.wire, count);
    }
  }

  /** A peer that sends these bytes at once. */
  function Sends(data: Bytes, ending: T.Ending, certificate: Option<S.Digest>): seq<S.Dial> {
    [S.Connected(S.Conn(T.Wire(T.Items(data), ending), [], certificate))]
  }

  lemma SentArrives(data: Bytes, count: nat, ending: T.Ending, certificate: Option<S.Digest>)
    requires count <= |data|
    ensures MayArrive(Sends(data, ending, certificate), count, Some(data))
  {
    T.RunAppend(data, []);
    assert T.Items(data) + [] == T.Items(data);
    assert data + T.Run([]) == data;
    assert data[..|data|] == data;
  }

  /** A frame with anything after it: the rule confirms it and the script does not. */
  lemma N520RuleWidens(host: S.Host, frame: Bytes, extra: Bytes, ending: T.Ending, certificate: Option<S.Digest>)
    requires NseN520Confirms(host.lib.crc32, Some(frame)) && extra != []
    ensures var dials := Sends(frame + extra, ending, certificate);
            var report := M.Interpret(host, N520Rule(N520, N520_NAMES), dials);
            && MayArrive(dials, 44, Some(frame + extra))
            && report.Some? && report.value.confirmed && !NseN520Confirms(host.lib.crc32, Some(frame + extra))
  {
    hide M.Interpret, NseN520, MayArrive, Sends;
    SentArrives(frame + extra, 44, ending, certificate);
    N520RuleIsScript(host, Sends(frame + extra, ending, certificate), Some(frame + extra));
    assert (frame + extra)[..44] == frame;
  }

  /** The bytes of a number, the least significant first. */
  function Bytes32(x: bv32): (r: Bytes)
    ensures |r| == 4
  {
    [Narrow(x) as byte, Narrow(x >> 8) as byte, Narrow(x >> 16) as byte, Narrow(x >> 24) as byte]
  }

  function Narrow(x: bv32): bv8 {
    (x & 0xff) as bv8
  }

  lemma NarrowJoins(x: bv32)
    ensures Join32(Narrow(x), Narrow(x >> 8), Narrow(x >> 16), Narrow(x >> 24)) == x
  {}

  lemma EightOf(b: bv8)
    ensures Eight(b as byte) == b
  {}

  lemma ReadsBytes32(s: Bytes, at: nat, x: bv32)
    requires at + 4 <= |s| && s[at..at + 4] == Bytes32(x)
    ensures Le32(s, at) == x
  {
    hide Eight, Join32, Narrow;
    var slice := s[at..at + 4];
    assert slice[0] == s[at] && slice[1] == s[at + 1] && slice[2] == s[at + 2] && slice[3] == s[at + 3];
    EightOf(Narrow(x));
    EightOf(Narrow(x >> 8));
    EightOf(Narrow(x >> 16));
    EightOf(Narrow(x >> 24));
    NarrowJoins(x);
  }

  /** The frame of session zero. */
  function ZeroFrame(crc32: Bytes -> bv32): (r: Bytes)
    ensures |r| == 44
  {
    var head := Bytes32(0) + Bytes32(0xa5a5_0000) + seq(32, _ => 0);
    head + Bytes32(crc32(head))
  }

  /** For every checksum there is a frame that both confirm. */
  lemma ZeroFrameConfirmed(crc32: Bytes -> bv32)
    ensures NseN520Confirms(crc32, Some(ZeroFrame(crc32)))
  {
    hide Le32, High32, Low32, Xor32, WithMagic32, Bytes32;
    var frame := ZeroFrame(crc32);
    var head := Bytes32(0) + Bytes32(0xa5a5_0000) + seq(32, _ => 0);
    assert frame[..40] == head;
    assert frame[0..4] == Bytes32(0) && frame[4..8] == Bytes32(0xa5a5_0000) && frame[40..44] == Bytes32(crc32(head));
    ReadsBytes32(frame, 0, 0);
    ReadsBytes32(frame, 4, 0xa5a5_0000);
    ReadsBytes32(frame, 40, crc32(head));
    ZeroSession();
  }

  lemma ZeroSession()
    ensures Xor32(0, WithMagic32(Xor32(High32(0), Low32(0)))) == 0xa5a5_0000
  {}

  lemma N520Fails(host: S.Host, n: N520Names, session: S.Session)
    requires T.ReadExact(session.conn.wire, 44).Err?
    ensures M.RunSteps(host, N520Steps(N520, n), M.Named(map[], map[], session)).Failed?
  {
    hide T.ReadExact;
    assert N520Steps(N520, n)[0] == One(RecvExact(44, n.response));
  }
}
