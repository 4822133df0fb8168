/** The compiler accepts the emitted rules, so what they mean is what their compiled form does. */
module ConverterCompiles {
  import opened Wrappers
  import opened Words
  import opened Schema
  import opened Compiler
  import opened Converter
  import opened ConverterWinos
  import S = Sessions
  import X = Executor
  import M = Meaning
  import I = Ir
  import CompiledMeaning

  lemma Next(lib: S.Library, kind: TransportType, steps: seq<Step>, i: nat, u: Unit, v: Unit)
    requires i < |steps| && CompileStep(lib, kind, steps[i], u) == Some(v)
    ensures CompileSteps(lib, kind, steps[i..], u) == CompileSteps(lib, kind, steps[i + 1..], v)
  {
    hide CompileStep;
    assert steps[i..][1..] == steps[i + 1..];
  }

  /** The parts of a unit that decide whether later steps are accepted. */
  predicate Knows(u: Unit, buffers: map<string, nat>, registers: set<string>, sizes: seq<nat>, matches: nat) {
    u.buffers == buffers && u.registers.Keys == registers && u.sizes == sizes && u.matches == matches && u.nextBuf == |sizes|
  }

  lemma Computes(lib: S.Library, kind: TransportType, steps: seq<Step>, i: nat, u: Unit, name: string, expr: Expr)
      returns (v: Unit)
    requires i < |steps| && steps[i] == One(Compute(name, expr))
    requires name !in u.registers && CompileExpr(expr, u.registers).Some? && u.nextBuf == |u.sizes|
    ensures CompileSteps(lib, kind, steps[i..], u) == CompileSteps(lib, kind, steps[i + 1..], v)
    ensures Knows(v, u.buffers, u.registers.Keys + {name}, u.sizes, u.matches)
  {
    hide CompileExpr, CompileSteps;
    v := CompileStep(lib, kind, steps[i], u).value;
    Next(lib, kind, steps, i, u, v);
  }

  lemma Extracts(lib: S.Library, kind: TransportType, steps: seq<Step>, i: nat, u: Unit,
                 source: string, name: string, k: ExtractKind, offset: nat, length: Option<nat>)
      returns (v: Unit)
    requires i < |steps| && steps[i] == One(Extract(source, name, k, offset, length))
    requires name !in u.registers && Plain(source) && source in u.buffers && u.buffers[source] < |u.sizes| == u.nextBuf
    requires CompileExtract(k, u.buffers[source], offset, length, u.sizes[u.buffers[source]], u.nextReg).Some?
    ensures CompileSteps(lib, kind, steps[i..], u) == CompileSteps(lib, kind, steps[i + 1..], v)
    ensures Knows(v, u.buffers, u.registers.Keys + {name}, u.sizes, u.matches)
  {
    hide CompileExtract, CompileSteps;
    TargetOfRef(source);
    v := CompileStep(lib, kind, steps[i], u).value;
    Next(lib, kind, steps, i, u, v);
  }

  /** A step that only adds a buffer. */
  lemma Buffers(lib: S.Library, kind: TransportType, steps: seq<Step>, i: nat, u: Unit, name: string, size: nat)
      returns (v: Unit)
    requires i < |steps| && u.nextBuf == |u.sizes|
    requires exists op :: CompileStep(lib, kind, steps[i], u) == WithBuffer(u, name, size, op)
    requires name != "" && name !in u.buffers
    ensures CompileSteps(lib, kind, steps[i..], u) == CompileSteps(lib, kind, steps[i + 1..], v)
    ensures Knows(v, u.buffers[name := |u.sizes|], u.registers.Keys, u.sizes + [size], u.matches)
  {
    hide CompileStep, CompileSteps;
    v := CompileStep(lib, kind, steps[i], u).value;
    Next(lib, kind, steps, i, u, v);
  }

  lemma Receives(lib: S.Library, kind: TransportType, steps: seq<Step>, i: nat, u: Unit, count: nat, name: string)
      returns (v: Unit)
    requires i < |steps| && u.nextBuf == |u.sizes| && steps[i] == One(RecvExact(count, name))
    requires 0 < count <= MAX_BUFFER && name != "" && name !in u.buffers
    ensures CompileSteps(lib, kind, steps[i..], u) == CompileSteps(lib, kind, steps[i + 1..], v)
    ensures Knows(v, u.buffers[name := |u.sizes|], u.registers.Keys, u.sizes + [count], u.matches)
  {
    hide WithBuffer, CompileSteps;
    assert CompileStep(lib, kind, steps[i], u) == WithBuffer(u, name, count, I.RecvExact(count, u.nextBuf));
    v := Buffers(lib, kind, steps, i, u, name, count);
  }

  lemma Matches(lib: S.Library, kind: TransportType, steps: seq<Step>, u: Unit, condition: Condition)
      returns (v: Unit)
    requires steps != [] && steps[|steps| - 1] == One(Match(condition, None, None))
    requires CompileCondition(lib, condition, u).Some? && u.nextBuf == |u.sizes|
    ensures CompileSteps(lib, kind, steps[|steps| - 1..], u) == Some(v)
    ensures Knows(v, u.buffers, u.registers.Keys, u.sizes, u.matches + 1)
  {
    hide CompileCondition;
    v := CompileStep(lib, kind, steps[|steps| - 1], u).value;
    assert steps[|steps| - 1..][1..] == [];
  }

  // ----- expressions and conditions

  lemma VarCompiles(regs: map<string, nat>, name: string)
    requires Plain(name) && name in regs
    ensures CompileExpr(Var(name), regs).Some?
  {
    TargetOfRef(name);
  }

  lemma OpCompiles(regs: map<string, nat>, kind: BinaryKind, left: Expr, right: Expr)
    requires CompileExpr(left, regs).Some? && CompileExpr(right, regs).Some?
    ensures CompileExpr(Op(kind, left, right), regs).Some?
  {}

  lemma EqualsCompiles(lib: S.Library, u: Unit, left: Expr, right: Expr)
    requires CompileExpr(left, u.registers).Some? && CompileExpr(right, u.registers).Some?
    ensures CompileCondition(lib, Equals(left, right), u).Some?
  {
    hide CompileExpr;
    assert CompileTest(lib, Compare(Eq, left, right), u).Some?;
  }

  lemma ListCompiles(lib: S.Library, u: Unit, first: Condition, rest: seq<Condition>)
    requires CompileCondition(lib, first, u).Some? && CompileConditions(lib, rest, u).Some?
    ensures CompileConditions(lib, [first] + rest, u).Some? && CompileConditions(lib, [], u).Some?
  {
    hide CompileCondition;
    assert ([first] + rest)[1..] == rest;
  }

  lemma AllCompiles(lib: S.Library, u: Unit, conditions: seq<Condition>)
    requires conditions != [] && CompileConditions(lib, conditions, u).Some?
    ensures CompileCondition(lib, Condition([All(conditions)]), u).Some?
    ensures CompileCondition(lib, Condition([Any(conditions)]), u).Some?
  {
    assert CompileTest(lib, All(conditions), u).Some? && CompileTest(lib, Any(conditions), u).Some?;
  }

  // ----- the N520 rule

  lemma N520HeadCompiles(lib: S.Library, n: N520Names) returns (u: Unit)
    requires n.Distinct()
    ensures CompileSteps(lib, Tls, N520Steps(N520, n), EMPTY_UNIT) == CompileSteps(lib, Tls, N520Steps(N520, n)[3..], u)
    ensures Knows(u, map[n.response := 0], {n.sessionId, n.receivedMagic}, [44], 0)
  {
    hide CompileSteps, CompileExpr, CompileCondition;
    var steps := N520Steps(N520, n);
    assert steps[0..] == steps;
    u := Receives(lib, Tls, steps, 0, EMPTY_UNIT, 44, n.response);
    u := Extracts(lib, Tls, steps, 1, u, n.response, n.sessionId, ExtractNumber(U32Le), 0, None);
    u := Extracts(lib, Tls, steps, 2, u, n.response, n.receivedMagic, ExtractNumber(U32Le), 4, None);
  }

  lemma N520StepsCompile(lib: S.Library, n: N520Names) returns (v: Unit)
    requires n.Distinct()
    ensures CompileSteps(lib, Tls, N520Steps(N520, n), EMPTY_UNIT) == Some(v)
    ensures Knows(v, map[n.response := 0],
                  {n.sessionId, n.receivedMagic, n.storedCrc, n.calculatedCrc, n.sessionHigh, n.sessionLow,
                   n.folded, n.mixed, n.expectedMagic}, [44], 1)
  {
    hide CompileSteps, CompileExpr, CompileCondition;
    var u := N520HeadCompiles(lib, n);
    var steps := N520Steps(N520, n);
    u := Extracts(lib, Tls, steps, 3, u, n.response, n.storedCrc, ExtractNumber(U32Le), 40, None);
    u := Extracts(lib, Tls, steps, 4, u, n.response, n.calculatedCrc, Crc32, 0, Some(40));
    v := N520Rest(lib, n, u);
  }

  /** A computation from one register and a number. */
  lemma ComputesFrom(lib: S.Library, kind: TransportType, steps: seq<Step>, i: nat, u: Unit,
                     name: string, op: BinaryKind, source: string, number: u64)
      returns (v: Unit)
    requires i < |steps| && steps[i] == One(Compute(name, Op(op, Var(source), Number(number))))
    requires name !in u.registers && Plain(source) && source in u.registers && u.nextBuf == |u.sizes|
    ensures CompileSteps(lib, kind, steps[i..], u) == CompileSteps(lib, kind, steps[i + 1..], v)
    ensures Knows(v, u.buffers, u.registers.Keys + {name}, u.sizes, u.matches)
  {
    hide CompileSteps, CompileExpr, Plain;
    VarCompiles(u.registers, source);
    NumberCompiles(u.registers, number);
    OpCompiles(u.registers, op, Var(source), Number(number));
    v := Computes(lib, kind, steps, i, u, name, Op(op, Var(source), Number(number)));
  }

  /** A computation from two registers. */
  lemma ComputesBoth(lib: S.Library, kind: TransportType, steps: seq<Step>, i: nat, u: Unit,
                     name: string, op: BinaryKind, left: string, right: string)
      returns (v: Unit)
    requires i < |steps| && steps[i] == One(Compute(name, Op(op, Var(left), Var(right))))
    requires name !in u.registers && Plain(left) && left in u.registers && Plain(right) && right in u.registers
    requires u.nextBuf == |u.sizes|
    ensures CompileSteps(lib, kind, steps[i..], u) == CompileSteps(lib, kind, steps[i + 1..], v)
    ensures Knows(v, u.buffers, u.registers.Keys + {name}, u.sizes, u.matches)
  {
    hide CompileSteps, CompileExpr, Plain;
    VarCompiles(u.registers, left);
    VarCompiles(u.registers, right);
    OpCompiles(u.registers, op, Var(left), Var(right));
    v := Computes(lib, kind, steps, i, u, name, Op(op, Var(left), Var(right)));
  }

  lemma N520Rest(lib: S.Library, n: N520Names, start: Unit) returns (v: Unit)
    requires n.Distinct()
    requires Knows(start, map[n.response := 0], {n.sessionId, n.receivedMagic, n.storedCrc, n.calculatedCrc}, [44], 0)
    ensures CompileSteps(lib, Tls, N520Steps(N520, n)[5..], start) == Some(v)
    ensures Knows(v, map[n.response := 0],
                  {n.sessionId, n.receivedMagic, n.storedCrc, n.calculatedCrc, n.sessionHigh, n.sessionLow,
                   n.folded, n.mixed, n.expectedMagic}, [44], 1)
  {
    hide CompileSteps, Plain, N520Steps;
    var u := N520Folds(lib, n, start);
    u := N520Mixes(lib, n, u);
    v := N520Verdict(lib, n, u);
  }

  lemma N520Folds(lib: S.Library, n: N520Names, start: Unit) returns (u: Unit)
    requires n.Distinct() && start.nextBuf == |start.sizes|
    requires start.registers.Keys == {n.sessionId, n.receivedMagic, n.storedCrc, n.calculatedCrc}
    ensures CompileSteps(lib, Tls, N520Steps(N520, n)[5..], start) == CompileSteps(lib, Tls, N520Steps(N520, n)[8..], u)
    ensures Knows(u, start.buffers, start.registers.Keys + {n.sessionHigh, n.sessionLow, n.folded}, start.sizes, start.matches)
  {
    hide CompileSteps, Plain;
    var steps := N520Steps(N520, n);
    u := ComputesFrom(lib, Tls, steps, 5, start, n.sessionHigh, ShiftRight, n.sessionId, 16);
    u := ComputesFrom(lib, Tls, steps, 6, u, n.sessionLow, And, n.sessionId, 65535);
    u := ComputesBoth(lib, Tls, steps, 7, u, n.folded, Xor, n.sessionHigh, n.sessionLow);
  }

  lemma N520Mixes(lib: S.Library, n: N520Names, start: Unit) returns (u: Unit)
    requires n.Distinct() && start.nextBuf == |start.sizes|
    requires {n.sessionId, n.folded} <= start.registers.Keys
    requires n.mixed !in start.registers && n.expectedMagic !in start.registers
    ensures CompileSteps(lib, Tls, N520Steps(N520, n)[8..], start) == CompileSteps(lib, Tls, N520Steps(N520, n)[10..], u)
    ensures Knows(u, start.buffers, start.registers.Keys + {n.mixed, n.expectedMagic}, start.sizes, start.matches)
  {
    hide CompileSteps, Plain;
    var steps := N520Steps(N520, n);
    u := ComputesFrom(lib, Tls, steps, 8, start, n.mixed, Or, n.folded, 0xa5a5_0000);
    u := ComputesBoth(lib, Tls, steps, 9, u, n.expectedMagic, Xor, n.sessionId, n.mixed);
  }

  lemma N520Verdict(lib: S.Library, n: N520Names, u: Unit) returns (v: Unit)
    requires n.Distinct() && u.nextBuf == |u.sizes|
    requires {n.receivedMagic, n.expectedMagic, n.storedCrc, n.calculatedCrc} <= u.registers.Keys
    ensures CompileSteps(lib, Tls, N520Steps(N520, n)[10..], u) == Some(v)
    ensures Knows(v, u.buffers, u.registers.Keys, u.sizes, u.matches + 1)
  {
    hide CompileSteps, CompileExpr, CompileCondition, Plain;
    var magic := Equals(Var(n.receivedMagic), Var(n.expectedMagic));
    var crc := Equals(Var(n.storedCrc), Var(n.calculatedCrc));
    VarCompiles(u.registers, n.receivedMagic);
    VarCompiles(u.registers, n.expectedMagic);
    VarCompiles(u.registers, n.storedCrc);
    VarCompiles(u.registers, n.calculatedCrc);
    EqualsCompiles(lib, u, Var(n.receivedMagic), Var(n.expectedMagic));
    EqualsCompiles(lib, u, Var(n.storedCrc), Var(n.calculatedCrc));
    PairCompiles(lib, u, magic, crc);
    v := Matches(lib, Tls, N520Steps(N520, n), u, Condition([All([magic, crc])]));
  }

  lemma NumberCompiles(regs: map<string, nat>, n: u64)
    ensures CompileExpr(Number(n), regs) == Some(I.Literal(n))
  {}

  lemma PairCompiles(lib: S.Library, u: Unit, one: Condition, other: Condition)
    requires CompileCondition(lib, one, u).Some? && CompileCondition(lib, other, u).Some?
    ensures CompileCondition(lib, Condition([All([one, other])]), u).Some?
  {
    hide CompileCondition;
    assert CompileConditions(lib, [], u).Some?;
    ListCompiles(lib, u, other, []);
    assert [other] + [] == [other] && [one] + [other] == [one, other];
    ListCompiles(lib, u, one, [other]);
    AllCompiles(lib, u, [one, other]);
  }

  // ----- reported fields

  /** Not the name of a special field. */
  predicate Reportable(name: string) {
    Plain(name) && ':' !in name && name != "rejected"
  }

  lemma RegisterFieldCompiles(name: string, u: Unit)
    requires Reportable(name) && name in u.registers
    ensures CompileField(JsonString(Ref(name)), u).Some?
  {
    var text := Ref(name);
    TargetOfRef(name);
    NoMark(name, "$hex:", 4);
    NoMark(name, "$text:", 5);
    assert text[1..] == name && "$rejected"[1..] == "rejected";
    assert text[..1] == "$";
  }

  lemma NoMark(name: string, prefix: string, at: nat)
    requires ':' !in name && 0 < at < |prefix| && prefix[at] == ':'
    ensures M.AfterPrefix(Ref(name), prefix).None?
  {
    var text := Ref(name);
    assert at - 1 < |name| ==> text[at] == name[at - 1] && name[at - 1] in name;
    assert |prefix| <= |text| ==> text[..|prefix|][at] == text[at];
  }

  lemma FieldsCompile(fields: map<string, Json>, u: Unit)
    requires forall n :: n in fields ==> CompileField(fields[n], u).Some?
    ensures CompileFields(fields, u).Some?
  {}

  lemma N520Accepted(lib: S.Library)
    ensures Compile(lib, N520Rule(N520, N520_NAMES)).Some?
  {
    hide CompileSteps, CompileFields, CompileField, N520Steps, IsBlank;
    var n := N520_NAMES;
    assert n.Distinct();
    var u := N520StepsCompile(lib, n);
    assert Sum([44]) == 44;
    var rule := N520Rule(N520, n);
    N520FieldsCompile(u);
    FieldsCompile(rule.result.fields, u);
    assert !IsBlank("valleyrat-n520") by { assert !IsSpace("valleyrat-n520"[0]); NotBlank("valleyrat-n520"); }
  }

  lemma NotBlank(text: string)
    requires text != "" && !IsSpace(text[0])
    ensures !IsBlank(text)
  {}

  lemma N520FieldsCompile(u: Unit)
    requires {"session_id", "received_magic", "expected_magic", "stored_crc", "calculated_crc"} <= u.registers.Keys
    ensures forall f :: f in N520Rule(N520, N520_NAMES).result.fields ==>
              CompileField(N520Rule(N520, N520_NAMES).result.fields[f], u).Some?
  {
    hide CompileField;
    RegisterFieldCompiles("session_id", u);
    RegisterFieldCompiles("received_magic", u);
    RegisterFieldCompiles("expected_magic", u);
    RegisterFieldCompiles("stored_crc", u);
    RegisterFieldCompiles("calculated_crc", u);
    OtherFieldCompiles(0, u);
  }

  lemma OtherFieldCompiles(id: int, u: Unit)
    ensures CompileField(JsonOther(id), u).Some?
  {}

  /**
   * The emitted N520 rule compiles. Whatever the script receives on the same connection, the compiled
   * rule confirms it if it starts with a good frame, the script if it has 44 bytes as well; they agree
   * if and only if the response has no more than 44 bytes or its first 44 fail the test.
   */
  lemma N520CompiledIsScript(host: S.Host, dials: seq<S.Dial>, response: Option<Bytes>)
    requires MayArrive(dials, 44, response)
    ensures Compile(host.lib, N520Rule(N520, N520_NAMES)).Some?
    ensures var confirmed := X.Execute(host, Compile(host.lib, N520Rule(N520, N520_NAMES)).value, dials).confirmed;
            var script := NseN520Confirms(host.lib.crc32, response);
            && (confirmed <==> N520Starts(host.lib.crc32, response))
            && (script <==> confirmed && |response.value| == 44)
            && ((confirmed <==> script) <==>
                response.None? || |response.value| <= 44 || !NseN520(host.lib.crc32, response.value[..44]))
  {
    hide Compile, X.Execute, M.Interpret, MayArrive, NseN520Confirms, NseN520;
    N520Accepted(host.lib);
    CompiledMeaning.CompilerCorrect(host, N520Rule(N520, N520_NAMES), dials);
    N520RuleIsScript(host, dials, response);
  }

  // ----- the Winos rule

  lemma PacksNumber(lib: S.Library, kind: TransportType, steps: seq<Step>, i: nat, u: Unit,
                    name: string, number: u64, k: NumberKind)
      returns (v: Unit)
    requires i < |steps| && steps[i] == One(Pack(name, Number(number), k, false)) && k.Holds(number)
    requires u.nextBuf == |u.sizes| && Plain(name) && name !in u.buffers
    ensures CompileSteps(lib, kind, steps[i..], u) == CompileSteps(lib, kind, steps[i + 1..], v)
    ensures Knows(v, u.buffers[name := |u.sizes|], u.registers.Keys, u.sizes + [k.Size()], u.matches)
  {
    hide WithBuffer, CompileSteps, NumberKind.Holds;
    assert CompileStep(lib, kind, steps[i], u) ==
           WithBuffer(u, name, k.Size(), I.Pack(I.Literal(number), k, false, u.nextBuf));
    v := Buffers(lib, kind, steps, i, u, name, k.Size());
  }

  lemma PacksRegister(lib: S.Library, kind: TransportType, steps: seq<Step>, i: nat, u: Unit,
                      name: string, source: string, k: NumberKind)
      returns (v: Unit)
    requires i < |steps| && steps[i] == One(Pack(name, Var(source), k, false)) && Plain(source) && source in u.registers
    requires u.nextBuf == |u.sizes| && Plain(name) && name !in u.buffers
    ensures CompileSteps(lib, kind, steps[i..], u) == CompileSteps(lib, kind, steps[i + 1..], v)
    ensures Knows(v, u.buffers[name := |u.sizes|], u.registers.Keys, u.sizes + [k.Size()], u.matches)
  {
    hide WithBuffer, CompileSteps, NumberKind.Holds;
    TargetOfRef(source);
    assert CompileStep(lib, kind, steps[i], u) ==
           WithBuffer(u, name, k.Size(), I.Pack(I.Register(u.registers[source]), k, false, u.nextBuf));
    v := Buffers(lib, kind, steps, i, u, name, k.Size());
  }

  lemma SourcesCompile(u: Unit, sources: seq<string>, name: string, rest: seq<nat>)
    requires sources != [] && sources[0] == Ref(name) && Plain(name) && name in u.buffers
    requires SourceIndexes(u, sources[1..]) == Some(rest)
    ensures SourceIndexes(u, sources) == Some([u.buffers[name]] + rest)
  {
    TargetOfRef(name);
  }

  lemma PartsCompile(u: Unit, n: WinosNames)
    requires n.AllPlain()
    requires {n.requestLength, n.requestMagic, n.requestReserved, n.requestType, n.requestPayload} <= u.buffers.Keys
    ensures SourceIndexes(u, RequestParts(n)) ==
            Some([u.buffers[n.requestLength]] + ([u.buffers[n.requestMagic]] + ([u.buffers[n.requestReserved]] +
                 ([u.buffers[n.requestType]] + ([u.buffers[n.requestPayload]] + [])))))
  {
    hide Plain;
    var parts := RequestParts(n);
    assert parts[1..][1..] == parts[2..] && parts[2..][1..] == parts[3..] && parts[3..][1..] == parts[4..];
    assert parts[4..][1..] == [];
    var a := [u.buffers[n.requestPayload]] + [];
    var b := [u.buffers[n.requestType]] + a;
    var c := [u.buffers[n.requestReserved]] + b;
    SourcesCompile(u, parts[4..], n.requestPayload, []);
    SourcesCompile(u, parts[3..], n.requestType, a);
    SourcesCompile(u, parts[2..], n.requestReserved, b);
    SourcesCompile(u, parts[1..], n.requestMagic, c);
    SourcesCompile(u, parts, n.requestLength, [u.buffers[n.requestMagic]] + c);
  }

  lemma Joins15(lib: S.Library, kind: TransportType, steps: seq<Step>, i: nat, u: Unit, n: WinosNames) returns (v: Unit)
    requires i < |steps| && steps[i] == One(Concat(n.request, RequestParts(n))) && n.AllPlain()
    requires u.buffers == map[n.requestLength := 0, n.requestMagic := 1, n.requestReserved := 2, n.requestType := 3,
                              n.requestPayload := 4] && u.sizes == [4, 4, 4, 2, 1] && u.nextBuf == 5
    requires n.DistinctBuffers()
    ensures CompileSteps(lib, kind, steps[i..], u) == CompileSteps(lib, kind, steps[i + 1..], v)
    ensures Knows(v, u.buffers[n.request := 5], u.registers.Keys, u.sizes + [15], u.matches)
  {
    assert n.request != "";
    hide WithBuffer, CompileSteps, Plain;
    PartsCompile(u, n);
    var indexes := [0] + ([1] + ([2] + ([3] + ([4] + []))));
    assert SourceIndexes(u, RequestParts(n)) == Some(indexes);
    FifteenBytes(u, indexes);
    hide SourceIndexes, TotalSize;
    assert CompileStep(lib, kind, steps[i], u) == WithBuffer(u, n.request, 15, I.Concat(indexes, u.nextBuf));
    v := Buffers(lib, kind, steps, i, u, n.request, 15);
  }

  lemma FifteenBytes(u: Unit, indexes: seq<nat>)
    requires u.sizes == [4, 4, 4, 2, 1] && indexes == [0] + ([1] + ([2] + ([3] + ([4] + []))))
    ensures TotalSize(u, indexes) == 15
  {
    assert indexes == [0, 1, 2, 3, 4] && indexes[1..] == [1, 2, 3, 4] && indexes[1..][1..] == [2, 3, 4];
    assert indexes[1..][1..][1..] == [3, 4] && indexes[1..][1..][1..][1..] == [4];
    assert TotalSize(u, [4]) == 1;
    assert TotalSize(u, [3, 4]) == 3;
    assert TotalSize(u, [2, 3, 4]) == 7;
    assert TotalSize(u, [1, 2, 3, 4]) == 11;
  }

  lemma Emits(lib: S.Library, kind: TransportType, steps: seq<Step>, i: nat, u: Unit) returns (v: Unit)
    requires i < |steps| && u.nextBuf == |u.sizes|
    requires exists op :: CompileStep(lib, kind, steps[i], u) == Some(Emit(u, op))
    ensures CompileSteps(lib, kind, steps[i..], u) == CompileSteps(lib, kind, steps[i + 1..], v)
    ensures Knows(v, u.buffers, u.registers.Keys, u.sizes, u.matches)
  {
    hide CompileStep, CompileSteps;
    v := CompileStep(lib, kind, steps[i], u).value;
    Next(lib, kind, steps, i, u, v);
  }

  lemma SendsSource(lib: S.Library, kind: TransportType, steps: seq<Step>, i: nat, u: Unit, source: string) returns (v: Unit)
    requires i < |steps| && steps[i] == One(Send(None, Some(Ref(source)))) && Plain(source) && source in u.buffers
    requires u.nextBuf == |u.sizes|
    ensures CompileSteps(lib, kind, steps[i..], u) == CompileSteps(lib, kind, steps[i + 1..], v)
    ensures Knows(v, u.buffers, u.registers.Keys, u.sizes, u.matches)
  {
    hide CompileSteps, Emit;
    TargetOfRef(source);
    assert CompileStep(lib, kind, steps[i], u) == Some(Emit(u, I.SendBuffer(u.buffers[source])));
    v := Emits(lib, kind, steps, i, u);
  }

  lemma RejectsPrefix(lib: S.Library, kind: TransportType, steps: seq<Step>, i: nat, u: Unit,
                      source: string, prefix: string, status: string) returns (v: Unit)
    requires i < |steps| && steps[i] == One(RejectIf(Condition([BufferStartsWith(source, prefix)]), status, 0.0))
    requires Plain(source) && source in u.buffers && Plain(prefix) && prefix in u.buffers && !IsBlank(status)
    requires u.nextBuf == |u.sizes|
    ensures CompileSteps(lib, kind, steps[i..], u) == CompileSteps(lib, kind, steps[i + 1..], v)
    ensures Knows(v, u.buffers, u.registers.Keys, u.sizes, u.matches)
  {
    hide CompileSteps, Emit, IsBlank;
    TargetOfRef(source);
    TargetOfRef(prefix);
    var op := I.BufferStartsWith(u.buffers[source], u.buffers[prefix]);
    assert CompileTest(lib, BufferStartsWith(source, prefix), u) == Some(op);
    assert CompileCondition(lib, Condition([BufferStartsWith(source, prefix)]), u) == Some(op);
    hide CompileCondition;
    assert CompileStep(lib, kind, steps[i], u) == Some(Emit(u, I.RejectIf(op, 0.0, status)));
    v := Emits(lib, kind, steps, i, u);
  }

  lemma WinosRequestCompiles(lib: S.Library, n: WinosNames) returns (u: Unit)
    requires n.Distinct()
    ensures CompileSteps(lib, Tcp, WinosSteps(WINOS, n), EMPTY_UNIT) == CompileSteps(lib, Tcp, WinosSteps(WINOS, n)[7..], u)
    ensures Knows(u, map[n.requestLength := 0, n.requestMagic := 1, n.requestReserved := 2, n.requestType := 3,
                         n.requestPayload := 4], {n.requestMask, n.requestCommand}, [4, 4, 4, 2, 1], 0)
  {
    hide CompileSteps, CompileExpr, Plain, NumberKind.Holds;
    RequestArithmetic();
    var steps := WinosSteps(WINOS, n);
    assert steps[0..] == steps;
    var none: map<string, nat> := map[];
    NumberCompiles(none, 0x78);
    NumberCompiles(none, 54);
    OpCompiles(none, Add, Number(0x78), Number(54));
    u := Computes(lib, Tcp, steps, 0, EMPTY_UNIT, n.requestMask, Op(Add, Number(0x78), Number(54)));
    NumberCompiles(u.registers, 0xc9);
    VarCompiles(u.registers, n.requestMask);
    OpCompiles(u.registers, Xor, Number(0xc9), Var(n.requestMask));
    u := Computes(lib, Tcp, steps, 1, u, n.requestCommand, Op(Xor, Number(0xc9), Var(n.requestMask)));
    u := WinosPartsCompile(lib, n, u);
  }

  lemma WinosPartsCompile(lib: S.Library, n: WinosNames, start: Unit) returns (u: Unit)
    requires n.DistinctBuffers() && n.AllPlain() && Knows(start, map[], {n.requestMask, n.requestCommand}, [], 0)
    ensures CompileSteps(lib, Tcp, WinosSteps(WINOS, n)[2..], start) == CompileSteps(lib, Tcp, WinosSteps(WINOS, n)[7..], u)
    ensures Knows(u, map[n.requestLength := 0, n.requestMagic := 1, n.requestReserved := 2, n.requestType := 3,
                         n.requestPayload := 4], {n.requestMask, n.requestCommand}, [4, 4, 4, 2, 1], 0)
  {
    hide CompileSteps, WinosSteps;
    u := WinosHeaderCompiles(lib, n, start);
    u := WinosTrailerCompiles(lib, n, u);
  }

  lemma DecodeSteps(n: WinosNames)
    ensures var steps := WinosSteps(WINOS, n);
            && |steps| == 17
            && steps[10] == One(Extract(n.response, n.declaredLength, ExtractNumber(U32Le), 0, None))
            && steps[11] == One(Extract(n.response, n.headerFirst, ExtractNumber(U8), 4, None))
            && steps[12] == One(Extract(n.response, n.encryptedCommand, ExtractNumber(U8), 14, None))
            && steps[13] == One(Compute(n.mask, Op(Add, Var(n.headerFirst), Number(54))))
            && steps[14] == One(Compute(n.responseCommand, Op(Xor, Var(n.encryptedCommand), Var(n.mask))))
  {}

  lemma WinosHeaderCompiles(lib: S.Library, n: WinosNames, start: Unit) returns (u: Unit)
    requires n.DistinctBuffers() && n.AllPlain() && Knows(start, map[], {n.requestMask, n.requestCommand}, [], 0)
    ensures CompileSteps(lib, Tcp, WinosSteps(WINOS, n)[2..], start) == CompileSteps(lib, Tcp, WinosSteps(WINOS, n)[4..], u)
    ensures Knows(u, map[n.requestLength := 0, n.requestMagic := 1], {n.requestMask, n.requestCommand}, [4, 4], 0)
  {
    hide CompileSteps, NumberKind.Holds, Plain, WinosSteps, Var, One;
    RequestFits();
    PackSteps(n);
    var steps := WinosSteps(WINOS, n);
    u := PacksNumber(lib, Tcp, steps, 2, start, n.requestLength, 15, U32Le);
    u := PacksNumber(lib, Tcp, steps, 3, u, n.requestMagic, 0x1234_5678, U32Le);
  }

  lemma WinosTrailerCompiles(lib: S.Library, n: WinosNames, start: Unit) returns (u: Unit)
    requires n.DistinctBuffers() && n.AllPlain()
    requires Knows(start, map[n.requestLength := 0, n.requestMagic := 1], {n.requestMask, n.requestCommand}, [4, 4], 0)
    ensures CompileSteps(lib, Tcp, WinosSteps(WINOS, n)[4..], start) == CompileSteps(lib, Tcp, WinosSteps(WINOS, n)[7..], u)
    ensures Knows(u, map[n.requestLength := 0, n.requestMagic := 1, n.requestReserved := 2, n.requestType := 3,
                         n.requestPayload := 4], {n.requestMask, n.requestCommand}, [4, 4, 4, 2, 1], 0)
  {
    hide CompileSteps, NumberKind.Holds, Plain, WinosSteps, Var, One;
    RequestFits();
    PackSteps(n);
    var steps := WinosSteps(WINOS, n);
    u := PacksNumber(lib, Tcp, steps, 4, start, n.requestReserved, 0, U32Le);
    u := PacksNumber(lib, Tcp, steps, 5, u, n.requestType, 0xca, U16Le);
    u := PacksRegister(lib, Tcp, steps, 6, u, n.requestPayload, n.requestCommand, U8);
  }

  lemma ExchangeSteps(n: WinosNames)
    ensures var steps := WinosSteps(WINOS, n);
            && |steps| == 17
            && steps[7] == One(Concat(n.request, RequestParts(n)))
            && steps[8] == One(Send(None, Some(Ref(n.request))))
            && steps[9] == One(RecvExact(15, n.response))
  {}

  lemma WinosExchangeCompiles(lib: S.Library, n: WinosNames, start: Unit) returns (u: Unit)
    requires n.Distinct()
    requires Knows(start, map[n.requestLength := 0, n.requestMagic := 1, n.requestReserved := 2, n.requestType := 3,
                              n.requestPayload := 4], {n.requestMask, n.requestCommand}, [4, 4, 4, 2, 1], 0)
    ensures CompileSteps(lib, Tcp, WinosSteps(WINOS, n)[7..], start) == CompileSteps(lib, Tcp, WinosSteps(WINOS, n)[10..], u)
    ensures u.registers.Keys == {n.requestMask, n.requestCommand} && {n.request, n.response} <= u.buffers.Keys
    ensures u.buffers[n.response] == 6 && u.sizes == [4, 4, 4, 2, 1, 15, 15] && u.nextBuf == 7 && u.matches == 0
  {
    hide CompileSteps, WinosSteps, RequestParts, One, Ref;
    ExchangeSteps(n);
    var steps := WinosSteps(WINOS, n);
    u := Joins15(lib, Tcp, steps, 7, start, n);
    u := SendsSource(lib, Tcp, steps, 8, u, n.request);
    u := Receives(lib, Tcp, steps, 9, u, 15, n.response);
    assert u.sizes == [4, 4, 4, 2, 1, 15, 15];
  }

  lemma WinosExtractsCompile(lib: S.Library, n: WinosNames, start: Unit) returns (u: Unit)
    requires n.DistinctRegisters() && n.AllPlain() && start.registers.Keys == {n.requestMask, n.requestCommand}
    requires n.response in start.buffers && start.buffers[n.response] < |start.sizes| == start.nextBuf
    requires start.sizes[start.buffers[n.response]] == 15
    ensures CompileSteps(lib, Tcp, WinosSteps(WINOS, n)[10..], start) == CompileSteps(lib, Tcp, WinosSteps(WINOS, n)[15..], u)
    ensures Knows(u, start.buffers, {n.requestMask, n.requestCommand, n.declaredLength, n.headerFirst, n.encryptedCommand,
                                     n.mask, n.responseCommand}, start.sizes, start.matches)
  {
    hide CompileSteps, Plain, WinosSteps, Var, One, Op;
    DecodeSteps(n);
    var steps := WinosSteps(WINOS, n);
    u := Extracts(lib, Tcp, steps, 10, start, n.response, n.declaredLength, ExtractNumber(U32Le), 0, None);
    u := Extracts(lib, Tcp, steps, 11, u, n.response, n.headerFirst, ExtractNumber(U8), 4, None);
    u := Extracts(lib, Tcp, steps, 12, u, n.response, n.encryptedCommand, ExtractNumber(U8), 14, None);
    u := ComputesFrom(lib, Tcp, steps, 13, u, n.mask, Add, n.headerFirst, 54);
    u := ComputesBoth(lib, Tcp, steps, 14, u, n.responseCommand, Xor, n.encryptedCommand, n.mask);
  }

  lemma CommandsCompile(lib: S.Library, u: Unit, n: WinosNames)
    requires Plain(n.responseCommand) && n.responseCommand in u.registers
    ensures CompileCondition(lib, Commands(WINOS, n), u).Some?
  {
    hide CompileCondition, CompileConditions, CompileExpr, Plain;
    VarCompiles(u.registers, n.responseCommand);
    var x, y, z := Equals(Var(n.responseCommand), Number(201)), Equals(Var(n.responseCommand), Number(202)),
                   Equals(Var(n.responseCommand), Number(203));
    NumberCompiles(u.registers, 201);
    NumberCompiles(u.registers, 202);
    NumberCompiles(u.registers, 203);
    EqualsCompiles(lib, u, Var(n.responseCommand), Number(201));
    EqualsCompiles(lib, u, Var(n.responseCommand), Number(202));
    EqualsCompiles(lib, u, Var(n.responseCommand), Number(203));
    NoneCompile(lib, u);
    ListCompiles(lib, u, z, []);
    ListCompiles(lib, u, y, [z] + []);
    ListCompiles(lib, u, x, [y] + ([z] + []));
    assert [x] + ([y] + ([z] + [])) == [x, y, z];
    AllCompiles(lib, u, [x, y, z]);
  }

  lemma NoneCompile(lib: S.Library, u: Unit)
    ensures CompileConditions(lib, [], u) == Some([])
  {}

  lemma WinosVerdictCompiles(lib: S.Library, n: WinosNames, start: Unit) returns (v: Unit)
    requires n.Distinct() && start.nextBuf == |start.sizes|
    requires {n.request, n.response} <= start.buffers.Keys && {n.declaredLength, n.responseCommand} <= start.registers.Keys
    ensures CompileSteps(lib, Tcp, WinosSteps(WINOS, n)[15..], start) == Some(v)
    ensures Knows(v, start.buffers, start.registers.Keys, start.sizes, start.matches + 1)
  {
    hide CompileSteps, CompileCondition, CompileExpr, IsBlank;
    var steps := WinosSteps(WINOS, n);
    assert !IsBlank("winos_request_reflected") by { NotBlank("winos_request_reflected"); }
    var u := RejectsPrefix(lib, Tcp, steps, 15, start, n.response, n.request, "winos_request_reflected");
    var length := Equals(Var(n.declaredLength), Number(15));
    VarCompiles(u.registers, n.declaredLength);
    NumberCompiles(u.registers, 15);
    EqualsCompiles(lib, u, Var(n.declaredLength), Number(15));
    CommandsCompile(lib, u, n);
    PairCompiles(lib, u, length, Commands(WINOS, n));
    v := Matches(lib, Tcp, steps, u, Condition([All([length, Commands(WINOS, n)])]));
  }

  lemma WinosStepsCompile(lib: S.Library, n: WinosNames) returns (v: Unit)
    requires n.Distinct()
    ensures CompileSteps(lib, Tcp, WinosSteps(WINOS, n), EMPTY_UNIT) == Some(v)
    ensures {n.declaredLength, n.responseCommand} <= v.registers.Keys
    ensures v.sizes == [4, 4, 4, 2, 1, 15, 15] && v.matches == 1
  {
    hide CompileSteps, WinosSteps;
    var u := WinosRequestCompiles(lib, n);
    u := WinosExchangeCompiles(lib, n, u);
    u := WinosExtractsCompile(lib, n, u);
    v := WinosVerdictCompiles(lib, n, u);
  }

  lemma WinosAccepted(lib: S.Library)
    ensures Compile(lib, WinosRule(WINOS, WINOS_NAMES)).Some?
  {
    hide CompileSteps, CompileFields, CompileField, WinosSteps, IsBlank;
    WinosNamesDistinct();
    var u := WinosStepsCompile(lib, WINOS_NAMES);
    WinosSum();
    WinosFieldsCompile(u);
    FieldsCompile(WinosRule(WINOS, WINOS_NAMES).result.fields, u);
    assert !IsBlank("valleyrat-winos") by { NotBlank("valleyrat-winos"); }
  }

  lemma WinosSum()
    ensures Sum([4, 4, 4, 2, 1, 15, 15]) <= MAX_PROBE_BUFFERS
  {
    assert Sum([15]) == 15;
    assert Sum([15, 15]) == 30;
    assert Sum([1, 15, 15]) == 31;
    assert Sum([2, 1, 15, 15]) == 33;
    assert Sum([4, 2, 1, 15, 15]) == 37;
    assert Sum([4, 4, 2, 1, 15, 15]) == 41;
  }

  lemma WinosFieldsCompile(u: Unit)
    requires {"declared_length", "response_command"} <= u.registers.Keys
    ensures forall f :: f in WinosRule(WINOS, WINOS_NAMES).result.fields ==>
              CompileField(WinosRule(WINOS, WINOS_NAMES).result.fields[f], u).Some?
  {
    hide CompileField;
    RegisterFieldCompiles("declared_length", u);
    RegisterFieldCompiles("response_command", u);
    RejectedFieldCompiles(u);
    OtherFieldCompiles(0, u);
  }

  lemma RejectedFieldCompiles(u: Unit)
    ensures CompileField(JsonString("$rejected"), u).Some?
  {
    NoMark("rejected", "$hex:", 4);
    NoMark("rejected", "$text:", 5);
    assert Ref("rejected") == "$rejected";
  }

  /**
   * The emitted Winos rule compiles; its compiled form asks as the script does and, whatever the
   * script receives in answer, confirms if and only if the script confirms, the declared length is
   * 15 and the header byte is at most 201.
   */
  lemma WinosCompiledIsScript(host: S.Host, dials: seq<S.Dial>, response: Option<Bytes>)
    requires MayAnswer(dials, response)
    ensures Compile(host.lib, WinosRule(WINOS, WINOS_NAMES)).Some?
    ensures var report := X.Execute(host, Compile(host.lib, WinosRule(WINOS, WINOS_NAMES)).value, dials);
            && (report.confirmed <==> response.Some? && NseWinos(response.value) && RuleAdmits(response.value))
            && (S.Opened(dials).Ok? && S.SendAll(S.Opened(dials).value, NSE_FRAME).Ok? ==> report.sent == [NSE_FRAME])
  {
    hide Compile, X.Execute, M.Interpret, RuleMatches, Command, S.SendAll, MayAnswer, Answer;
    WinosAccepted(host.lib);
    CompiledMeaning.CompilerCorrect(host, WinosRule(WINOS, WINOS_NAMES), dials);
    WinosRuleDecides(host, dials);
    AnswerHasFifteen(dials);
    AnswersFirst(dials, response);
    if Answer(dials).Some? {
      RuleIsScriptRestricted(response.value);
    }
  }

  lemma AnswerHasFifteen(dials: seq<S.Dial>)
    ensures Answer(dials).Some? ==> |Answer(dials).value| == 15
  {
    hide S.SendAll;
  }
}
