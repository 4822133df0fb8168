/** Which probe documents the compiler accepts, in terms of the document alone. */
module Acceptance {
  import opened Wrappers
  import opened Words
  import opened HttpText
  import opened Schema
  import opened Compiler
  import HttpRequest
  import Sessions
  import Encodings
  import Meaning
  import Ir

  // ----- the rules

  /** What earlier steps defined: buffers with the most each can hold, registers, and the sum of the former. */
  datatype Known = Known(sizes: map<string, nat>, numbers: set<string>, total: nat)

  const NOTHING: Known := Known(map[], {}, 0)

  predicate NewBuffer(k: Known, name: string) {
    name != "" && name !in k.sizes
  }

  predicate NewNumber(k: Known, name: string) {
    name != "" && name !in k.numbers
  }

  /** References may be written with dollar signs in front. */
  predicate Names(k: Known, reference: string) {
    Target(reference) in k.sizes
  }

  function SizeKnown(k: Known, reference: string): nat {
    if Names(k, reference) then k.sizes[Target(reference)] else 0
  }

  function Sized(k: Known, name: string, size: nat): Known {
    k.(sizes := k.sizes[name := size], total := k.total + size)
  }

  function Numbered(k: Known, name: string): Known {
    k.(numbers := k.numbers + {name})
  }

  predicate IsHexDigit(b: byte) {
    48 <= b <= 57 || 65 <= b <= 70 || 97 <= b <= 102
  }

  /** Pairs of hexadecimal digits, at least one, with white space anywhere. */
  predicate IsHex(text: Bytes) {
    var digits := Encodings.DropSpaces(text);
    digits != [] && |digits| % 2 == 0 && forall i :: 0 <= i < |digits| ==> IsHexDigit(digits[i])
  }

  /** The number of bytes hexadecimal text stands for. */
  function HexSize(text: Bytes): nat {
    |Encodings.DropSpaces(text)| / 2
  }

  predicate TokenText(s: Bytes) {
    1 <= |s| <= 128 && forall i :: 0 <= i < |s| ==> IsTokenByte(s[i])
  }

  predicate PathText(s: Bytes) {
    1 <= |s| <= 2048 && s[0] == 47 && forall i :: 0 <= i < |s| ==> s[i] != 0 && s[i] != 10 && s[i] != 13
  }

  predicate ValueText(s: Bytes) {
    |s| <= 4096 && forall i :: 0 <= i < |s| ==> s[i] != 10 && s[i] != 13
  }

  /** Every operator is given once, and only defined registers are read. */
  predicate GoodExpr(e: Expr, numbers: set<string>) {
    match e
    case Number(_) => true
    case Reference(name) => Target(name) in numbers
    case Operation(present) => |present| == 1 && GoodExpr(present[0].left, numbers) && GoodExpr(present[0].right, numbers)
  }

  predicate GoodCondition(lib: Sessions.Library, c: Condition, k: Known)
    decreases c, 1
  {
    |c.present| == 1 && GoodTest(lib, c.present[0], k)
  }

  predicate GoodTest(lib: Sessions.Library, t: Test, k: Known)
    decreases t, 0
  {
    match t
    case All(conditions) => |conditions| > 0 && forall i :: 0 <= i < |conditions| ==> GoodCondition(lib, conditions[i], k)
    case Any(conditions) => |conditions| > 0 && forall i :: 0 <= i < |conditions| ==> GoodCondition(lib, conditions[i], k)
    case Not(condition) => GoodCondition(lib, condition, k)
    case Compare(_, left, right) => GoodExpr(left, k.numbers) && GoodExpr(right, k.numbers)
    case BytesEq(source, offset, hex) => Names(k, source) && IsHex(hex) && offset + HexSize(hex) <= SizeKnown(k, source)
    case BytesContains(source, hex) => Names(k, source) && IsHex(hex)
    case BytesRegex(source, pattern) => Names(k, source) && |pattern| <= 4096 && lib.regexCompiles(pattern)
    case BufferStartsWith(source, prefix) => Names(k, source) && Names(k, prefix)
  }

  /** The most a transform can give from a source of at most `size` bytes. */
  function MostTransformed(t: TransformSpec, size: nat): nat {
    match t
    case AsciiHexDecode => size / 2
    case Base64Encode => 4 * ((size + 2) / 3)
    case GzipDecompress(_, maxBytes) => maxBytes
    case _ => size
  }

  ghost predicate GoodTransform(t: TransformSpec, size: nat) {
    && 1 <= MostTransformed(t, size) <= 1048576
    && match t
       case Rc4(keyBase64) => exists key :: 1 <= |key| <= 256 && keyBase64 == Encodings.Base64Encode(key)
       case GzipDecompress(offset, _) => offset < size
       case MsgpackString(key) => 1 <= |key| <= 128
       case _ => true
  }

  predicate GoodExtract(k: ExtractKind, offset: nat, length: Option<nat>, size: nat) {
    match k
    case ExtractNumber(kind) => offset + kind.Size() <= size
    case Crc32 => length.Some? && length.value > 0 && offset + length.value <= size
    case BufferLen => offset == 0 && length.None?
    case AsciiDecimal => length.Some? && 1 <= length.value <= 20 && offset + length.value <= size
  }

  function TotalKnown(k: Known, sources: seq<string>): nat {
    if sources == [] then 0 else SizeKnown(k, sources[0]) + TotalKnown(k, sources[1..])
  }

  /** A constant is packed without truncation only if its kind keeps all of it. */
  predicate FitsKind(value: Expr, kind: NumberKind) {
    value.Number? ==> Kept(value.n, kind) == value.n
  }

  /** Whether a step is accepted after the definitions before it. */
  ghost predicate GoodAction(lib: Sessions.Library, transport: TransportType, a: Action, k: Known) {
    match a
    case Send(sendHex, sendSource) =>
      || (sendHex.Some? && sendSource.None? && IsHex(sendHex.value))
      || (sendHex.None? && sendSource.Some? && Names(k, sendSource.value))
    case Literal(name, text) => NewBuffer(k, name) && 1 <= |text| <= 1048576
    case Pack(name, value, kind, wrap) =>
      NewBuffer(k, name) && GoodExpr(value, k.numbers) && (wrap || FitsKind(value, kind))
    case Concat(name, sources) =>
      && NewBuffer(k, name) && sources != [] && (forall i :: 0 <= i < |sources| ==> Names(k, sources[i]))
      && TotalKnown(k, sources) <= 1048576
    case RecvExact(bytes, saveAs) => NewBuffer(k, saveAs) && 1 <= bytes <= 1048576
    case RecvUpTo(minBytes, maxBytes, saveAs) => NewBuffer(k, saveAs) && 1 <= minBytes <= maxBytes <= 1048576
    case RecvUntil(delimiterHex, maxBytes, saveAs) =>
      NewBuffer(k, saveAs) && 1 <= maxBytes <= 1048576 && IsHex(delimiterHex) && HexSize(delimiterHex) <= maxBytes
    case RecvFrame(_, minBytes, maxBytes, saveAs, lengthAs) =>
      NewBuffer(k, saveAs) && NewNumber(k, lengthAs) && 1 <= minBytes <= maxBytes <= 1048576
    case RecvHttp(maxHeader, maxBody, _, bodyAs, headerAs, statusAs, contentLengthAs) =>
      && NewBuffer(k, headerAs) && NewBuffer(k, bodyAs) && bodyAs != headerAs
      && NewNumber(k, statusAs) && NewNumber(k, contentLengthAs) && contentLengthAs != statusAs
      && 1 <= maxHeader <= 1048576 && maxBody <= 1048576
    case SendHttp(verb, path, headers, bodySource) =>
      && TokenText(verb) && PathText(path)
      && (forall i :: 0 <= i < |headers| ==> TokenText(headers[i].name) && ValueText(headers[i].value))
      && (bodySource.Some? ==> Names(k, bodySource.value))
    case Reconnect => true
    case PeerCertificate(saveAs) => NewBuffer(k, saveAs) && !transport.Tcp?
    case Transform(source, name, present) =>
      NewBuffer(k, name) && Names(k, source) && |present| == 1 && GoodTransform(present[0], SizeKnown(k, source))
    case RejectIf(condition, status, confidence) =>
      !IsBlank(status) && 0.0 <= confidence <= 1.0 && GoodCondition(lib, condition, k)
    case Extract(source, name, extract, offset, length) =>
      name !in k.numbers && Names(k, source) && GoodExtract(extract, offset, length, SizeKnown(k, source))
    case Compute(name, expr) => name !in k.numbers && GoodExpr(expr, k.numbers)
    case Match(condition, confidence, _) =>
      GoodCondition(lib, condition, k) && (confidence.Some? ==> 0.0 <= confidence.value <= 1.0)
  }

  /** The definitions after a step. */
  function Defined(a: Action, k: Known): Known {
    match a
    case Literal(name, text) => Sized(k, name, |text|)
    case Pack(name, _, kind, _) => Sized(k, name, kind.Size())
    case Concat(name, sources) => Sized(k, name, TotalKnown(k, sources))
    case RecvExact(bytes, saveAs) => Sized(k, saveAs, bytes)
    case RecvUpTo(_, maxBytes, saveAs) => Sized(k, saveAs, maxBytes)
    case RecvUntil(_, maxBytes, saveAs) => Sized(k, saveAs, maxBytes)
    case RecvFrame(_, _, maxBytes, saveAs, lengthAs) => Numbered(Sized(k, saveAs, maxBytes), lengthAs)
    case RecvHttp(maxHeader, maxBody, _, bodyAs, headerAs, statusAs, contentLengthAs) =>
      Numbered(Numbered(Sized(Sized(k, headerAs, maxHeader), bodyAs, maxBody), statusAs), contentLengthAs)
    case PeerCertificate(saveAs) => Sized(k, saveAs, 32)
    case Transform(source, name, present) =>
      Sized(k, name, if |present| == 1 then MostTransformed(present[0], SizeKnown(k, source)) else 0)
    case Extract(_, name, _, _, _) => Numbered(k, name)
    case Compute(name, _) => Numbered(k, name)
    case _ => k
  }

  /** The definitions after some steps. */
  function DefinedBy(steps: seq<Step>): Known {
    if steps == [] then NOTHING
    else
      var last, before := steps[|steps| - 1], DefinedBy(steps[..|steps| - 1]);
      if |last.present| == 1 then Defined(last.present[0], before) else before
  }

  ghost predicate GoodStep(lib: Sessions.Library, transport: TransportType, s: Step, k: Known) {
    |s.present| == 1 && GoodAction(lib, transport, s.present[0], k)
  }

  ghost predicate GoodSteps(lib: Sessions.Library, transport: TransportType, steps: seq<Step>) {
    forall i :: 0 <= i < |steps| ==> GoodStep(lib, transport, steps[i], DefinedBy(steps[..i]))
  }

  predicate IsMatch(s: Step) {
    |s.present| == 1 && s.present[0].Match?
  }

  ghost predicate OneMatch(steps: seq<Step>) {
    exists i :: 0 <= i < |steps| && IsMatch(steps[i]) && forall j :: 0 <= j < |steps| && j != i ==> !IsMatch(steps[j])
  }

  predicate StartsWith(text: string, prefix: string) {
    |prefix| <= |text| && text[..|prefix|] == prefix
  }

  predicate GoodField(value: Json, k: Known) {
    match value
    case JsonOther(_) => true
    case JsonString(text) =>
      if StartsWith(text, "$hex:") then Names(k, text[5..])
      else if StartsWith(text, "$text:") then Names(k, text[6..])
      else text == "$rejected" || !StartsWith(text, "$") || Target(text) in k.numbers
  }

  predicate GoodTransport(t: TransportSpec) {
    && (t.kind.Tcp? || t.insecureTls)
    && (t.kind.Starttls? <==> t.preludeHex.Some?)
    && (t.preludeHex.Some? ==> IsHex(t.preludeHex.value) && HexSize(t.preludeHex.value) <= 4096)
  }

  ghost predicate Acceptable(lib: Sessions.Library, doc: ProbeDocument) {
    && doc.dslVersion == 1 && !IsBlank(doc.name) && GoodTransport(doc.transport)
    && (forall i :: 0 <= i < |doc.scopePorts| ==> doc.scopePorts[i] != 0)
    && GoodSteps(lib, doc.transport.kind, doc.steps) && OneMatch(doc.steps)
    && DefinedBy(doc.steps).total <= 4194304
    && doc.result.confirmed == "$match"
    && 0.0 <= doc.result.confidence <= 1.0 && 0.0 <= doc.result.unmatchedConfidence <= 1.0
    && forall f :: f in doc.result.fields ==> GoodField(doc.result.fields[f], DefinedBy(doc.steps))
  }

  /** All dollar signs in front of a reference are dropped, and nothing else. */
  lemma TargetStrips(name: string)
    ensures Target("$" + name) == Target(name)
    ensures name == "" || name[0] != '$' ==> Target(name) == name
  {
    assert ("$" + name)[1..] == name;
  }

  // ----- the locals of the loop and the definitions so far

  ghost predicate Tracks(u: Unit, k: Known) {
    && u.buffers.Keys == k.sizes.Keys && u.registers.Keys == k.numbers && u.nextBuf == |u.sizes|
    && (forall n :: n in u.buffers ==> u.buffers[n] < |u.sizes| && u.sizes[u.buffers[n]] == k.sizes[n])
    && Sum(u.sizes) == k.total
  }

  lemma {:induction false} SumAppend(sizes: seq<nat>, size: nat)
    ensures Sum(sizes + [size]) == Sum(sizes) + size
  {
    if sizes == [] {
      assert [size][1..] == [];
    } else {
      assert (sizes + [size])[1..] == sizes[1..] + [size];
      SumAppend(sizes[1..], size);
    }
  }

  lemma BufferAdded(u: Unit, k: Known, name: string, size: nat)
    requires Tracks(u, k)
    ensures AddBuffer(u, name, size).Some? <==> NewBuffer(k, name)
    ensures AddBuffer(u, name, size).Some? ==>
              Tracks(AddBuffer(u, name, size).value, Sized(k, name, size)) && AddBuffer(u, name, size).value.matches == u.matches
  {
    hide Sum;
    SumAppend(u.sizes, size);
  }

  lemma RegisterAdded(u: Unit, k: Known, name: string)
    requires Tracks(u, k)
    ensures AddRegister(u, name).Some? <==> NewNumber(k, name)
    ensures AddRegister(u, name).Some? ==>
              Tracks(AddRegister(u, name).value, Numbered(k, name)) && AddRegister(u, name).value.matches == u.matches
    ensures InsertRegister(u, name).Some? <==> name !in k.numbers
    ensures InsertRegister(u, name).Some? ==>
              Tracks(InsertRegister(u, name).value, Numbered(k, name)) && InsertRegister(u, name).value.matches == u.matches
  {
    hide Sum;
  }

  /** What a compiled step must show: it is accepted if and only if it is good, and then its definitions are tracked. */
  ghost predicate Decided(r: Option<Unit>, good: bool, u: Unit, next: Known, matches: nat) {
    (r.Some? <==> good) && (r.Some? ==> Tracks(r.value, next) && r.value.matches == u.matches + matches)
  }

  lemma Emitted(u: Unit, k: Known, op: Ir.Op)
    requires Tracks(u, k)
    ensures Tracks(Emit(u, op), k) && Emit(u, op).matches == u.matches
  {
    hide Sum;
  }

  lemma BufferDecided(u: Unit, k: Known, name: string, size: nat, op: Ir.Op)
    requires Tracks(u, k)
    ensures Decided(WithBuffer(u, name, size, op), NewBuffer(k, name), u, Sized(k, name, size), 0)
  {
    hide Tracks, AddBuffer, Emit, Sized, NewBuffer;
    BufferAdded(u, k, name, size);
    if AddBuffer(u, name, size).Some? {
      Emitted(AddBuffer(u, name, size).value, Sized(k, name, size), op);
    }
  }

  lemma RegisterDecided(u: Unit, k: Known, name: string, op: Ir.Op)
    requires Tracks(u, k)
    ensures Decided(WithRegister(u, name, op), name !in k.numbers, u, Numbered(k, name), 0)
  {
    hide Tracks, InsertRegister, Emit, Numbered;
    RegisterAdded(u, k, name);
    if InsertRegister(u, name).Some? {
      Emitted(InsertRegister(u, name).value, Numbered(k, name), op);
    }
  }

  lemma IndexKnown(u: Unit, k: Known, reference: string)
    requires Tracks(u, k)
    ensures BufferIndex(u, reference).Some? <==> Names(k, reference)
    ensures BufferIndex(u, reference).Some? ==> SizeOf(u, BufferIndex(u, reference).value) == SizeKnown(k, reference)
  {
    hide Sum;
  }

  // ----- texts and numbers

  lemma {:induction false} DecodesIff(s: Bytes)
    ensures Encodings.HexDecode(s).Some? <==> |s| % 2 == 0 && forall i :: 0 <= i < |s| ==> IsHexDigit(s[i])
    decreases |s|
  {
    if |s| >= 2 {
      DecodesIff(s[2..]);
      assert forall i :: 2 <= i < |s| ==> s[i] == s[2..][i - 2];
    }
  }

  lemma HexIff(text: Bytes)
    ensures Encodings.ParseHex(text).Some? && Encodings.ParseHex(text).value != [] <==> IsHex(text)
    ensures Encodings.ParseHex(text).Some? ==> |Encodings.ParseHex(text).value| == HexSize(text)
  {
    hide Encodings.DropSpaces, Encodings.HexDecode;
    DecodesIff(Encodings.DropSpaces(text));
  }

  lemma {:induction false} ExprDecided(e: Expr, u: Unit, k: Known)
    requires Tracks(u, k)
    ensures CompileExpr(e, u.registers).Some? <==> GoodExpr(e, k.numbers)
    ensures CompileExpr(e, u.registers).Some? ==>
              (CompileExpr(e, u.registers).value.Literal? <==> e.Number?) &&
              (e.Number? ==> CompileExpr(e, u.registers).value.value == e.n)
    decreases e
  {
    hide Tracks;
    assert u.registers.Keys == k.numbers by { RegistersTracked(u, k); }
    match e
    case Operation(present) =>
      if |present| == 1 {
        ExprDecided(present[0].left, u, k);
        ExprDecided(present[0].right, u, k);
      }
    case _ =>
  }

  lemma RegistersTracked(u: Unit, k: Known)
    requires Tracks(u, k)
    ensures u.registers.Keys == k.numbers
  {}

  lemma {:induction false} ConditionDecided(lib: Sessions.Library, c: Condition, u: Unit, k: Known)
    requires Tracks(u, k)
    ensures CompileCondition(lib, c, u).Some? <==> GoodCondition(lib, c, k)
    decreases c, 1
  {
    hide Tracks, CompileTest, GoodTest;
    if |c.present| == 1 {
      TestDecided(lib, c.present[0], u, k);
    }
  }

  lemma {:induction false} TestDecided(lib: Sessions.Library, t: Test, u: Unit, k: Known)
    requires Tracks(u, k)
    ensures CompileTest(lib, t, u).Some? <==> GoodTest(lib, t, k)
    decreases t, 0
  {
    hide Tracks, CompileCondition, GoodCondition, CompileConditions, CompileExpr, GoodExpr, BufferIndex, Names, SizeOf, SizeKnown,
      Encodings.ParseHex, IsHex, HexSize;
    match t
    case All(conditions) => ConditionsDecided(lib, conditions, u, k);
    case Any(conditions) => ConditionsDecided(lib, conditions, u, k);
    case Not(condition) => ConditionDecided(lib, condition, u, k);
    case Compare(_, left, right) =>
      ExprDecided(left, u, k);
      ExprDecided(right, u, k);
    case BytesEq(source, _, hex) =>
      IndexKnown(u, k, source);
      HexIff(hex);
    case BytesContains(source, hex) =>
      IndexKnown(u, k, source);
      HexIff(hex);
    case BytesRegex(source, _) => IndexKnown(u, k, source);
    case BufferStartsWith(source, prefix) =>
      IndexKnown(u, k, source);
      IndexKnown(u, k, prefix);
  }

  lemma {:induction false} ConditionsDecided(lib: Sessions.Library, conditions: seq<Condition>, u: Unit, k: Known)
    requires Tracks(u, k)
    ensures CompileConditions(lib, conditions, u).Some? <==>
            forall i :: 0 <= i < |conditions| ==> GoodCondition(lib, conditions[i], k)
    decreases conditions, 0
  {
    hide Tracks, CompileCondition, GoodCondition;
    if conditions != [] {
      ConditionDecided(lib, conditions[0], u, k);
      ConditionsDecided(lib, conditions[1..], u, k);
      assert forall i :: 1 <= i < |conditions| ==> conditions[i] == conditions[1..][i - 1];
    }
  }

  // ----- steps

  lemma ReadDecided(lib: Sessions.Library, transport: TransportType, a: Action, u: Unit, k: Known)
    requires Tracks(u, k) && (a.RecvExact? || a.RecvUpTo? || a.RecvUntil? || a.PeerCertificate?)
    ensures Decided(CompileReceive(transport, a, u), GoodAction(lib, transport, a, k), u, Defined(a, k), 0)
  {
    hide Tracks, WithBuffer, NewBuffer, Sized, Encodings.ParseHex, IsHex, HexSize;
    match a
    case RecvExact(bytes, saveAs) => BufferDecided(u, k, saveAs, bytes, Ir.RecvExact(bytes, u.nextBuf));
    case RecvUpTo(min, max, saveAs) => BufferDecided(u, k, saveAs, max, Ir.RecvUpTo(min, max, u.nextBuf));
    case RecvUntil(hex, max, saveAs) =>
      HexIff(hex);
      if Encodings.ParseHex(hex).Some? {
        BufferDecided(u, k, saveAs, max, Ir.RecvUntil(Encodings.ParseHex(hex).value, max, u.nextBuf));
      }
    case PeerCertificate(saveAs) => BufferDecided(u, k, saveAs, 32, Ir.PeerCertificateSha256(u.nextBuf));
  }

  lemma FrameDecided(lib: Sessions.Library, transport: TransportType, a: Action, u: Unit, k: Known)
    requires Tracks(u, k) && a.RecvFrame?
    ensures Decided(CompileReceive(transport, a, u), GoodAction(lib, transport, a, k), u, Defined(a, k), 0)
  {
    hide Tracks, AddBuffer, AddRegister, Emit, Sized, Numbered;
    BufferAdded(u, k, a.saveAs, a.maxBytes);
    var v := AddBuffer(u, a.saveAs, a.maxBytes);
    if v.Some? {
      var l := Sized(k, a.saveAs, a.maxBytes);
      assert l.numbers == k.numbers by { SizedKeeps(k, a.saveAs, a.maxBytes); }
      RegisterAdded(v.value, l, a.lengthAs);
      var w := AddRegister(v.value, a.lengthAs);
      if w.Some? {
        Emitted(w.value, Numbered(l, a.lengthAs), Ir.RecvFrame(a.kind, a.minBytes, a.maxBytes, u.nextBuf, u.nextReg));
      }
    }
  }

  lemma SizedKeeps(k: Known, name: string, size: nat)
    ensures Sized(k, name, size).numbers == k.numbers && Sized(k, name, size).sizes.Keys == k.sizes.Keys + {name}
    ensures Numbered(k, name).sizes == k.sizes && Numbered(k, name).numbers == k.numbers + {name}
  {}

  lemma ReplyAdded(a: Action, u: Unit, k: Known)
    requires Tracks(u, k) && a.RecvHttp?
    ensures Decided(AddReply(u, a.headerAs, a.maxHeader, a.bodyAs, a.maxBody, a.statusAs, a.contentLengthAs),
                    NewBuffer(k, a.headerAs) && NewBuffer(k, a.bodyAs) && a.bodyAs != a.headerAs &&
                    NewNumber(k, a.statusAs) && NewNumber(k, a.contentLengthAs) && a.contentLengthAs != a.statusAs,
                    u, Defined(a, k), 0)
  {
    hide Tracks, AddBuffer, AddRegister, Sized, Numbered;
    BufferAdded(u, k, a.headerAs, a.maxHeader);
    SizedKeeps(k, a.headerAs, a.maxHeader);
    var v := AddBuffer(u, a.headerAs, a.maxHeader);
    if v.Some? {
      var l := Sized(k, a.headerAs, a.maxHeader);
      BufferAdded(v.value, l, a.bodyAs, a.maxBody);
      SizedKeeps(l, a.bodyAs, a.maxBody);
      var w := AddBuffer(v.value, a.bodyAs, a.maxBody);
      if w.Some? {
        var m := Sized(l, a.bodyAs, a.maxBody);
        RegisterAdded(w.value, m, a.statusAs);
        SizedKeeps(m, a.statusAs, 0);
        if AddRegister(w.value, a.statusAs).Some? {
          RegisterAdded(AddRegister(w.value, a.statusAs).value, Numbered(m, a.statusAs), a.contentLengthAs);
        }
      }
    }
  }

  lemma ReplyDecided(lib: Sessions.Library, transport: TransportType, a: Action, u: Unit, k: Known)
    requires Tracks(u, k) && a.RecvHttp?
    ensures Decided(CompileReceive(transport, a, u), GoodAction(lib, transport, a, k), u, Defined(a, k), 0)
  {
    hide Tracks, AddReply, Emit, NewBuffer, NewNumber, Sized, Numbered;
    ReplyAdded(a, u, k);
    var v := AddReply(u, a.headerAs, a.maxHeader, a.bodyAs, a.maxBody, a.statusAs, a.contentLengthAs);
    if v.Some? {
      Emitted(v.value, Defined(a, k), Ir.RecvHttp(a.maxHeader, a.maxBody, a.headersOnly,
                                                  u.nextBuf, u.nextBuf + 1, u.nextReg, u.nextReg + 1));
    }
  }

  lemma {:induction false} SourcesDecided(u: Unit, k: Known, sources: seq<string>)
    requires Tracks(u, k)
    ensures SourceIndexes(u, sources).Some? <==> forall i :: 0 <= i < |sources| ==> Names(k, sources[i])
    ensures SourceIndexes(u, sources).Some? ==> TotalSize(u, SourceIndexes(u, sources).value) == TotalKnown(k, sources)
  {
    hide Tracks, BufferIndex, Names, SizeOf, SizeKnown;
    if sources != [] {
      IndexKnown(u, k, sources[0]);
      SourcesDecided(u, k, sources[1..]);
      assert forall i :: 1 <= i < |sources| ==> sources[i] == sources[1..][i - 1];
      if SourceIndexes(u, sources).Some? {
        var first, rest := BufferIndex(u, sources[0]).value, SourceIndexes(u, sources[1..]).value;
        assert ([first] + rest)[1..] == rest;
      }
    }
  }

  lemma KeyIff(keyBase64: Bytes)
    ensures (exists key :: 1 <= |key| <= 256 && keyBase64 == Encodings.Base64Encode(key)) <==>
            (var key := Encodings.Base64Decode(keyBase64); key.Some? && 1 <= |key.value| <= 256)
  {
    hide Encodings.Base64Encode, Encodings.Base64Decode;
    if key :| 1 <= |key| <= 256 && keyBase64 == Encodings.Base64Encode(key) {
      Encodings.DecodeAfterEncode(key);
    }
    if Encodings.Base64Decode(keyBase64).Some? {
      Encodings.EncodeAfterDecode(keyBase64);
    }
  }

  lemma TransformDecided(t: TransformSpec, size: nat)
    ensures GoodTransform(t, size) <==>
            (var kind := Meaning.KindOf(t);
             kind.Some? && TransformAllowed(kind.value, size) && 0 < TransformBound(kind.value, size) <= MAX_BUFFER)
    ensures Meaning.KindOf(t).Some? ==> TransformBound(Meaning.KindOf(t).value, size) == MostTransformed(t, size)
  {
    hide Encodings.Base64Encode, Encodings.Base64Decode;
    if t.Rc4? {
      KeyIff(t.keyBase64);
    }
  }

  lemma BuildDecided(lib: Sessions.Library, transport: TransportType, a: Action, u: Unit, k: Known)
    requires Tracks(u, k) && Builds(a)
    ensures Decided(CompileBuild(a, u), GoodAction(lib, transport, a, k), u, Defined(a, k), 0)
  {
    hide Tracks, WithBuffer, NewBuffer, Sized, CompileExpr, GoodExpr, NumberKind.Holds, NumberKind.Size, Kept, SourceIndexes, TotalSize,
      TotalKnown, Names, SizeKnown, BufferIndex, SizeOf, Meaning.KindOf, TransformAllowed, TransformBound, GoodTransform, MostTransformed;
    match a
    case Literal(name, text) => BufferDecided(u, k, name, |text|, Ir.SetLiteral(text, u.nextBuf));
    case Pack(name, value, kind, wrap) =>
      ExprDecided(value, u, k);
      if value.Number? {
        HoldsIff(value.n, kind);
      }
      if CompileExpr(value, u.registers).Some? {
        BufferDecided(u, k, name, kind.Size(), Ir.Pack(CompileExpr(value, u.registers).value, kind, wrap, u.nextBuf));
      }
    case Concat(name, sources) =>
      SourcesDecided(u, k, sources);
      if SourceIndexes(u, sources).Some? {
        var indexes := SourceIndexes(u, sources).value;
        BufferDecided(u, k, name, TotalSize(u, indexes), Ir.Concat(indexes, u.nextBuf));
      }
    case Transform(source, name, present) =>
      IndexKnown(u, k, source);
      if BufferIndex(u, source).Some? && |present| == 1 {
        var src := BufferIndex(u, source).value;
        TransformDecided(present[0], SizeOf(u, src));
        if Meaning.KindOf(present[0]).Some? {
          var kind := Meaning.KindOf(present[0]).value;
          BufferDecided(u, k, name, TransformBound(kind, SizeOf(u, src)), Ir.Transform(src, u.nextBuf, kind));
        }
      }
  }

  lemma TextsDecided(verb: Bytes, path: Bytes, headers: seq<HttpRequest.Header>)
    ensures HttpRequest.ValidToken(verb) <==> TokenText(verb)
    ensures HttpRequest.ValidPath(path) <==> PathText(path)
    ensures HttpRequest.ValidHeaders(headers) <==>
            forall i :: 0 <= i < |headers| ==> TokenText(headers[i].name) && ValueText(headers[i].value)
  {}

  lemma SendDecided(lib: Sessions.Library, transport: TransportType, a: Action, u: Unit, k: Known)
    requires Tracks(u, k) && (a.Send? || a.SendHttp?)
    ensures Decided(CompileControl(lib, a, u), GoodAction(lib, transport, a, k), u, Defined(a, k), 0)
  {
    hide Tracks, Emit, Encodings.ParseHex, IsHex, HexSize, BufferIndex, Names, HttpRequest.ValidToken, HttpRequest.ValidPath,
      HttpRequest.ValidHeaders, TokenText, PathText, ValueText;
    if CompileControl(lib, a, u).Some? {
      EmitsOne(lib, a, u);
      var op :| CompileControl(lib, a, u).value == Emit(u, op);
      Emitted(u, k, op);
    }
    match a
    case Send(sendHex, sendSource) =>
      if sendHex.Some? {
        HexIff(sendHex.value);
      }
      if sendSource.Some? {
        IndexKnown(u, k, sendSource.value);
      }
    case SendHttp(verb, path, headers, bodySource) =>
      TextsDecided(verb, path, headers);
      if bodySource.Some? {
        IndexKnown(u, k, bodySource.value);
      }
  }

  lemma EmitsOne(lib: Sessions.Library, a: Action, u: Unit)
    requires (a.Send? || a.SendHttp?) && CompileControl(lib, a, u).Some?
    ensures exists op :: CompileControl(lib, a, u).value == Emit(u, op)
  {
    hide Encodings.ParseHex, BufferIndex, HttpRequest.ValidToken, HttpRequest.ValidPath, HttpRequest.ValidHeaders, Emit;
  }

  lemma ExtractDecided(a: Action, src: nat, size: nat, dst: nat)
    requires a.Extract?
    ensures CompileExtract(a.extract, src, a.offset, a.length, size, dst).Some? <==> GoodExtract(a.extract, a.offset, a.length, size)
  {
    hide NumberKind.Size;
  }

  lemma ControlDecided(lib: Sessions.Library, transport: TransportType, a: Action, u: Unit, k: Known)
    requires Tracks(u, k) && !Receives(a) && !Builds(a) && !a.Send? && !a.SendHttp?
    ensures Decided(CompileControl(lib, a, u), GoodAction(lib, transport, a, k), u, Defined(a, k), if a.Match? then 1 else 0)
  {
    hide Tracks, Emit, WithRegister, Numbered, CompileExpr, GoodExpr, CompileCondition, GoodCondition, CompileExtract, GoodExtract,
      BufferIndex, Names, SizeOf, SizeKnown, IsBlank;
    match a
    case Reconnect => Emitted(u, k, Ir.Reconnect);
    case RejectIf(condition, status, confidence) =>
      ConditionDecided(lib, condition, u, k);
      if CompileCondition(lib, condition, u).Some? {
        Emitted(u, k, Ir.RejectIf(CompileCondition(lib, condition, u).value, confidence, status));
      }
    case Extract(source, name, extract, offset, length) =>
      IndexKnown(u, k, source);
      if BufferIndex(u, source).Some? {
        var src := BufferIndex(u, source).value;
        ExtractDecided(a, src, SizeOf(u, src), u.nextReg);
        var op := CompileExtract(extract, src, offset, length, SizeOf(u, src), u.nextReg);
        if op.Some? {
          RegisterDecided(u, k, name, op.value);
        }
      }
    case Compute(name, expr) =>
      ExprDecided(expr, u, k);
      if CompileExpr(expr, u.registers).Some? {
        RegisterDecided(u, k, name, Ir.Compute(CompileExpr(expr, u.registers).value, u.nextReg));
      }
    case Match(condition, confidence, status) =>
      ConditionDecided(lib, condition, u, k);
      if CompileCondition(lib, condition, u).Some? {
        var v := Emit(u, Ir.Match(CompileCondition(lib, condition, u).value, confidence, status));
        Emitted(u, k, Ir.Match(CompileCondition(lib, condition, u).value, confidence, status));
        MatchCounted(v, k);
      }
  }

  lemma MatchCounted(u: Unit, k: Known)
    requires Tracks(u, k)
    ensures Tracks(u.(matches := u.matches + 1), k)
  {
    hide Sum;
  }

  /** A step is accepted if and only if it is good after the definitions before it. */
  lemma ActionDecided(lib: Sessions.Library, transport: TransportType, a: Action, u: Unit, k: Known)
    requires Tracks(u, k)
    ensures Decided(CompileAction(lib, transport, a, u), GoodAction(lib, transport, a, k), u, Defined(a, k), if a.Match? then 1 else 0)
  {
    hide CompileReceive, CompileBuild, CompileControl, GoodAction, Defined, Decided, Tracks;
    if a.RecvFrame? {
      FrameDecided(lib, transport, a, u, k);
    } else if a.RecvHttp? {
      ReplyDecided(lib, transport, a, u, k);
    } else if Receives(a) {
      ReadDecided(lib, transport, a, u, k);
    } else if Builds(a) {
      BuildDecided(lib, transport, a, u, k);
    } else if a.Send? || a.SendHttp? {
      SendDecided(lib, transport, a, u, k);
    } else {
      ControlDecided(lib, transport, a, u, k);
    }
  }

  // ----- documents

  function CountMatches(steps: seq<Step>): nat {
    if steps == [] then 0
    else CountMatches(steps[..|steps| - 1]) + if IsMatch(steps[|steps| - 1]) then 1 else 0
  }

  ghost predicate NoMatch(steps: seq<Step>) {
    forall i :: 0 <= i < |steps| ==> !IsMatch(steps[i])
  }

  /** The match is at `i` and nowhere else. */
  ghost predicate MatchAt(steps: seq<Step>, i: nat) {
    i < |steps| && IsMatch(steps[i]) && forall j :: 0 <= j < |steps| && j != i ==> !IsMatch(steps[j])
  }

  lemma MatchLast(before: seq<Step>, last: Step)
    ensures NoMatch(before + [last]) <==> NoMatch(before) && !IsMatch(last)
    ensures IsMatch(last) ==> (NoMatch(before) <==> MatchAt(before + [last], |before|))
  {
    hide IsMatch;
    var all := before + [last];
    assert all[|before|] == last && forall i :: 0 <= i < |before| ==> all[i] == before[i];
  }

  lemma MatchBefore(before: seq<Step>, last: Step, i: nat)
    requires i < |before|
    ensures MatchAt(before + [last], i) <==> MatchAt(before, i) && !IsMatch(last)
  {
    hide IsMatch;
    var all := before + [last];
    assert all[|before|] == last && forall k :: 0 <= k < |before| ==> all[k] == before[k];
  }

  lemma {:induction false} CountZero(steps: seq<Step>)
    ensures CountMatches(steps) == 0 <==> NoMatch(steps)
  {
    hide IsMatch;
    if steps != [] {
      var before, last := steps[..|steps| - 1], steps[|steps| - 1];
      CountZero(before);
      assert steps == before + [last];
      MatchLast(before, last);
      hide NoMatch;
    }
  }

  lemma {:induction false} CountOne(steps: seq<Step>)
    ensures CountMatches(steps) == 1 <==> exists i: nat :: MatchAt(steps, i)
  {
    if steps != [] {
      hide IsMatch, NoMatch, MatchAt;
      var before, last := steps[..|steps| - 1], steps[|steps| - 1];
      CountOne(before);
      CountZero(before);
      assert steps == before + [last];
      MatchLast(before, last);
      forall i | 0 <= i < |before|
        ensures MatchAt(steps, i) <==> MatchAt(before, i) && !IsMatch(last)
      {
        MatchBefore(before, last, i);
      }
      assert forall i: nat :: MatchAt(steps, i) ==> i < |steps| by { WithinSteps(steps); }
      assert forall i: nat :: MatchAt(before, i) ==> i < |before| by { WithinSteps(before); }
      if !IsMatch(last) {
        assert !MatchAt(steps, |before|) by { MatchIsThere(steps, |before|); }
      }
    }
  }

  lemma WithinSteps(steps: seq<Step>)
    ensures forall i: nat :: MatchAt(steps, i) ==> i < |steps|
  {}

  lemma MatchIsThere(steps: seq<Step>, i: nat)
    requires i < |steps| && !IsMatch(steps[i])
    ensures !MatchAt(steps, i)
  {}

  lemma CountIff(steps: seq<Step>)
    ensures CountMatches(steps) == 1 <==> OneMatch(steps)
  {
    CountOne(steps);
    hide IsMatch;
    if i: nat :| MatchAt(steps, i) {
      assert OneMatch(steps);
    }
    if OneMatch(steps) {
      var i :| 0 <= i < |steps| && IsMatch(steps[i]) && forall j :: 0 <= j < |steps| && j != i ==> !IsMatch(steps[j]);
      assert MatchAt(steps, i);
    }
  }

  /** What the loop has made of the steps before it. */
  ghost predicate Built(u: Unit, done: seq<Step>) {
    Tracks(u, DefinedBy(done)) && u.matches == CountMatches(done)
  }

  lemma StepDecided(lib: Sessions.Library, transport: TransportType, done: seq<Step>, s: Step, u: Unit)
    requires Built(u, done)
    ensures CompileStep(lib, transport, s, u).Some? <==> GoodStep(lib, transport, s, DefinedBy(done))
    ensures CompileStep(lib, transport, s, u).Some? ==> Built(CompileStep(lib, transport, s, u).value, done + [s])
  {
    hide CompileAction, GoodAction, Defined, Tracks;
    assert (done + [s])[..|done|] == done;
    if |s.present| == 1 {
      ActionDecided(lib, transport, s.present[0], u, DefinedBy(done));
    }
  }

  lemma {:induction false} StepsDecided(lib: Sessions.Library, transport: TransportType, done: seq<Step>, rest: seq<Step>, u: Unit)
    requires Built(u, done)
    ensures CompileSteps(lib, transport, rest, u).Some? <==>
            forall i :: |done| <= i < |done + rest| ==> GoodStep(lib, transport, (done + rest)[i], DefinedBy((done + rest)[..i]))
    ensures CompileSteps(lib, transport, rest, u).Some? ==> Built(CompileSteps(lib, transport, rest, u).value, done + rest)
    decreases rest
  {
    hide CompileStep, GoodStep, Built, DefinedBy;
    if rest == [] {
      assert done + rest == done;
    } else {
      var all := done + rest;
      StepDecided(lib, transport, done, rest[0], u);
      assert all[|done|] == rest[0] && all[..|done|] == done;
      if CompileStep(lib, transport, rest[0], u).Some? {
        assert done + [rest[0]] + rest[1..] == all;
        StepsDecided(lib, transport, done + [rest[0]], rest[1..], CompileStep(lib, transport, rest[0], u).value);
      }
    }
  }

  lemma FieldDecided(value: Json, u: Unit, k: Known)
    requires Tracks(u, k)
    ensures CompileField(value, u).Some? <==> GoodField(value, k)
  {
    hide Tracks, BufferIndex, Names;
    match value
    case JsonOther(_) =>
    case JsonString(text) =>
      RegistersTracked(u, k);
      if StartsWith(text, "$hex:") {
        IndexKnown(u, k, text[5..]);
      }
      if StartsWith(text, "$text:") {
        IndexKnown(u, k, text[6..]);
      }
  }

  lemma TransportDecided(t: TransportSpec)
    ensures CompilePrelude(t).Some? && (t.kind.Tcp? || t.insecureTls) <==> GoodTransport(t)
  {
    hide Encodings.ParseHex, IsHex, HexSize;
    if t.preludeHex.Some? {
      HexIff(t.preludeHex.value);
    }
  }

  lemma FinishDecided(doc: ProbeDocument, prelude: Option<Bytes>, u: Unit, k: Known)
    requires Tracks(u, k)
    ensures Finish(doc, prelude, u).Some? <==>
            (u.matches == 1 && k.total <= 4194304 && doc.result.confirmed == "$match" &&
             0.0 <= doc.result.confidence <= 1.0 && 0.0 <= doc.result.unmatchedConfidence <= 1.0 &&
             forall f :: f in doc.result.fields ==> GoodField(doc.result.fields[f], k))
  {
    hide CompileField, GoodField;
    assert Sum(u.sizes) == k.total;
    hide Tracks, Sum;
    forall f | f in doc.result.fields
      ensures CompileField(doc.result.fields[f], u).Some? <==> GoodField(doc.result.fields[f], k)
    {
      FieldDecided(doc.result.fields[f], u, k);
    }
  }

  /** The compiler accepts exactly the acceptable documents. */
  lemma AcceptedIff(lib: Sessions.Library, doc: ProbeDocument)
    ensures Compile(lib, doc).Some? <==> Acceptable(lib, doc)
  {
    hide CompilePrelude, GoodTransport, CompileSteps, Finish, GoodStep, GoodField, OneMatch, IsBlank, DefinedBy, CountMatches, Tracks;
    var none: seq<Step> := [];
    assert Built(EMPTY_UNIT, none) by { NothingBuilt(); }
    assert none + doc.steps == doc.steps;
    TransportDecided(doc.transport);
    StepsDecided(lib, doc.transport.kind, none, doc.steps, EMPTY_UNIT);
    CountIff(doc.steps);
    var u := CompileSteps(lib, doc.transport.kind, doc.steps, EMPTY_UNIT);
    if u.Some? && CompilePrelude(doc.transport).Some? {
      FinishDecided(doc, CompilePrelude(doc.transport).value, u.value, DefinedBy(doc.steps));
    }
  }

  lemma NothingBuilt()
    ensures Built(EMPTY_UNIT, [])
  {}
}
