/** The `msgpack_string` transform: one value of a MessagePack map of short strings. */
module MsgPack {
  import opened Wrappers
  import opened Words

  /** A string and the input after it. */
  datatype Text = Text(value: Bytes, rest: Bytes)

  function TakeBody(rest: Bytes, length: nat): Option<Text> {
    if length <= |rest| then Some(Text(rest[..length], rest[length..])) else None
  }

  /** The string encoded at the head of `input`: a fixstr or a str8. */
  function TakeString(input: Bytes): Option<Text> {
    if input == [] then None
    else if 0xa0 <= input[0] <= 0xbf then TakeBody(input[1..], input[0] as int - 0xa0)
    else if input[0] == 0xd9 && |input| >= 2 then TakeBody(input[2..], input[1] as int)
    else None
  }

  /** A key/value pair, and how each of its strings is written. */
  datatype Form = FixStr | Str8
  datatype Pair = Pair(key: Bytes, keyForm: Form, value: Bytes, valueForm: Form) {
    predicate Encodable() {
      FitsForm(key, keyForm) && FitsForm(value, valueForm)
    }
  }

  predicate FitsForm(s: Bytes, form: Form) {
    |s| < if form.FixStr? then 32 else 256
  }

  // ----- the parser

  /** The state of the scan: the input left and the last value stored under the wanted key. */
  datatype Scan = Scan(rest: Bytes, found: Option<Bytes>)

  function ScanPair(wanted: Bytes, s: Scan): Option<Scan> {
    var key :- TakeString(s.rest);
    var value :- TakeString(key.rest);
    Some(Scan(value.rest, if key.value == wanted then Some(value.value) else s.found))
  }

  function ScanPairs(wanted: Bytes, count: nat, s: Scan): Option<Scan>
    decreases count
  {
    if count == 0 then Some(s)
    else
      var next :- ScanPair(wanted, s);
      ScanPairs(wanted, count - 1, next)
  }

  function MsgpackString(data: Bytes, wanted: Bytes): Option<Bytes> {
    if data == [] || !(0x81 <= data[0] <= 0x8f) then None
    else
      var s :- ScanPairs(wanted, data[0] as int - 0x80, Scan(data[1..], None));
      if s.rest == [] then s.found else None
  }

  /** Reads the string at an offset, with its bounds checks. */
  method ReadString(data: Bytes, offset: nat) returns (r: Option<(Bytes, nat)>)
    requires offset <= |data|
    ensures match TakeString(data[offset..])
            case None => r.None?
            case Some(t) => r == Some((t.value, |data| - |t.rest|)) && |t.rest| <= |data| &&
                            data[|data| - |t.rest|..] == t.rest
  {
    hide TakeBody;
    if offset >= |data| {
      return None;
    }
    var prefix := data[offset];
    if 0xa0 <= prefix <= 0xbf {
      assert data[offset..][1..] == data[offset + 1..];
      r := ReadBody(data, offset + 1, prefix as int - 0xa0);
    } else if prefix == 0xd9 {
      if offset + 1 >= |data| {
        return None;
      }
      assert data[offset..][2..] == data[offset + 2..];
      r := ReadBody(data, offset + 2, data[offset + 1] as int);
    } else {
      r := None;
    }
  }

  method ReadBody(data: Bytes, start: nat, length: nat) returns (r: Option<(Bytes, nat)>)
    requires start <= |data|
    ensures match TakeBody(data[start..], length)
            case None => r.None?
            case Some(t) => r == Some((t.value, |data| - |t.rest|)) && |t.rest| <= |data| &&
                            data[|data| - |t.rest|..] == t.rest
  {
    var end := start + length;
    if end > |data| {
      return None;
    }
    assert data[start..][..length] == data[start..end];
    assert data[start..][length..] == data[end..];
    return Some((data[start..end], end));
  }

  method FindString(data: Bytes, wanted: Bytes) returns (r: Option<Bytes>)
    ensures r == MsgpackString(data, wanted)
  {
    hide TakeString;
    if data == [] || !(0x81 <= data[0] <= 0x8f) {
      return None;
    }
    var count := data[0] as int - 0x80;
    var offset, found := 1, None;
    for i := 0 to count
      invariant 0 <= offset <= |data|
      invariant ScanPairs(wanted, count, Scan(data[1..], None)) ==
                ScanPairs(wanted, count - i, Scan(data[offset..], found))
    {
      var key := ReadString(data, offset);
      if key.None? {
        return None;
      }
      var value := ReadString(data, key.value.1);
      if value.None? {
        return None;
      }
      if key.value.0 == wanted {
        found := Some(value.value.0);
      }
      offset := value.value.1;
    }
    return if offset == |data| then found else None;
  }

  // ----- the encodings it inverts

  function EncodeString(s: Bytes, form: Form): (r: Bytes)
    requires FitsForm(s, form)
    ensures |r| > 0
  {
    (if form.FixStr? then [(0xa0 + |s|) as byte] else [0xd9, |s| as byte]) + s
  }

  function EncodePair(p: Pair): Bytes
    requires p.Encodable()
  {
    EncodeString(p.key, p.keyForm) + EncodeString(p.value, p.valueForm)
  }

  predicate AllEncodable(pairs: seq<Pair>) {
    forall i :: 0 <= i < |pairs| ==> pairs[i].Encodable()
  }

  function EncodePairs(pairs: seq<Pair>): Bytes
    requires AllEncodable(pairs)
  {
    if pairs == [] then [] else EncodePair(pairs[0]) + EncodePairs(pairs[1..])
  }

  /** A fixmap of one to fifteen pairs. */
  predicate IsMap(pairs: seq<Pair>) {
    1 <= |pairs| <= 15 && AllEncodable(pairs)
  }

  function EncodeMap(pairs: seq<Pair>): Bytes
    requires IsMap(pairs)
  {
    [(0x80 + |pairs|) as byte] + EncodePairs(pairs)
  }

  /** The value of the last pair with this key. */
  function LastValue(pairs: seq<Pair>, wanted: Bytes): Option<Bytes> {
    if pairs == [] then None
    else if pairs[|pairs| - 1].key == wanted then Some(pairs[|pairs| - 1].value)
    else LastValue(pairs[..|pairs| - 1], wanted)
  }

  // ----- the two directions

  lemma TakesEncodedString(s: Bytes, form: Form, tail: Bytes)
    requires FitsForm(s, form)
    ensures TakeString(EncodeString(s, form) + tail) == Some(Text(s, tail))
  {
    var input := EncodeString(s, form) + tail;
    assert input[if form.FixStr? then 1 else 2..] == s + tail;
  }

  lemma TakenBody(rest: Bytes, length: nat)
    requires TakeBody(rest, length).Some?
    ensures var t := TakeBody(rest, length).value; |t.value| == length && rest == t.value + t.rest
  {}

  lemma EncodesTakenString(input: Bytes) returns (form: Form)
    requires TakeString(input).Some?
    ensures var t := TakeString(input).value;
            FitsForm(t.value, form) && input == EncodeString(t.value, form) + t.rest
  {
    hide TakeBody;
    var t := TakeString(input).value;
    if input[0] == 0xd9 {
      form := Str8;
      TakenBody(input[2..], input[1] as int);
      assert input == [input[0], input[1]] + input[2..];
    } else {
      form := FixStr;
      TakenBody(input[1..], input[0] as int - 0xa0);
      assert input == [input[0]] + input[1..];
    }
  }

  lemma ScansEncodedPair(wanted: Bytes, p: Pair, tail: Bytes, found: Option<Bytes>)
    requires p.Encodable()
    ensures ScanPair(wanted, Scan(EncodePair(p) + tail, found)) ==
            Some(Scan(tail, if p.key == wanted then Some(p.value) else found))
  {
    hide EncodeString, TakeString, FitsForm;
    var value := EncodeString(p.value, p.valueForm);
    TakesEncodedString(p.key, p.keyForm, value + tail);
    TakesEncodedString(p.value, p.valueForm, tail);
    assert EncodePair(p) + tail == EncodeString(p.key, p.keyForm) + (value + tail);
  }

  lemma EncodesScannedPair(wanted: Bytes, s: Scan) returns (p: Pair)
    requires ScanPair(wanted, s).Some?
    ensures var t := ScanPair(wanted, s).value;
            p.Encodable() && s.rest == EncodePair(p) + t.rest &&
            t.found == if p.key == wanted then Some(p.value) else s.found
  {
    var key := TakeString(s.rest).value;
    var value := TakeString(key.rest).value;
    var keyForm := EncodesTakenString(s.rest);
    var valueForm := EncodesTakenString(key.rest);
    p := Pair(key.value, keyForm, value.value, valueForm);
  }

  lemma LastValueAppend(done: seq<Pair>, p: Pair, wanted: Bytes)
    ensures LastValue(done + [p], wanted) == if p.key == wanted then Some(p.value) else LastValue(done, wanted)
  {
    assert (done + [p])[..|done|] == done;
  }

  lemma {:induction false} ScansEncodedPairs(wanted: Bytes, done: seq<Pair>, pairs: seq<Pair>)
    requires AllEncodable(pairs)
    ensures ScanPairs(wanted, |pairs|, Scan(EncodePairs(pairs), LastValue(done, wanted))) ==
            Some(Scan([], LastValue(done + pairs, wanted)))
    decreases |pairs|
  {
    hide ScanPair, EncodePair, LastValue;
    if pairs == [] {
      assert done + pairs == done;
    } else {
      ScansEncodedPair(wanted, pairs[0], EncodePairs(pairs[1..]), LastValue(done, wanted));
      LastValueAppend(done, pairs[0], wanted);
      ScansEncodedPairs(wanted, done + [pairs[0]], pairs[1..]);
      assert done + [pairs[0]] + pairs[1..] == done + pairs;
    }
  }

  lemma {:induction false} EncodesScannedPairs(wanted: Bytes, done: seq<Pair>, count: nat, rest: Bytes)
      returns (pairs: seq<Pair>)
    requires ScanPairs(wanted, count, Scan(rest, LastValue(done, wanted))).Some?
    ensures var s := ScanPairs(wanted, count, Scan(rest, LastValue(done, wanted))).value;
            |pairs| == count && AllEncodable(pairs) && rest == EncodePairs(pairs) + s.rest &&
            s.found == LastValue(done + pairs, wanted)
    decreases count
  {
    hide ScanPair, EncodePair, LastValue;
    if count == 0 {
      pairs := [];
      assert done + pairs == done;
    } else {
      var start := Scan(rest, LastValue(done, wanted));
      var p := EncodesScannedPair(wanted, start);
      LastValueAppend(done, p, wanted);
      var more := EncodesScannedPairs(wanted, done + [p], count - 1, ScanPair(wanted, start).value.rest);
      pairs := [p] + more;
      assert done + [p] + more == done + pairs;
    }
  }

  lemma NothingStored(wanted: Bytes)
    ensures LastValue([], wanted) == None
  {}

  /** Looking a key up in an encoded map returns the last value stored under it. */
  lemma LookupInverts(pairs: seq<Pair>, wanted: Bytes)
    requires IsMap(pairs)
    ensures MsgpackString(EncodeMap(pairs), wanted) == LastValue(pairs, wanted)
  {
    hide ScanPairs, EncodePairs, LastValue, AllEncodable;
    NothingStored(wanted);
    ScansEncodedPairs(wanted, [], pairs);
    assert EncodeMap(pairs)[1..] == EncodePairs(pairs);
    assert [] + pairs == pairs;
  }

  /**
   * A value is returned exactly when the input is, to its last byte, an encoding of a map
   * whose last pair under the key holds that value.
   */
  lemma LookupIff(data: Bytes, wanted: Bytes, v: Bytes)
    ensures MsgpackString(data, wanted) == Some(v) <==>
            exists pairs :: IsMap(pairs) && data == EncodeMap(pairs) && LastValue(pairs, wanted) == Some(v)
  {
    if MsgpackString(data, wanted) == Some(v) {
      var pairs := EncodingOf(data, wanted);
    }
    hide *;
    forall pairs | IsMap(pairs) && data == EncodeMap(pairs) {
      LookupInverts(pairs, wanted);
    }
  }

  lemma EncodingOf(data: Bytes, wanted: Bytes) returns (pairs: seq<Pair>)
    requires MsgpackString(data, wanted).Some?
    ensures IsMap(pairs) && data == EncodeMap(pairs) && LastValue(pairs, wanted) == MsgpackString(data, wanted)
  {
    hide ScanPairs, EncodePairs, LastValue, AllEncodable;
    NothingStored(wanted);
    pairs := EncodesScannedPairs(wanted, [], data[0] as int - 0x80, data[1..]);
    assert [] + pairs == pairs;
    assert data == [data[0]] + data[1..];
    assert data[1..] == EncodePairs(pairs) + [] == EncodePairs(pairs);
  }
}
