/** The RC4 stream cipher of the `rc4` transform. */
module Rc4 {
  import opened Words

  type State = s: Bytes | |s| == 256 witness seq(256, _ => 0)

  function Identity(): State {
    seq(256, i requires 0 <= i < 256 => i as byte)
  }

  function Swapped(s: State, i: nat, j: nat): State
    requires i < 256 && j < 256
  {
    s[i := s[j]][j := s[i]]
  }

  function KeyIndex(s: State, key: Bytes, left: nat, right: nat): nat
    requires key != [] && left < 256
  {
    (right + s[left] as int + key[left % |key|] as int) % 256
  }

  /** The key schedule from position `left` on. */
  function Schedule(s: State, key: Bytes, left: nat, right: nat): State
    requires key != [] && left <= 256
    decreases 256 - left
  {
    if left == 256 then s
    else
      var next := KeyIndex(s, key, left, right);
      Schedule(Swapped(s, left, next), key, left + 1, next)
  }

  /** The generator: its two indices and the state array. */
  datatype Generator = Generator(left: nat, right: nat, s: State) {
    predicate Valid() { left < 256 && right < 256 }

    function Next(): (g: Generator)
      requires Valid()
      ensures g.Valid()
    {
      var l := (left + 1) % 256;
      var r := (right + s[l] as int) % 256;
      Generator(l, r, Swapped(s, l, r))
    }

    function Output(): byte
      requires Valid()
    {
      s[(s[left] as int + s[right] as int) % 256]
    }
  }

  /** The next `n` bytes of key stream: no plain text is consulted. */
  function KeyStream(g: Generator, n: nat): (r: Bytes)
    requires g.Valid()
    ensures |r| == n
    decreases n
  {
    if n == 0 then [] else [g.Next().Output()] + KeyStream(g.Next(), n - 1)
  }

  function Xor(a: Bytes, b: Bytes): (r: Bytes)
    requires |a| == |b|
    ensures |r| == |a|
  {
    seq(|a|, i requires 0 <= i < |a| => Xored(a[i], b[i]))
  }

  function Start(key: Bytes): Generator
    requires key != []
  {
    Generator(0, 0, Schedule(Identity(), key, 0, 0))
  }

  function Rc4(data: Bytes, key: Bytes): (r: Bytes)
    requires key != []
    ensures |r| == |data|
  {
    Xor(data, KeyStream(Start(key), |data|))
  }

  /** Encrypting twice under one key restores the data. */
  lemma Rc4Involution(data: Bytes, key: Bytes)
    requires key != []
    ensures Rc4(Rc4(data, key), key) == data
  {
    var stream := KeyStream(Start(key), |data|);
    forall i | 0 <= i < |data|
      ensures Rc4(Rc4(data, key), key)[i] == data[i]
    {
      XorTwice(data[i], stream[i]);
    }
  }

  // ----- the state array stays a permutation

  ghost predicate Permutation(s: State) {
    multiset(s) == multiset(Identity())
  }

  lemma SwapPermutes(s: State, i: nat, j: nat)
    requires i < 256 && j < 256
    ensures multiset(Swapped(s, i, j)) == multiset(s)
  {}

  function AfterSteps(g: Generator, n: nat): (r: Generator)
    requires g.Valid()
    ensures r.Valid()
    decreases n
  {
    if n == 0 then g else AfterSteps(g.Next(), n - 1)
  }

  lemma {:induction false} SchedulePermutes(s: State, key: Bytes, left: nat, right: nat)
    requires key != [] && left <= 256
    ensures multiset(Schedule(s, key, left, right)) == multiset(s)
    decreases 256 - left
  {
    if left < 256 {
      var next := KeyIndex(s, key, left, right);
      SwapPermutes(s, left, next);
      SchedulePermutes(Swapped(s, left, next), key, left + 1, next);
    }
  }

  /** For every key, the state holds each byte value exactly once, before and after any number of outputs. */
  lemma {:induction false} StateIsPermutation(key: Bytes, n: nat)
    requires key != []
    ensures Permutation(AfterSteps(Start(key), n).s)
    ensures forall v: byte :: v in AfterSteps(Start(key), n).s
  {
    SchedulePermutes(Identity(), key, 0, 0);
    StepsPermute(Start(key), n);
    forall v: byte
      ensures v in AfterSteps(Start(key), n).s
    {
      assert Identity()[v as int] == v;
      assert v in multiset(Identity());
    }
  }

  lemma {:induction false} StepsPermute(g: Generator, n: nat)
    requires g.Valid()
    ensures multiset(AfterSteps(g, n).s) == multiset(g.s)
    decreases n
  {
    hide Generator.Next;
    if n > 0 {
      NextPermutes(g);
      StepsPermute(g.Next(), n - 1);
    }
  }

  lemma NextPermutes(g: Generator)
    requires g.Valid()
    ensures multiset(g.Next().s) == multiset(g.s)
  {
    hide Swapped;
    var left := (g.left + 1) % 256;
    SwapPermutes(g.s, left, (g.right + g.s[left] as int) % 256);
  }

  // ----- the cipher as a relation between its states

  /** The two cells changed places and all others stayed. */
  ghost predicate Exchanged(s: State, t: State, i: nat, j: nat)
    requires i < 256 && j < 256
  {
    t[i] == s[j] && t[j] == s[i] && forall c :: 0 <= c < 256 && c != i && c != j ==> t[c] == s[c]
  }

  /**
   * The states and indices of a key schedule: from the state that holds each number at its place, and
   * index zero, step `k` adds cell `k` and key byte `k` to the index, and exchanges cell `k` with the
   * cell there.
   */
  ghost predicate IsSchedule(key: Bytes, states: seq<State>, indices: seq<nat>)
    requires key != []
  {
    && |states| == |indices| == 257
    && (forall c :: 0 <= c < 256 ==> states[0][c] == c as byte) && indices[0] == 0
    && forall k :: 0 <= k < 256 ==> ScheduleStep(key, states[k], indices[k], k, states[k + 1], indices[k + 1])
  }

  ghost predicate ScheduleStep(key: Bytes, s: State, index: nat, k: nat, t: State, next: nat)
    requires key != [] && k < 256
  {
    next == (index + s[k] as int + key[k % |key|] as int) % 256 && Exchanged(s, t, k, next)
  }

  /** The states, indices and bytes of a key stream from a state. */
  ghost predicate IsStream(s: State, states: seq<State>, indices: seq<nat>, stream: Bytes) {
    && |states| == |indices| == |stream| + 1
    && states[0] == s && indices[0] == 0
    && forall k :: 0 <= k < |stream| ==> StreamStep(states[k], indices[k], k, states[k + 1], indices[k + 1], stream[k])
  }

  /** The left index counts from one; the byte is read where the sum of the exchanged cells points. */
  ghost predicate StreamStep(s: State, index: nat, k: nat, t: State, next: nat, output: byte) {
    var left := (k + 1) % 256;
    && next == (index + s[left] as int) % 256 && Exchanged(s, t, left, next)
    && output == t[(t[left] as int + t[next] as int) % 256]
  }

  /** All states, indices and stream bytes of one encryption. */
  datatype Trace = Trace(states: seq<State>, indices: seq<nat>, later: seq<State>, rights: seq<nat>, stream: Bytes)

  /** The trace is that of the key, and the output is the data combined with its stream, bit by bit. */
  ghost predicate Enciphers(t: Trace, data: Bytes, key: Bytes, output: Bytes)
    requires key != []
  {
    && IsSchedule(key, t.states, t.indices)
    && |t.stream| == |data| == |output| && IsStream(t.states[256], t.later, t.rights, t.stream)
    && forall i :: 0 <= i < |data| ==> output[i] == ((data[i] as bv8) ^ (t.stream[i] as bv8)) as byte
  }

  ghost predicate IsCipher(data: Bytes, key: Bytes, output: Bytes)
    requires key != []
  {
    exists t :: Enciphers(t, data, key, output)
  }

  lemma SwappedExchanges(s: State, i: nat, j: nat)
    requires i < 256 && j < 256
    ensures Exchanged(s, Swapped(s, i, j), i, j)
  {}

  /** The schedule from position `k`, with the states it goes through. */
  lemma {:induction false} ScheduleGoes(s: State, key: Bytes, k: nat, right: nat) returns (states: seq<State>, indices: seq<nat>)
    requires key != [] && k <= 256
    ensures |states| == |indices| == 257 - k
    ensures states[0] == s && indices[0] == right && states[256 - k] == Schedule(s, key, k, right)
    ensures forall i :: 0 <= i < 256 - k ==> ScheduleStep(key, states[i], indices[i], k + i, states[i + 1], indices[i + 1])
    decreases 256 - k
  {
    hide ScheduleStep, Swapped;
    if k == 256 {
      states, indices := [s], [right];
    } else {
      var next := KeyIndex(s, key, k, right);
      KeyStepIs(s, key, k, right);
      var more, rights := ScheduleGoes(Swapped(s, k, next), key, k + 1, next);
      states, indices := [s] + more, [right] + rights;
      forall i | 0 <= i < 256 - k
        ensures ScheduleStep(key, states[i], indices[i], k + i, states[i + 1], indices[i + 1])
      {
        if i > 0 {
          assert ScheduleStep(key, more[i - 1], rights[i - 1], k + 1 + (i - 1), more[i], rights[i]);
          assert k + 1 + (i - 1) == k + i;
        }
      }
    }
  }

  lemma KeyStepIs(s: State, key: Bytes, k: nat, right: nat)
    requires key != [] && k < 256
    ensures var next := KeyIndex(s, key, k, right); ScheduleStep(key, s, right, k, Swapped(s, k, next), next)
  {
    SwappedExchanges(s, k, KeyIndex(s, key, k, right));
  }

  lemma {:induction false} StreamGoes(g: Generator, n: nat, k: nat) returns (states: seq<State>, indices: seq<nat>)
    requires g.Valid() && g.left == k % 256
    ensures |states| == |indices| == n + 1 && states[0] == g.s && indices[0] == g.right
    ensures forall i :: 0 <= i < n ==>
              StreamStep(states[i], indices[i], k + i, states[i + 1], indices[i + 1], KeyStream(g, n)[i])
    decreases n
  {
    hide StreamStep, Swapped;
    if n == 0 {
      states, indices := [g.s], [g.right];
    } else {
      var h := g.Next();
      NextIs(g, k);
      var more, rights := StreamGoes(h, n - 1, k + 1);
      states, indices := [g.s] + more, [g.right] + rights;
      forall i | 0 <= i < n
        ensures StreamStep(states[i], indices[i], k + i, states[i + 1], indices[i + 1], KeyStream(g, n)[i])
      {
        if i > 0 {
          assert KeyStream(g, n)[i] == KeyStream(h, n - 1)[i - 1];
          assert StreamStep(more[i - 1], rights[i - 1], k + 1 + (i - 1), more[i], rights[i], KeyStream(h, n - 1)[i - 1]);
          assert k + 1 + (i - 1) == k + i;
        }
      }
    }
  }

  lemma NextIs(g: Generator, k: nat)
    requires g.Valid() && g.left == k % 256
    ensures var h := g.Next(); h.left == (k + 1) % 256 && StreamStep(g.s, g.right, k, h.s, h.right, h.Output())
  {
    var l := (g.left + 1) % 256;
    assert l == (k + 1) % 256;
    SwappedExchanges(g.s, l, (g.right + g.s[l] as int) % 256);
    hide Swapped;
  }

  /** The cipher is what the relation describes. */
  lemma CipherIs(data: Bytes, key: Bytes)
    requires key != []
    ensures IsCipher(data, key, Rc4(data, key))
  {
    hide ScheduleStep, StreamStep, Schedule, KeyStream;
    var states, indices := ScheduleGoes(Identity(), key, 0, 0);
    var later, rights := StreamGoes(Start(key), |data|, 0);
    var t := Trace(states, indices, later, rights, KeyStream(Start(key), |data|));
    assert forall k :: 0 <= k < 256 ==> ScheduleStep(key, states[k], indices[k], 0 + k, states[k + 1], indices[k + 1]);
    assert forall k :: 0 <= k < |data| ==> StreamStep(later[k], rights[k], 0 + k, later[k + 1], rights[k + 1], t.stream[k]);
    assert Enciphers(t, data, key, Rc4(data, key));
  }

  lemma ExchangedOnce(s: State, t: State, u: State, i: nat, j: nat)
    requires i < 256 && j < 256 && Exchanged(s, t, i, j) && Exchanged(s, u, i, j)
    ensures t == u
  {
    forall c | 0 <= c < 256
      ensures t[c] == u[c]
    {}
  }

  lemma {:induction false} ScheduleOnce(key: Bytes, states: seq<State>, indices: seq<nat>, others: seq<State>, rights: seq<nat>, k: nat)
    requires key != [] && IsSchedule(key, states, indices) && IsSchedule(key, others, rights) && k <= 256
    ensures states[k] == others[k] && indices[k] == rights[k]
  {
    hide Exchanged;
    if k > 0 {
      ScheduleOnce(key, states, indices, others, rights, k - 1);
      assert ScheduleStep(key, states[k - 1], indices[k - 1], k - 1, states[k - 1 + 1], indices[k - 1 + 1]);
      assert ScheduleStep(key, others[k - 1], rights[k - 1], k - 1, others[k - 1 + 1], rights[k - 1 + 1]);
      ExchangedOnce(states[k - 1], states[k], others[k], k - 1, indices[k]);
    }
  }

  lemma {:induction false} StreamOnce(s: State, one: Trace, two: Trace, k: nat)
    requires IsStream(s, one.later, one.rights, one.stream) && IsStream(s, two.later, two.rights, two.stream)
    requires |one.stream| == |two.stream| && k <= |one.stream|
    ensures one.later[k] == two.later[k] && one.rights[k] == two.rights[k]
    ensures k > 0 ==> one.stream[k - 1] == two.stream[k - 1]
  {
    hide Exchanged;
    if k > 0 {
      StreamOnce(s, one, two, k - 1);
      assert StreamStep(one.later[k - 1], one.rights[k - 1], k - 1, one.later[k - 1 + 1], one.rights[k - 1 + 1], one.stream[k - 1]);
      assert StreamStep(two.later[k - 1], two.rights[k - 1], k - 1, two.later[k - 1 + 1], two.rights[k - 1 + 1], two.stream[k - 1]);
      ExchangedOnce(one.later[k - 1], one.later[k], two.later[k], k % 256, one.rights[k]);
    }
  }

  /** The relation leaves one output for data and key: it holds of the cipher's and of no other. */
  lemma CipherIff(data: Bytes, key: Bytes, output: Bytes)
    requires key != []
    ensures IsCipher(data, key, output) <==> output == Rc4(data, key)
  {
    hide Rc4, IsSchedule, IsStream;
    CipherIs(data, key);
    if IsCipher(data, key, output) {
      var one :| Enciphers(one, data, key, output);
      var two :| Enciphers(two, data, key, Rc4(data, key));
      OneCipher(one, two, data, key, output, Rc4(data, key));
    }
  }

  lemma OneCipher(one: Trace, two: Trace, data: Bytes, key: Bytes, output: Bytes, other: Bytes)
    requires key != [] && Enciphers(one, data, key, output) && Enciphers(two, data, key, other)
    ensures output == other
  {
    hide IsStream;
    ScheduleOnce(key, one.states, one.indices, two.states, two.indices, 256);
    hide IsSchedule;
    forall i | 0 <= i < |data|
      ensures output[i] == other[i]
    {
      StreamOnce(one.states[256], one, two, i + 1);
    }
  }

  // ----- the cipher in place

  method SwapCells(state: array<byte>, i: nat, j: nat)
    requires state.Length == 256 && i < 256 && j < 256
    modifies state
    ensures state[..] == Swapped(old(state[..]), i, j)
    ensures multiset(state[..]) == multiset(old(state[..]))
  {
    state[i], state[j] := state[j], state[i];
    assert state[..] == Swapped(old(state[..]), i, j);
    SwapPermutes(old(state[..]), i, j);
  }

  method ScheduleInPlace(state: array<byte>, key: Bytes)
    requires key != [] && state.Length == 256 && state[..] == Identity()
    modifies state
    ensures state[..] == Schedule(Identity(), key, 0, 0)
    ensures Permutation(state[..])
  {
    var right := 0;
    for left := 0 to 256
      invariant right >= 0
      invariant Schedule(state[..], key, left, right) == Schedule(Identity(), key, 0, 0)
      invariant Permutation(state[..])
    {
      right := KeyIndex(state[..], key, left, right);
      SwapCells(state, left, right);
    }
  }

  /** One output byte: the array is swapped in place and the generator moves one step. */
  method Step(state: array<byte>, left: nat, right: nat) returns (l: nat, r: nat, output: byte)
    requires state.Length == 256 && left < 256 && right < 256
    modifies state
    ensures var g := Generator(left, right, old(state[..]));
            l < 256 && r < 256 && Generator(l, r, state[..]) == g.Next() && output == g.Next().Output()
    ensures multiset(state[..]) == multiset(old(state[..]))
  {
    l := (left + 1) % 256;
    r := (right + state[l] as int) % 256;
    SwapCells(state, l, r);
    output := state[(state[l] as int + state[r] as int) % 256];
  }

  method IdentityState() returns (state: array<byte>)
    ensures fresh(state) && state.Length == 256 && state[..] == Identity()
  {
    state := new byte[256](i requires 0 <= i < 256 => i as byte);
    assert state[..] == Identity();
  }

  method Crypt(data: Bytes, key: Bytes) returns (r: Bytes)
    requires key != []
    ensures r == Rc4(data, key) && IsCipher(data, key, r)
  {
    hide IsCipher;
    var state := IdentityState();
    ScheduleInPlace(state, key);
    r := Generate(data, state);
    CipherIs(data, key);
  }

  method Generate(data: Bytes, state: array<byte>) returns (r: Bytes)
    requires state.Length == 256
    modifies state
    ensures r == Xor(data, KeyStream(Generator(0, 0, old(state[..])), |data|))
    ensures multiset(state[..]) == multiset(old(state[..]))
  {
    ghost var whole := Xor(data, KeyStream(Generator(0, 0, state[..]), |data|));
    var left, right := 0, 0;
    r := [];
    assert data[0..] == data;
    for i := 0 to |data|
      invariant 0 <= left < 256 && 0 <= right < 256
      invariant multiset(state[..]) == multiset(old(state[..]))
      invariant r + Remaining(data[i..], Generator(left, right, state[..])) == whole
    {
      ghost var g := Generator(left, right, state[..]);
      RemainingStep(data, i, g, r, whole);
      var output: byte;
      left, right, output := Step(state, left, right);
      r := r + [Xored(data[i], output)];
    }
  }

  function Remaining(data: Bytes, g: Generator): Bytes
    requires g.Valid()
  {
    Xor(data, KeyStream(g, |data|))
  }

  lemma RemainingUnfold(data: Bytes, g: Generator)
    requires data != [] && g.Valid()
    ensures Remaining(data, g) == [Xored(data[0], g.Next().Output())] + Remaining(data[1..], g.Next())
  {
    XorCons(data[0], data[1..], g.Next().Output(), KeyStream(g.Next(), |data| - 1));
    assert [data[0]] + data[1..] == data;
  }

  lemma XorCons(x: byte, rest: Bytes, k: byte, stream: Bytes)
    requires |rest| == |stream|
    ensures Xor([x] + rest, [k] + stream) == [Xored(x, k)] + Xor(rest, stream)
  {}

  lemma RemainingStep(data: Bytes, i: nat, g: Generator, r: Bytes, whole: Bytes)
    requires i < |data| && g.Valid() && r + Remaining(data[i..], g) == whole
    ensures r + [Xored(data[i], g.Next().Output())] + Remaining(data[i + 1..], g.Next()) == whole
  {
    RemainingUnfold(data[i..], g);
    assert data[i..][1..] == data[i + 1..];
  }
}
