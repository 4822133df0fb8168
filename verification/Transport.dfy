/**
 * One connection of a probe: what the peer does on it, and the three bounded reads.
 *
 * The peer is a script. `Wire` is the script seen one byte at a time; `PeerStream` holds the
 * same script cut into arbitrary chunks, as successive reads of a socket would deliver it.
 * Each read loop is proved against a closed form over `Wire`, so its outcome cannot depend on
 * how the bytes were fragmented.
 */
module Transport {
  import opened Wrappers
  import opened Words

  datatype Failure =
    | ConnectionRefused
    | ConnectTimeout
    | ReadTimeout
    | ConnectionReset
    | TlsError
    | InvalidResponse
    | ProbeError
    | InternalError

  datatype IoKind = IoRefused | IoReset | IoBrokenPipe | IoTimedOut | IoUnexpectedEof | IoOther

  /** How an `io::Error` is classified. */
  function FromIo(kind: IoKind): Failure {
    match kind
    case IoRefused => ConnectionRefused
    case IoReset | IoBrokenPipe => ConnectionReset
    case IoTimedOut => ReadTimeout
    case IoUnexpectedEof => ConnectionReset
    case IoOther => ProbeError
  }

  /** One byte from the peer, or the deadline of the read in progress passing. */
  datatype Item = Data(b: byte) | Expire

  /** After the script: the peer closes, an error is raised, or nothing ever happens again. */
  datatype Ending = Closed | Broken(kind: IoKind) | Silent

  datatype Wire = Wire(items: seq<Item>, ending: Ending)

  datatype Taken = Taken(data: Bytes, rest: Wire)

  /** The bytes that arrive before the deadline passes or the script ends. */
  function Run(items: seq<Item>): Bytes {
    if items == [] || items[0].Expire? then [] else [items[0].b] + Run(items[1..])
  }

  function Items(data: Bytes): (r: seq<Item>)
    ensures |r| == |data|
  {
    seq(|data|, i requires 0 <= i < |data| => Data(data[i]))
  }

  function Advance(w: Wire, n: nat): Wire
    requires n <= |w.items|
  {
    w.(items := w.items[n..])
  }

  /** Why no byte follows the current run. */
  function Stalled(w: Wire): Failure {
    var n := |Run(w.items)|;
    if n < |w.items| then ReadTimeout
    else match w.ending
         case Closed => FromIo(IoUnexpectedEof)
         case Broken(kind) => FromIo(kind)
         case Silent => ReadTimeout
  }

  // ----- closed forms of the three reads

  function ReadExact(w: Wire, len: nat): (r: Result<Taken, Failure>)
    ensures r.Ok? ==> |r.value.data| == len
  {
    var run := Run(w.items);
    RunFits(w.items);
    if len <= |run| then Ok(Taken(run[..len], Advance(w, len))) else Err(Stalled(w))
  }

  function ReadUpTo(w: Wire, min: nat, max: nat): Result<Taken, Failure> {
    var run := Run(w.items);
    RunFits(w.items);
    if max <= |run| then
      if max < min then Err(if max == 0 then ReadTimeout else InvalidResponse)
      else Ok(Taken(run[..max], Advance(w, max)))
    else if |run| == |w.items| && w.ending.Broken? then
      Err(FromIo(w.ending.kind))
    else if |run| < min then
      Err(if run == [] then ReadTimeout else InvalidResponse)
    else
      Ok(Taken(run, Advance(w, if |run| < |w.items| then |run| + 1 else |run|)))
  }

  predicate EndsWith(s: Bytes, suffix: Bytes) {
    |suffix| <= |s| && s[|s| - |suffix|..] == suffix
  }

  /** The least length above `from` and at most `limit` of a prefix of `run` ending in `delimiter`. */
  function FirstEnd(run: Bytes, delimiter: Bytes, from: nat, limit: nat): (r: Option<nat>)
    requires limit <= |run|
    decreases limit - from
    ensures r.Some? ==> from < r.value <= limit && EndsWith(run[..r.value], delimiter)
    ensures forall m :: from < m <= limit && (r.Some? ==> m < r.value) ==> !EndsWith(run[..m], delimiter)
  {
    if from >= limit then None
    else if EndsWith(run[..from + 1], delimiter) then Some(from + 1)
    else FirstEnd(run, delimiter, from + 1, limit)
  }

  lemma FirstEndIs(run: Bytes, delimiter: Bytes, limit: nat, r: Option<nat>)
    requires limit <= |run|
    requires r.Some? ==> 0 < r.value <= limit && EndsWith(run[..r.value], delimiter)
    requires forall m :: 0 < m <= limit && (r.Some? ==> m < r.value) ==> !EndsWith(run[..m], delimiter)
    ensures FirstEnd(run, delimiter, 0, limit) == r
  {
    var first := FirstEnd(run, delimiter, 0, limit);
    if first.Some? && r.Some? {
      assert !(first.value < r.value) && !(r.value < first.value);
    }
  }

  function Min(a: nat, b: nat): nat {
    if a < b then a else b
  }

  function ReadUntil(w: Wire, delimiter: Bytes, max: nat): Result<Taken, Failure> {
    var run := Run(w.items);
    RunFits(w.items);
    match FirstEnd(run, delimiter, 0, Min(max, |run|))
    case Some(m) => Ok(Taken(run[..m], Advance(w, m)))
    case None => Err(if max <= |run| then InvalidResponse else Stalled(w))
  }

  // ----- what a read leaves, whether it succeeds or fails

  /** After a read that stops at `max` bytes, at the deadline, or at the end of the stream. */
  function AfterRead(w: Wire, max: nat): Wire {
    var n := |Run(w.items)|;
    RunFits(w.items);
    Advance(w, if max <= n then max else if n < |w.items| then n + 1 else n)
  }

  /** After a read that stops at a delimiter as well. */
  function AfterUntil(w: Wire, delimiter: Bytes, max: nat): Wire {
    var run := Run(w.items);
    RunFits(w.items);
    AfterRead(w, match FirstEnd(run, delimiter, 0, Min(max, |run|)) case Some(m) => m case None => max)
  }

  /** The bytes of a script, without the moments at which a deadline passes. */
  function DataOf(items: seq<Item>): Bytes {
    if items == [] then []
    else (match items[0] case Data(b) => [b] case Expire => []) + DataOf(items[1..])
  }

  /** How many bytes the stream has lost from `w` to `later`. */
  function Lost(w: Wire, later: Wire): int {
    |DataOf(w.items)| - |DataOf(later.items)|
  }

  lemma {:induction false} DataOfItems(data: Bytes, rest: seq<Item>)
    ensures DataOf(Items(data) + rest) == data + DataOf(rest)
  {
    if data == [] {
      assert Items(data) + rest == rest;
    } else {
      assert (Items(data) + rest)[1..] == Items(data[1..]) + rest;
      DataOfItems(data[1..], rest);
    }
  }

  /** Every read takes the next bytes of the stream, at most its maximum, and nothing is lost but those. */
  lemma ReadTakesAtMost(w: Wire, max: nat)
    ensures var got := Run(w.items)[..Min(max, |Run(w.items)|)];
            DataOf(w.items) == got + DataOf(AfterRead(w, max).items) && Lost(w, AfterRead(w, max)) == |got| <= max
  {
    RunFits(w.items);
    var n := Min(max, |Run(w.items)|);
    var got := Run(w.items)[..n];
    assert w.items == Items(got) + w.items[n..];
    DataOfItems(got, w.items[n..]);
    if max > n && n < |w.items| {
      assert w.items[n..][1..] == w.items[n + 1..];
    }
  }

  lemma UntilTakesAtMost(w: Wire, delimiter: Bytes, max: nat)
    ensures 0 <= Lost(w, AfterUntil(w, delimiter, max)) <= max
  {
    var run := Run(w.items);
    RunFits(w.items);
    var first := FirstEnd(run, delimiter, 0, Min(max, |run|));
    hide Run, FirstEnd, AfterRead;
    ReadTakesAtMost(w, if first.Some? then first.value else max);
  }

  lemma SucceedsAfter(w: Wire, min: nat, max: nat, delimiter: Bytes)
    ensures ReadExact(w, max).Ok? ==> ReadExact(w, max).value.rest == AfterRead(w, max)
    ensures ReadUpTo(w, min, max).Ok? ==> ReadUpTo(w, min, max).value.rest == AfterRead(w, max)
    ensures ReadUntil(w, delimiter, max).Ok? ==> ReadUntil(w, delimiter, max).value.rest == AfterUntil(w, delimiter, max)
  {
    hide Run;
    RunFits(w.items);
  }

  // ----- facts about runs

  lemma RunFits(items: seq<Item>)
    ensures |Run(items)| <= |items|
    ensures forall i :: 0 <= i < |Run(items)| ==> items[i] == Data(Run(items)[i])
    ensures |Run(items)| < |items| ==> items[|Run(items)|].Expire?
  {}

  lemma {:induction false} RunAdvance(items: seq<Item>, n: nat)
    requires n <= |Run(items)|
    ensures n <= |items| && Run(items[n..]) == Run(items)[n..]
  {
    RunFits(items);
    if n > 0 {
      RunAdvance(items[1..], n - 1);
      assert items[1..][n - 1..] == items[n..];
    }
  }

  lemma {:induction false} RunAppend(data: Bytes, items: seq<Item>)
    ensures Run(Items(data) + items) == data + Run(items)
  {
    if data == [] {
      assert Items(data) + items == items;
    } else {
      RunAppend(data[1..], items);
      assert (Items(data) + items)[0] == Data(data[0]);
      assert (Items(data) + items)[1..] == Items(data[1..]) + items;
    }
  }

  /** `now` is the wire `start` after its bytes `got` were taken from it. */
  ghost predicate Follows(start: Wire, got: Bytes, now: Wire) {
    && |got| <= |start.items|
    && now == Advance(start, |got|)
    && Run(start.items) == got + Run(now.items)
  }

  lemma FollowsOn(start: Wire, got: Bytes, now: Wire, data: Bytes, next: Wire)
    requires Follows(start, got, now) && Follows(now, data, next)
    ensures Follows(start, got + data, next)
  {
    assert start.items[|got|..][|data|..] == start.items[|got + data|..];
    assert got + (data + Run(next.items)) == (got + data) + Run(next.items);
  }

  lemma PrefixOfRun(start: Wire, got: Bytes, now: Wire)
    requires Follows(start, got, now)
    ensures |got| <= |Run(start.items)| && Run(start.items)[..|got|] == got
  {}

  lemma NothingMore(start: Wire, got: Bytes, now: Wire)
    requires Follows(start, got, now) && Run(now.items) == []
    ensures got == Run(start.items) && (|got| < |start.items| <==> now.items != [])
  {}

  /** A read short of `max` that gets nothing more leaves the stream after its run. */
  lemma Stops(start: Wire, got: Bytes, before: Wire, now: Wire, max: nat)
    requires Follows(start, got, before) && Run(before.items) == [] && |got| < max
    requires now == if before.items == [] then before else Advance(before, 1)
    ensures now == AfterRead(start, max)
  {
    NothingMore(start, got, before);
    if before.items != [] {
      assert start.items[|got|..][1..] == start.items[|got| + 1..];
    }
  }

  lemma Fills(start: Wire, got: Bytes, now: Wire, max: nat)
    requires Follows(start, got, now) && |got| == max
    ensures now == AfterRead(start, max)
  {}

  /** The whole run was taken short of `max`, and the read was stopped by the deadline or the close. */
  ghost predicate Drained(start: Wire, got: Bytes, max: nat, now: Wire) {
    && got == Run(start.items) && |got| < max && |got| <= |start.items|
    && now == Advance(start, if |got| < |start.items| then |got| + 1 else |got|)
    && (|got| == |start.items| ==> !start.ending.Broken?)
  }

  // ----- what the reads promise

  /** Every successful read returns the next bytes of the wire, in order and without gaps. */
  lemma ReadsAreSlices(w: Wire, r: Result<Taken, Failure>, min: nat, max: nat, delimiter: Bytes)
    requires r == ReadExact(w, max) || r == ReadUpTo(w, min, max) || r == ReadUntil(w, delimiter, max)
    requires r.Ok?
    ensures |r.value.data| <= max && |r.value.data| <= |w.items|
    ensures w.items[..|r.value.data|] == Items(r.value.data)
    ensures r.value.rest.items == w.items[|r.value.data|..] ||
            (|r.value.data| < |w.items| && w.items[|r.value.data|].Expire? &&
             r.value.rest.items == w.items[|r.value.data| + 1..])
    ensures r.value.rest.ending == w.ending
  {
    RunFits(w.items);
  }

  /** `read_until` takes exactly the shortest prefix that ends in the delimiter. */
  lemma ReadUntilIsShortest(w: Wire, delimiter: Bytes, max: nat, n: nat)
    requires delimiter != []
    ensures var run := Run(w.items);
            (exists r :: ReadUntil(w, delimiter, max) == Ok(r) && |r.data| == n) <==>
            (n <= max && n <= |run| && EndsWith(run[..n], delimiter) &&
             forall m :: 0 <= m < n ==> !EndsWith(run[..m], delimiter))
  {
    var run := Run(w.items);
    RunFits(w.items);
    var first := FirstEnd(run, delimiter, 0, Min(max, |run|));
    if first.Some? {
      assert ReadUntil(w, delimiter, max) == Ok(Taken(run[..first.value], Advance(w, first.value)));
      if n <= max && n <= |run| && EndsWith(run[..n], delimiter) {
        assert n > 0;
      }
    }
  }

  /** What comes of `max` bytes before the deadline passes or the script ends. */
  function Arriving(w: Wire, max: nat): Bytes {
    var run := Run(w.items);
    if max < |run| then run[..max] else run
  }

  /** The script ends before `max` bytes and before any deadline. */
  predicate EndsBefore(w: Wire, max: nat) {
    |Run(w.items)| < max && |Run(w.items)| == |w.items|
  }

  /** `read_exact` succeeds exactly when enough arrives, and fails as the stream stalls. */
  lemma ReadExactIff(w: Wire, len: nat, data: Bytes)
    ensures (exists r :: ReadExact(w, len) == Ok(r) && r.data == data) <==> |data| == len && data == Arriving(w, len)
    ensures |Arriving(w, len)| < len ==>
              ReadExact(w, len) == Err(if !EndsBefore(w, len) || w.ending.Silent? then ReadTimeout
                                       else if w.ending.Closed? then ConnectionReset else FromIo(w.ending.kind))
  {
    RunFits(w.items);
    if len <= |Run(w.items)| {
      assert ReadExact(w, len) == Ok(Taken(Run(w.items)[..len], Advance(w, len)));
    }
  }

  /**
   * `read_up_to` succeeds exactly when at least `min` bytes arrive and the stream does not break
   * before `max`, with all that arrives; a deadline, a close and the limit all end it well.
   */
  lemma ReadUpToIff(w: Wire, min: nat, max: nat, data: Bytes)
    ensures var breaks := EndsBefore(w, max) && w.ending.Broken?;
            && ((exists r :: ReadUpTo(w, min, max) == Ok(r) && r.data == data) <==>
                data == Arriving(w, max) && |data| >= min && !breaks)
            && (breaks ==> ReadUpTo(w, min, max) == Err(FromIo(w.ending.kind)))
            && (!breaks && |Arriving(w, max)| < min ==>
                ReadUpTo(w, min, max) == Err(if Arriving(w, max) == [] then ReadTimeout else InvalidResponse))
  {
    RunFits(w.items);
    var run := Run(w.items);
    assert max == |run| ==> run[..max] == run;
    var r := ReadUpTo(w, min, max);
    assert r.Ok? ==> r == Ok(r.value);
  }

  /** `read_until` fails for want of the delimiter within the limit, or as the stream stalls before it. */
  lemma ReadUntilFails(w: Wire, delimiter: Bytes, max: nat)
    requires forall m :: 0 < m <= |Arriving(w, max)| ==> !EndsWith(Arriving(w, max)[..m], delimiter)
    ensures ReadUntil(w, delimiter, max) ==
            Err(if |Arriving(w, max)| == max then InvalidResponse
                else if !EndsBefore(w, max) || w.ending.Silent? then ReadTimeout
                else if w.ending.Closed? then ConnectionReset else FromIo(w.ending.kind))
  {
    RunFits(w.items);
    var run := Run(w.items);
    forall m | 0 < m <= Min(max, |run|)
      ensures !EndsWith(run[..m], delimiter)
    {
      assert Arriving(w, max)[..m] == run[..m];
    }
    FirstEndIs(run, delimiter, Min(max, |run|), None);
  }

  // ----- the same wire, delivered in chunks

  /** A chunk handed over by one read of the socket, or the deadline passing. */
  datatype Event = Chunk(data: Bytes) | Pause

  function Flatten(events: seq<Event>): seq<Item> {
    if events == [] then []
    else (match events[0]
          case Chunk(data) => Items(data)
          case Pause => [Expire]) + Flatten(events[1..])
  }

  datatype ReadResult = Received(data: Bytes) | Eof | Fault(kind: IoKind) | TimedOut

  class PeerStream {
    var events: seq<Event>
    const ending: Ending

    constructor (events: seq<Event>, ending: Ending)
      ensures this.events == events && this.ending == ending
    {
      this.events := events;
      this.ending := ending;
    }

    ghost function View(): Wire
      reads this
    {
      Wire(Flatten(events), ending)
    }

    /** One `read` into a buffer of `wanted` bytes, racing the deadline of the caller. */
    method Read(wanted: nat) returns (r: ReadResult)
      requires wanted > 0
      modifies this
      ensures match r
              case Received(data) =>
                0 < |data| <= wanted && Follows(old(View()), data, View())
              case TimedOut =>
                Run(old(View()).items) == [] &&
                if old(View()).items == [] then ending == Silent && View() == old(View())
                else View() == Advance(old(View()), 1)
              case Eof => old(View()).items == [] && ending == Closed && View() == old(View())
              case Fault(kind) => old(View()).items == [] && ending == Broken(kind) && View() == old(View())
    {
      while events != [] && events[0] == Chunk([])
        invariant View() == old(View())
        decreases |events|
      {
        assert Items([]) + Flatten(events[1..]) == Flatten(events[1..]);
        events := events[1..];
      }
      if events == [] {
        match ending
        case Closed => return Eof;
        case Broken(kind) => return Fault(kind);
        case Silent => return TimedOut;
      }
      ghost var was := events;
      match events[0]
      case Pause =>
        events := events[1..];
        assert ([Expire] + Flatten(events))[1..] == Flatten(events);
        return TimedOut;
      case Chunk(data) =>
        var n := Min(|data|, wanted);
        events := [Chunk(data[n..])] + events[1..];
        assert events[1..] == was[1..];
        assert Items(data) == Items(data[..n]) + Items(data[n..]);
        assert Flatten(was) == Items(data[..n]) + Flatten(events);
        RunAppend(data[..n], Flatten(events));
        return Received(data[..n]);
    }

    /** `read_exact`: fills a buffer of `len` bytes or fails. */
    method ReadExactly(len: nat) returns (r: Result<Bytes, Failure>)
      modifies this
      ensures match ReadExact(old(View()), len)
              case Ok(taken) => r == Ok(taken.data)
              case Err(failure) => r == Err(failure)
      ensures View() == AfterRead(old(View()), len)
    {
      hide Run, Flatten;
      ghost var start := View();
      var filled: Bytes := [];
      RunFits(start.items);
      while |filled| < len
        invariant |filled| <= len
        invariant Follows(start, filled, View())
      {
        ghost var before := View();
        var got := Read(len - |filled|);
        match got {
          case Received(data) =>
            FollowsOn(start, filled, before, data, View());
            filled := filled + data;
          case TimedOut =>
            Stops(start, filled, before, View(), len);
            return Err(ReadTimeout);
          case Eof =>
            Stops(start, filled, before, View(), len);
            return Err(FromIo(IoUnexpectedEof));
          case Fault(kind) =>
            Stops(start, filled, before, View(), len);
            return Err(FromIo(kind));
        }
      }
      Fills(start, filled, View(), len);
      return Ok(filled);
    }

    /** `read_up_to`: collects until `max` bytes, the deadline, or the end of the stream. */
    method ReadAtMost(min: nat, max: nat) returns (r: Result<Bytes, Failure>)
      modifies this
      ensures match ReadUpTo(old(View()), min, max)
              case Ok(taken) => r == Ok(taken.data)
              case Err(failure) => r == Err(failure)
      ensures View() == AfterRead(old(View()), max)
    {
      hide Run, Flatten;
      ghost var start := View();
      RunFits(start.items);
      var output: Bytes := [];
      var open := true;
      while open && |output| < max
        invariant |output| <= max
        invariant if open then Follows(start, output, View()) else Drained(start, output, max, View())
        decreases open, max - |output|
      {
        ghost var before := View();
        var got := Read(Min(4096, max - |output|));
        match got {
          case Received(data) =>
            FollowsOn(start, output, before, data, View());
            output := output + data;
          case TimedOut =>
            NothingMore(start, output, before);
            open := false;
          case Eof =>
            NothingMore(start, output, before);
            open := false;
          case Fault(kind) =>
            Stops(start, output, before, View(), max);
            NothingMore(start, output, before);
            return Err(FromIo(kind));
        }
      }
      if open {
        PrefixOfRun(start, output, View());
        Fills(start, output, View(), max);
      }
      if |output| < min {
        return Err(if output == [] then ReadTimeout else InvalidResponse);
      }
      return Ok(output);
    }

    /** `read_until`: one byte at a time, so nothing past the delimiter is consumed. */
    method ReadDelimited(delimiter: Bytes, max: nat) returns (r: Result<Bytes, Failure>)
      modifies this
      ensures match ReadUntil(old(View()), delimiter, max)
              case Ok(taken) => r == Ok(taken.data)
              case Err(failure) => r == Err(failure)
      ensures View() == AfterUntil(old(View()), delimiter, max)
    {
      hide FirstEnd, Run, Flatten;
      ghost var start := View();
      ghost var run := Run(start.items);
      RunFits(start.items);
      var output: Bytes := [];
      while |output| < max
        invariant |output| <= max
        invariant Follows(start, output, View())
        invariant forall m :: 0 < m <= |output| ==> !EndsWith(run[..m], delimiter)
      {
        ghost var before := View();
        var got := Read(1);
        match got {
          case Received(data) =>
            FollowsOn(start, output, before, data, View());
            output := output + data;
            PrefixOfRun(start, output, View());
            if EndsWith(output, delimiter) {
              FirstEndIs(run, delimiter, Min(max, |run|), Some(|output|));
              return Ok(output);
            }
          case TimedOut =>
            FirstEndIs(run, delimiter, Min(max, |run|), None);
            Stops(start, output, before, View(), max);
            return Err(ReadTimeout);
          case Eof =>
            FirstEndIs(run, delimiter, Min(max, |run|), None);
            Stops(start, output, before, View(), max);
            return Err(FromIo(IoUnexpectedEof));
          case Fault(kind) =>
            FirstEndIs(run, delimiter, Min(max, |run|), None);
            Stops(start, output, before, View(), max);
            return Err(FromIo(kind));
        }
      }
      FirstEndIs(run, delimiter, Min(max, |run|), None);
      return Err(InvalidResponse);
    }
  }
}
