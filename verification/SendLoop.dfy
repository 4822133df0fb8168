/**
 * The raw SYN sender: batches of packets, a send loop that copes with partial and failed system
 * calls, and a pacing loop that keeps the rate. The system's answers, the arrival of jobs and the
 * clock are scripts; times are seconds, as reals.
 */
module SendLoop {
  import opened Wrappers
  import Cookie

  datatype Address = V4(ip: bv32) | V6(number: nat)

  datatype Job = Job(address: Address, port: bv16)

  datatype Slot = Slot(source: bv32, job: Job, sequence: bv32)

  // ----- one batch through `sendmmsg`

  /** What one call answers: how many packets it took, or an error. */
  datatype Syscall = Returned(count: nat) | Interrupted | Failed

  datatype Outcome = Outcome(sent: seq<Slot>, skipped: seq<Slot>, results: seq<Syscall>)

  function Min(a: nat, b: nat): nat {
    if a < b then a else b
  }

  /** The fate of each packet, given the answers to come. When they run out, all is taken. */
  function Transmit(slots: seq<Slot>, results: seq<Syscall>): Outcome
    decreases |slots| + |results|
  {
    if slots == [] then Outcome([], [], results)
    else if results == [] then Outcome(slots, [], [])
    else
      match results[0]
      case Interrupted => Transmit(slots, results[1..])
      case Returned(count) =>
        if count > 0 then
          var taken := Min(count, |slots|);
          var rest := Transmit(slots[taken..], results[1..]);
          rest.(sent := slots[..taken] + rest.sent)
        else SkipFirst(slots, Transmit(slots[1..], results[1..]))
      case Failed => SkipFirst(slots, Transmit(slots[1..], results[1..]))
  }

  function SkipFirst(slots: seq<Slot>, rest: Outcome): Outcome
    requires slots != []
  {
    rest.(skipped := [slots[0]] + rest.skipped)
  }

  function SlotJobs(slots: seq<Slot>): seq<Job> {
    seq(|slots|, i requires 0 <= i < |slots| => slots[i].job)
  }

  lemma SlotJobsJoin(a: seq<Slot>, b: seq<Slot>)
    ensures SlotJobs(a + b) == SlotJobs(a) + SlotJobs(b)
  {}

  /** The two lists together are the batch. */
  ghost predicate Conserves(slots: seq<Slot>, o: Outcome) {
    && multiset(o.sent) + multiset(o.skipped) == multiset(slots)
    && multiset(SlotJobs(o.sent)) + multiset(SlotJobs(o.skipped)) == multiset(SlotJobs(slots))
    && |o.sent| + |o.skipped| == |slots|
  }

  lemma ConservesMore(slots: seq<Slot>, n: nat, rest: Outcome)
    requires n <= |slots| && Conserves(slots[n..], rest)
    ensures Conserves(slots, rest.(sent := slots[..n] + rest.sent))
    ensures Conserves(slots, rest.(skipped := slots[..n] + rest.skipped))
  {
    assert slots == slots[..n] + slots[n..];
    SlotJobsJoin(slots[..n], slots[n..]);
    SlotJobsJoin(slots[..n], rest.sent);
    SlotJobsJoin(slots[..n], rest.skipped);
  }

  /** Each packet is sent or skipped, exactly once. */
  lemma {:induction false} TransmitConserves(slots: seq<Slot>, results: seq<Syscall>)
    ensures Conserves(slots, Transmit(slots, results))
    decreases |slots| + |results|
  {
    if slots != [] && results != [] {
      var n := if results[0].Returned? && results[0].count > 0 then Min(results[0].count, |slots|)
               else if results[0].Interrupted? then 0 else 1;
      TransmitConserves(slots[n..], results[1..]);
      hide Conserves;
      ConservesMore(slots, n, Transmit(slots[n..], results[1..]));
      assert slots[0..] == slots && slots[..1] == [slots[0]];
    }
  }

  /** What a call answers to `count` packets, and what it does to the answers to come. */
  function Answer(results: seq<Syscall>, count: nat): Syscall {
    if results == [] then Returned(count)
    else
      match results[0]
      case Returned(n) => Returned(Min(n, count))
      case Interrupted => Interrupted
      case Failed => Failed
  }

  function Later(results: seq<Syscall>): seq<Syscall> {
    if results == [] then [] else results[1..]
  }

  lemma TransmitStep(slots: seq<Slot>, results: seq<Syscall>, answer: Syscall)
    requires slots != [] && answer == Answer(results, |slots|)
    ensures var whole := Transmit(slots, results);
            var n := if answer.Returned? && answer.count > 0 then answer.count else if answer.Interrupted? then 0 else 1;
            n <= |slots| &&
            var rest := Transmit(slots[n..], Later(results));
            whole.results == rest.results &&
            |whole.sent| == |rest.sent| + (if answer.Returned? then answer.count else 0) &&
            |whole.skipped| == |rest.skipped| + (if n == 1 && !(answer.Returned? && answer.count > 0) then 1 else 0)
  {
    assert slots[0..] == slots;
    if results == [] {
      assert slots[|slots|..] == [];
    }
  }

  lemma Deeper(slots: seq<Slot>, cursor: nat, n: nat)
    requires cursor + n <= |slots|
    ensures slots[cursor..][n..] == slots[cursor + n..]
  {}

  /** How many packets a call settles. */
  function Settled(answer: Syscall): nat {
    match answer
    case Returned(count) => if count > 0 then count else 1
    case Interrupted => 0
    case Failed => 1
  }

  /** What one call changes about the rest of the batch, and that it makes progress. */
  lemma NextIs(slots: seq<Slot>, cursor: nat, results: seq<Syscall>, answer: Syscall)
    requires cursor < |slots| && answer == Answer(results, |slots| - cursor)
    ensures cursor + Settled(answer) <= |slots| && |Later(results)| <= |results|
    ensures Settled(answer) == 0 ==> |Later(results)| < |results|
    ensures var now, later := Transmit(slots[cursor..], results), Transmit(slots[cursor + Settled(answer)..], Later(results));
            var sent := if answer.Returned? && answer.count > 0 then answer.count else 0;
            now.results == later.results && |now.sent| == |later.sent| + sent &&
            |now.skipped| == |later.skipped| + (Settled(answer) - sent)
  {
    hide Transmit;
    TransmitStep(slots[cursor..], results, answer);
    Deeper(slots, cursor, Settled(answer));
  }

  lemma AllSent()
    ensures forall results :: Transmit([], results) == Outcome([], [], results)
  {}

  class Kernel {
    var results: seq<Syscall>

    constructor (results: seq<Syscall>)
      ensures this.results == results
    {
      this.results := results;
    }

    /** `sendmmsg` on `count` messages. */
    method SendMany(count: nat) returns (r: Syscall)
      requires count > 0
      modifies this
      ensures r == Answer(old(results), count) && results == Later(old(results))
    {
      if results == [] {
        return Returned(count);
      }
      r := results[0];
      results := results[1..];
      if r.Returned? {
        r := Returned(Min(r.count, count));
      }
    }
  }

  class PacketBatch {
    var slots: seq<Slot>
    const capacity: nat

    constructor (capacity: nat)
      ensures slots == [] && this.capacity == capacity
    {
      slots := [];
      this.capacity := capacity;
    }

    method Clear()
      modifies this
      ensures slots == []
    {
      slots := [];
    }

    method Push(slot: Slot) returns (ok: bool)
      modifies this
      ensures ok == (|old(slots)| != capacity)
      ensures slots == if ok then old(slots) + [slot] else old(slots)
    {
      ok := |slots| != capacity;
      if ok {
        slots := slots + [slot];
      }
    }

    /** `send_all`: the numbers of packets sent and skipped. */
    method SendAll(kernel: Kernel) returns (sent: nat, skipped: nat)
      modifies kernel
      ensures var o := Transmit(slots, old(kernel.results));
              sent == |o.sent| && skipped == |o.skipped| && kernel.results == o.results
    {
      hide Transmit, Answer, Later, SlotJobs;
      var cursor: nat := 0;
      sent, skipped := 0, 0;
      ghost var whole := Transmit(slots, kernel.results);
      AllSent();
      assert slots[0..] == slots && slots[|slots|..] == [];
      while cursor < |slots|
        invariant cursor <= |slots|
        invariant var rest := Transmit(slots[cursor..], kernel.results);
                  |whole.sent| == sent + |rest.sent| && |whole.skipped| == skipped + |rest.skipped| &&
                  whole.results == rest.results
        decreases |slots| - cursor + |kernel.results|, |slots| - cursor
      {
        ghost var was := kernel.results;
        var result := kernel.SendMany(|slots| - cursor);
        NextIs(slots, cursor, was, result);
        if result.Returned? && result.count > 0 {
          cursor := cursor + result.count;
          sent := sent + result.count;
        } else if !result.Interrupted? {
          cursor := cursor + 1;
          skipped := skipped + 1;
        }
      }
    }
  }

  // ----- pacing

  /** A batch that was sent, and when its sending began. */
  datatype Batch = Batch(start: real, slots: seq<Slot>, outcome: Outcome)

  /** The packets a rate allows between two times. */
  function Allowance(rate: real, from: real, until: real): real {
    rate * (until - from)
  }

  /** Batches are not empty and fit the limit, and each waits for its predecessor's share of the rate. */
  ghost predicate Paced(trace: seq<Batch>, rate: real, limit: nat) {
    && (forall k :: 0 <= k < |trace| ==> 0 < |trace[k].slots| <= limit)
    && (forall k :: 0 < k < |trace| ==> |trace[k - 1].slots| as real <= Allowance(rate, trace[k - 1].start, trace[k].start))
  }

  /** The packets of the batches that start within a window. */
  function Attempted(trace: seq<Batch>, from: real, until: real): nat {
    if trace == [] then 0
    else (if from <= trace[0].start <= until then |trace[0].slots| else 0) + Attempted(trace[1..], from, until)
  }

  lemma {:induction false} AfterWindow(trace: seq<Batch>, rate: real, limit: nat, from: real, until: real)
    requires rate > 0.0 && Paced(trace, rate, limit) && trace != [] && trace[0].start > until
    ensures Attempted(trace, from, until) == 0
  {
    hide Allowance;
    if |trace| > 1 {
      PacedTail(trace, rate, limit);
      Forward(rate, trace[0].start, trace[1].start);
      AfterWindow(trace[1..], rate, limit, from, until);
    }
  }

  lemma Forward(rate: real, a: real, b: real)
    requires rate > 0.0 && Allowance(rate, a, b) > 0.0
    ensures a < b
  {}

  lemma Nonnegative(rate: real, a: real, b: real)
    requires rate > 0.0 && a <= b
    ensures Allowance(rate, a, b) >= 0.0
  {}

  lemma Stretch(rate: real, a: real, b: real, c: real)
    ensures Allowance(rate, a, c) == Allowance(rate, a, b) + Allowance(rate, b, c)
  {}

  lemma PacedTail(trace: seq<Batch>, rate: real, limit: nat)
    requires Paced(trace, rate, limit) && trace != []
    ensures Paced(trace[1..], rate, limit)
    ensures |trace| > 1 ==> 0.0 < |trace[0].slots| as real <= Allowance(rate, trace[0].start, trace[1].start)
  {
    hide Allowance;
    forall k | 0 < k < |trace[1..]|
      ensures |trace[1..][k - 1].slots| as real <= Allowance(rate, trace[1..][k - 1].start, trace[1..][k].start)
    {
      assert trace[1..][k] == trace[k + 1] && trace[1..][k - 1] == trace[(k + 1) - 1];
    }
    if |trace| > 1 {
      assert trace[1 - 1] == trace[0];
    }
  }

  /** From the first batch on, the rate is kept up to one batch. */
  lemma {:induction false} FromFirst(trace: seq<Batch>, rate: real, limit: nat, from: real, until: real)
    requires rate > 0.0 && Paced(trace, rate, limit) && trace != [] && from <= trace[0].start <= until
    ensures Attempted(trace, from, until) as real <= Allowance(rate, trace[0].start, until) + limit as real
  {
    hide Allowance;
    if |trace| == 1 {
      assert Attempted(trace[1..], from, until) == 0;
      Nonnegative(rate, trace[0].start, until);
    } else {
      PacedTail(trace, rate, limit);
      var s0, s1 := trace[0].start, trace[1].start;
      Forward(rate, s0, s1);
      if s1 <= until {
        FromFirst(trace[1..], rate, limit, from, until);
        Stretch(rate, s0, s1, until);
      } else {
        AfterWindow(trace[1..], rate, limit, from, until);
        Nonnegative(rate, s0, until);
      }
    }
  }

  lemma {:induction false} WithinAllowance(trace: seq<Batch>, rate: real, limit: nat, from: real, until: real)
    requires rate > 0.0 && Paced(trace, rate, limit) && from <= until
    ensures Attempted(trace, from, until) as real <= Allowance(rate, from, until) + limit as real
  {
    hide Allowance;
    Nonnegative(rate, from, until);
    if trace != [] {
      if trace[0].start < from {
        PacedTail(trace, rate, limit);
        WithinAllowance(trace[1..], rate, limit, from, until);
      } else if trace[0].start <= until {
        FromFirst(trace, rate, limit, from, until);
        Stretch(rate, from, trace[0].start, until);
        Nonnegative(rate, from, trace[0].start);
      } else {
        AfterWindow(trace, rate, limit, from, until);
      }
    }
  }

  /** In any window, whatever the idle gaps, no more is attempted than the rate allows and one batch. */
  lemma WindowBound(trace: seq<Batch>, rate: real, limit: nat, from: real, until: real)
    requires rate > 0.0 && Paced(trace, rate, limit) && from <= until
    ensures Attempted(trace, from, until) as real <= rate * (until - from) + limit as real
  {
    hide Attempted, Paced;
    WithinAllowance(trace, rate, limit, from, until);
  }

  // ----- the loop

  /** What the channel holds next: a job, with the route the system will find, or a moment without one. */
  datatype Delivery = Ready(job: Job, route: Option<bv32>) | Gap

  datatype Poll = Got(job: Job, route: Option<bv32>) | Empty | Disconnected

  function Jobs(deliveries: seq<Delivery>): seq<Job> {
    if deliveries == [] then []
    else (if deliveries[0].Ready? then [deliveries[0].job] else []) + Jobs(deliveries[1..])
  }

  /** A job for which a packet can be built. */
  predicate Routable(d: Delivery) {
    d.Ready? && d.job.address.V4? && d.route.Some?
  }

  ghost predicate AnyRoutable(deliveries: seq<Delivery>) {
    exists k :: 0 <= k < |deliveries| && Routable(deliveries[k])
  }

  lemma AnyRoutableFirst(deliveries: seq<Delivery>)
    requires deliveries != []
    ensures AnyRoutable(deliveries) <==> Routable(deliveries[0]) || AnyRoutable(deliveries[1..])
  {
    forall k | 1 <= k < |deliveries| && Routable(deliveries[k])
      ensures AnyRoutable(deliveries[1..])
    {
      assert deliveries[1..][k - 1] == deliveries[k];
    }
  }

  ghost predicate Among(some: seq<Delivery>, all: seq<Delivery>) {
    forall d :: d in some ==> d in all
  }

  lemma AllAmong(all: seq<Delivery>)
    ensures Among(all, all)
  {}

  lemma AmongOn(some: seq<Delivery>, more: seq<Delivery>, all: seq<Delivery>)
    requires Among(some, more) && Among(more, all)
    ensures Among(some, all)
  {}

  class Channel {
    var deliveries: seq<Delivery>

    constructor (deliveries: seq<Delivery>)
      ensures this.deliveries == deliveries
    {
      this.deliveries := deliveries;
    }

    /** `blocking_recv`: waits for a job, or for the senders to be gone. */
    method Receive() returns (r: Poll)
      modifies this
      ensures !r.Empty?
      ensures r.Disconnected? ==> Jobs(old(deliveries)) == [] && deliveries == []
      ensures r.Got? ==> Jobs(old(deliveries)) == [r.job] + Jobs(deliveries) && |deliveries| < |old(deliveries)|
      ensures r.Got? ==> Ready(r.job, r.route) in old(deliveries)
      ensures Among(deliveries, old(deliveries))
      ensures AnyRoutable(old(deliveries)) <==> (r.Got? && Routable(Ready(r.job, r.route))) || AnyRoutable(deliveries)
    {
      hide AnyRoutable;
      while deliveries != [] && deliveries[0].Gap?
        invariant Jobs(deliveries) == Jobs(old(deliveries)) && |deliveries| <= |old(deliveries)|
        invariant AnyRoutable(deliveries) == AnyRoutable(old(deliveries))
        invariant Among(deliveries, old(deliveries))
        decreases |deliveries|
      {
        AnyRoutableFirst(deliveries);
        deliveries := deliveries[1..];
      }
      r := TryReceive();
    }

    method TryReceive() returns (r: Poll)
      modifies this
      ensures |deliveries| <= |old(deliveries)|
      ensures old(deliveries) == [] <==> r.Disconnected?
      ensures old(deliveries) != [] ==> (r.Empty? <==> old(deliveries)[0].Gap?) && |deliveries| < |old(deliveries)|
      ensures Jobs(old(deliveries)) == (if r.Got? then [r.job] else []) + Jobs(deliveries)
      ensures r.Got? ==> Ready(r.job, r.route) in old(deliveries)
      ensures Among(deliveries, old(deliveries))
      ensures AnyRoutable(old(deliveries)) <==> (r.Got? && Routable(Ready(r.job, r.route))) || AnyRoutable(deliveries)
    {
      if deliveries == [] {
        return Disconnected;
      }
      AnyRoutableFirst(deliveries);
      hide AnyRoutable;
      var first := deliveries[0];
      deliveries := deliveries[1..];
      return if first.Ready? then Got(first.job, first.route) else Empty;
    }
  }

  /** A clock that never goes back; `drifts` is how far it moves between one reading and the next. */
  class Clock {
    var elapsed: real
    var drifts: seq<real>

    ghost predicate Valid()
      reads this
    {
      elapsed >= 0.0 && forall i :: 0 <= i < |drifts| ==> drifts[i] >= 0.0
    }

    constructor (drifts: seq<real>)
      requires forall i :: 0 <= i < |drifts| ==> drifts[i] >= 0.0
      ensures Valid()
    {
      elapsed := 0.0;
      this.drifts := drifts;
    }

    method Now() returns (t: real)
      requires Valid()
      modifies this
      ensures Valid() && t == elapsed >= old(elapsed)
    {
      if drifts != [] {
        elapsed := elapsed + drifts[0];
        drifts := drifts[1..];
      }
      t := elapsed;
    }

    method Sleep(delay: real)
      requires Valid() && delay >= 0.0
      modifies this
      ensures Valid() && elapsed >= old(elapsed) + delay
    {
      elapsed := elapsed + delay;
    }
  }

  class Metrics {
    var dequeued: nat
    var packetsSent: nat
    var sendErrors: nat
    var targetsSkipped: nat

    constructor ()
      ensures dequeued == packetsSent == sendErrors == targetsSkipped == 0
    {
      dequeued, packetsSent, sendErrors, targetsSkipped := 0, 0, 0, 0;
    }
  }

  /** The packet for a job is addressed to it and carries its cookie. */
  predicate Carries(slot: Slot, secret: bv32) {
    slot.job.address.V4? && Cookie.Matches(slot.sequence, slot.job.address.ip, slot.job.port, secret)
  }

  lemma SequenceMatches(ip: bv32, port: bv16, secret: bv32, millis: nat)
    ensures Cookie.Matches(Cookie.Sequence(ip, port, secret, millis), ip, port, secret)
  {
    hide Cookie.Matches, Cookie.Sequence, Cookie.SentTick, Cookie.Tick, Cookie.Acknowledged, Cookie.Recovered;
    Cookie.AcknowledgementMatches(ip, port, secret, millis);
    Cookie.IncrementUndone(Cookie.Sequence(ip, port, secret, millis));
  }

  function Millis(t: real): nat
    requires t >= 0.0
  {
    (t * 1000.0).Floor
  }

  /** The sequence number of a packet for its target, as it is made at time `t`. */
  predicate StampedAt(slot: Slot, secret: bv32, t: real) {
    t >= 0.0 && slot.job.address.V4? &&
    slot.sequence == Cookie.Sequence(slot.job.address.ip, slot.job.port, secret, Millis(t))
  }

  lemma MillisAscend(t: real, later: real)
    requires 0.0 <= t <= later
    ensures Millis(t) <= Millis(later)
  {
    assert t * 1000.0 <= later * 1000.0;
  }

  /** What a scan sends from: its secret, its start, and the jobs it is given. */
  datatype Origin = Origin(secret: bv32, start: real, deliveries: seq<Delivery>)

  /** A packet for a job of the scan, from the address of its route, stamped since the start. */
  ghost predicate Queued(slot: Slot, o: Origin, until: real) {
    Ready(slot.job, Some(slot.source)) in o.deliveries && exists t :: o.start <= t <= until && StampedAt(slot, o.secret, t)
  }

  lemma QueuedCarries(slot: Slot, o: Origin, until: real)
    requires Queued(slot, o, until)
    ensures Carries(slot, o.secret)
  {
    hide Cookie.Matches, Cookie.Sequence, Millis;
    var t :| o.start <= t <= until && StampedAt(slot, o.secret, t);
    SequenceMatches(slot.job.address.ip, slot.job.port, o.secret, Millis(t));
  }

  /**
   * A reply to a packet of a scan is measured within one tick of the time since the packet was queued
   * if and only if fewer than 256 ticks have passed since then.
   */
  lemma ReplyMeasured(slot: Slot, o: Origin, until: real, now: real) returns (queued: real)
    requires Queued(slot, o, until) && until <= now
    ensures o.start <= queued <= until && queued >= 0.0
    ensures var measured := Cookie.ElapsedSince(Millis(now), Cookie.Recovered(Cookie.Acknowledged(slot.sequence)));
            Cookie.Distance(measured, Millis(now) - Millis(queued)) < 4 <==> Millis(now) / 4 - Millis(queued) / 4 < 256
  {
    hide Cookie.Sequence, Cookie.ElapsedSince, Cookie.Recovered, Cookie.Acknowledged, Cookie.Distance, Millis;
    queued :| o.start <= queued <= until && StampedAt(slot, o.secret, queued);
    MillisAscend(queued, now);
    Cookie.RttExactIff(slot.job.address.ip, slot.job.port, o.secret, Millis(queued), Millis(now));
  }

  /** The same of every packet a run of the loop sent. */
  lemma RunReplyMeasured(trace: seq<Batch>, o: Origin, k: nat, i: nat, now: real) returns (queued: real)
    requires AllStamped(trace, o) && k < |trace| && i < |trace[k].slots| && trace[k].start <= now
    ensures o.start <= queued <= trace[k].start && queued >= 0.0
    ensures var sequence := trace[k].slots[i].sequence;
            var measured := Cookie.ElapsedSince(Millis(now), Cookie.Recovered(Cookie.Acknowledged(sequence)));
            Cookie.Distance(measured, Millis(now) - Millis(queued)) < 4 <==> Millis(now) / 4 - Millis(queued) / 4 < 256
  {
    hide Queued, Cookie.ElapsedSince, Cookie.Recovered, Cookie.Acknowledged, Cookie.Distance, Millis;
    assert AllQueued(trace[k].slots, o, trace[k].start);
    queued := ReplyMeasured(trace[k].slots[i], o, trace[k].start, now);
  }

  /** `add_job`: a job without an IPv4 address or a route is skipped; a full batch refuses. */
  method AddJob(batch: PacketBatch, job: Job, route: Option<bv32>, secret: bv32, clock: Clock, metrics: Metrics)
      returns (ok: bool)
    requires clock.Valid()
    modifies batch, clock, metrics`targetsSkipped
    ensures clock.Valid() && clock.elapsed >= old(clock.elapsed)
    ensures var routed := job.address.V4? && route.Some?;
            && (ok <==> (routed ==> |old(batch.slots)| != batch.capacity))
            && metrics.targetsSkipped == old(metrics.targetsSkipped) + (if routed then 0 else 1)
            && (if ok && routed
                then |batch.slots| == |old(batch.slots)| + 1 && batch.slots[..|old(batch.slots)|] == old(batch.slots) &&
                     batch.slots[|old(batch.slots)|].job == job && Carries(batch.slots[|old(batch.slots)|], secret) &&
                     batch.slots[|old(batch.slots)|].source == route.value &&
                     exists t :: old(clock.elapsed) <= t <= clock.elapsed && StampedAt(batch.slots[|old(batch.slots)|], secret, t)
                else batch.slots == old(batch.slots))
  {
    if job.address.V6? || route.None? {
      metrics.targetsSkipped := metrics.targetsSkipped + 1;
      return true;
    }
    var now := clock.Now();
    var ip := job.address.ip;
    SequenceMatches(ip, job.port, secret, Millis(now));
    hide Cookie.Matches, Cookie.Sequence;
    var slot := Slot(route.value, job, Cookie.Sequence(ip, job.port, secret, Millis(now)));
    assert StampedAt(slot, secret, now);
    ok := batch.Push(slot);
  }

  datatype Fill = Finished | Refused | Filled(disconnected: bool)

  /** The jobs taken from the channel, as packets in the batch or dropped, and none twice. */
  ghost predicate Accounted(taken: seq<Job>, slots: seq<Slot>, dropped: seq<Job>) {
    multiset(taken) == multiset(SlotJobs(slots)) + multiset(dropped) && |taken| == |slots| + |dropped|
  }

  lemma AccountOne(taken: seq<Job>, slots: seq<Slot>, dropped: seq<Job>, job: Job, later: seq<Slot>, kept: bool)
    requires Accounted(taken, slots, dropped)
    requires if kept then |later| == |slots| + 1 && later[..|slots|] == slots && later[|slots|].job == job
             else later == slots
    ensures Accounted(taken + [job], later, if kept then dropped else dropped + [job])
  {
    if kept {
      assert SlotJobs(later) == SlotJobs(slots) + [job];
    }
  }

  ghost predicate AllQueued(slots: seq<Slot>, o: Origin, until: real) {
    forall i :: 0 <= i < |slots| ==> Queued(slots[i], o, until)
  }

  lemma AllQueuedMore(slots: seq<Slot>, later: seq<Slot>, o: Origin, from: real, until: real)
    requires AllQueued(slots, o, from) && o.start <= from <= until
    requires |later| == |slots| + 1 && later[..|slots|] == slots
    requires Ready(later[|slots|].job, Some(later[|slots|].source)) in o.deliveries
    requires exists t :: from <= t <= until && StampedAt(later[|slots|], o.secret, t)
    ensures AllQueued(later, o, until)
  {
    hide StampedAt;
    forall i | 0 <= i < |later|
      ensures Queued(later[i], o, until)
    {
      if i < |slots| {
        assert later[i] == later[..|slots|][i];
        assert Queued(slots[i], o, from);
      }
    }
  }

  lemma AllQueuedLater(slots: seq<Slot>, o: Origin, from: real, until: real)
    requires AllQueued(slots, o, from) && from <= until
    ensures AllQueued(slots, o, until)
  {
    hide StampedAt;
    assert forall i :: 0 <= i < |slots| ==> Queued(slots[i], o, from);
  }

  /** The same packets, as those of a longer scan. */
  lemma AllQueuedWider(slots: seq<Slot>, o: Origin, wider: Origin, until: real)
    requires AllQueued(slots, o, until) && o.secret == wider.secret && wider.start <= o.start
    requires Among(o.deliveries, wider.deliveries)
    ensures AllQueued(slots, wider, until)
  {
    hide StampedAt;
    forall i | 0 <= i < |slots|
      ensures Queued(slots[i], wider, until)
    {
      assert Queued(slots[i], o, until);
    }
  }

  /** Counts a job as taken from the channel and adds it to the batch. */
  method Take(batch: PacketBatch, poll: Poll, secret: bv32, clock: Clock, metrics: Metrics,
              ghost taken: seq<Job>, ghost dropped: seq<Job>, ghost o: Origin)
      returns (ok: bool, ghost lost: seq<Job>)
    requires clock.Valid() && poll.Got? && Accounted(taken, batch.slots, dropped)
    requires AllQueued(batch.slots, o, clock.elapsed) && o.secret == secret && o.start <= clock.elapsed
    requires Ready(poll.job, poll.route) in o.deliveries
    modifies batch, clock, metrics`dequeued, metrics`targetsSkipped
    ensures clock.Valid() && clock.elapsed >= old(clock.elapsed)
    ensures metrics.dequeued == old(metrics.dequeued) + 1
    ensures ok ==>
              (Accounted(taken + [poll.job], batch.slots, lost) && AllQueued(batch.slots, o, clock.elapsed) &&
              (|old(batch.slots)| < batch.capacity ==> |batch.slots| <= batch.capacity) &&
              (|old(batch.slots)| == batch.capacity ==> batch.slots == old(batch.slots)) &&
              metrics.targetsSkipped + |dropped| == old(metrics.targetsSkipped) + |lost|)
    ensures !ok ==> |old(batch.slots)| == batch.capacity
    ensures |old(batch.slots)| == batch.capacity ==> (ok <==> !Routable(Ready(poll.job, poll.route)))
  {
    hide Carries, Accounted, AllQueued, StampedAt;
    metrics.dequeued := metrics.dequeued + 1;
    ghost var before := batch.slots;
    ghost var from := clock.elapsed;
    ok := AddJob(batch, poll.job, poll.route, secret, clock, metrics);
    if !ok {
      return ok, dropped;
    }
    ghost var kept := poll.job.address.V4? && poll.route.Some?;
    lost := if kept then dropped else dropped + [poll.job];
    AccountOne(taken, before, dropped, poll.job, batch.slots, kept);
    if kept {
      assert Ready(poll.job, Some(batch.slots[|before|].source)) == Ready(poll.job, poll.route);
      AllQueuedMore(before, batch.slots, o, from, clock.elapsed);
    } else {
      AllQueuedLater(before, o, from, clock.elapsed);
    }
  }

  lemma NothingTaken(o: Origin, now: real)
    ensures Accounted([], [], []) && AllQueued([], o, now) && Jobs([]) == []
  {}

  lemma NoneRoutable()
    ensures !AnyRoutable([])
  {}

  /** Waits for one job, then takes what is there until the batch is full. */
  method Collect(batch: PacketBatch, channel: Channel, clock: Clock, metrics: Metrics, secret: bv32)
      returns (r: Fill, ghost taken: seq<Job>, ghost dropped: seq<Job>)
    requires clock.Valid()
    modifies batch, channel, clock, metrics`dequeued, metrics`targetsSkipped
    ensures clock.Valid() && clock.elapsed >= old(clock.elapsed)
    ensures Jobs(old(channel.deliveries)) == taken + Jobs(channel.deliveries)
    ensures metrics.dequeued == old(metrics.dequeued) + |taken|
    ensures r.Finished? ==> taken == [] && channel.deliveries == [] && metrics.targetsSkipped == old(metrics.targetsSkipped)
    ensures r.Refused? ==> batch.capacity == 0
    ensures batch.capacity == 0 ==> (AnyRoutable(old(channel.deliveries)) <==> r.Refused? || AnyRoutable(channel.deliveries))
    ensures r.Filled? ==>
              (Accounted(taken, batch.slots, dropped) && |batch.slots| <= batch.capacity &&
              |channel.deliveries| < |old(channel.deliveries)| &&
              metrics.targetsSkipped == old(metrics.targetsSkipped) + |dropped| &&
              (r.disconnected ==> channel.deliveries == []) &&
              AllQueued(batch.slots, Origin(secret, old(clock.elapsed), old(channel.deliveries)), clock.elapsed))
    ensures Among(channel.deliveries, old(channel.deliveries))
  {
    NoneRoutable();
    hide Carries, Accounted, AllQueued, Jobs, Routable, AnyRoutable;
    ghost var o := Origin(secret, clock.elapsed, channel.deliveries);
    batch.Clear();
    NothingTaken(o, clock.elapsed);
    taken, dropped := [], [];
    var poll := channel.Receive();
    if poll.Disconnected? {
      return Finished, [], [];
    }
    var ok;
    ok, dropped := Take(batch, poll, secret, clock, metrics, taken, dropped, o);
    taken := [] + [poll.job];
    assert batch.capacity == 0 ==> (AnyRoutable(old(channel.deliveries)) <==> !ok || AnyRoutable(channel.deliveries));
    if !ok {
      return Refused, taken, [];
    }
    var disconnected, empty := false, false;
    while |batch.slots| < batch.capacity && !disconnected && !empty
      invariant clock.Valid() && clock.elapsed >= old(clock.elapsed)
      invariant Jobs(old(channel.deliveries)) == taken + Jobs(channel.deliveries)
      invariant |channel.deliveries| < |old(channel.deliveries)| && (disconnected ==> channel.deliveries == [])
      invariant |batch.slots| <= batch.capacity
      invariant batch.capacity == 0 ==> (AnyRoutable(old(channel.deliveries)) <==> AnyRoutable(channel.deliveries))
      invariant Accounted(taken, batch.slots, dropped) && AllQueued(batch.slots, o, clock.elapsed)
      invariant Among(channel.deliveries, o.deliveries)
      invariant metrics.dequeued == old(metrics.dequeued) + |taken|
      invariant metrics.targetsSkipped == old(metrics.targetsSkipped) + |dropped|
      decreases |channel.deliveries|, !disconnected
    {
      poll := channel.TryReceive();
      match poll {
        case Empty => empty := true;
        case Disconnected => disconnected := true;
        case Got(_, _) =>
          ok, dropped := Take(batch, poll, secret, clock, metrics, taken, dropped, o);
          assert (taken + [poll.job]) + Jobs(channel.deliveries) == taken + ([poll.job] + Jobs(channel.deliveries));
          taken := taken + [poll.job];
      }
    }
    return Filled(disconnected), taken, dropped;
  }

  /** Waiting for the share of `count` packets allows for just as many. */
  lemma Share(count: nat, rate: real, start: real)
    requires rate > 0.0
    ensures count as real / rate >= 0.0 && Allowance(rate, start, start + count as real / rate) == count as real
  {
    var d := count as real / rate;
    assert rate * d == count as real;
    assert start + d - start == d;
  }

  ghost predicate AllMatch(trace: seq<Batch>, secret: bv32) {
    forall k, i :: 0 <= k < |trace| && 0 <= i < |trace[k].slots| ==> Carries(trace[k].slots[i], secret)
  }

  /** Every packet was queued since the start of the scan, no later than its batch began to be sent. */
  ghost predicate AllStamped(trace: seq<Batch>, o: Origin) {
    forall k :: 0 <= k < |trace| ==> AllQueued(trace[k].slots, o, trace[k].start)
  }

  lemma StampedMatch(trace: seq<Batch>, o: Origin)
    requires AllStamped(trace, o)
    ensures AllMatch(trace, o.secret)
  {
    hide Carries, Queued;
    forall k, i | 0 <= k < |trace| && 0 <= i < |trace[k].slots|
      ensures Carries(trace[k].slots[i], o.secret)
    {
      assert AllQueued(trace[k].slots, o, trace[k].start);
      QueuedCarries(trace[k].slots[i], o, trace[k].start);
    }
  }

  /** The jobs of the packets that were sent, and of those that were not. */
  function SentJobs(trace: seq<Batch>): seq<Job> {
    if trace == [] then [] else SentJobs(trace[..|trace| - 1]) + SlotJobs(trace[|trace| - 1].outcome.sent)
  }

  function SkippedJobs(trace: seq<Batch>): seq<Job> {
    if trace == [] then [] else SkippedJobs(trace[..|trace| - 1]) + SlotJobs(trace[|trace| - 1].outcome.skipped)
  }

  /** Time enough has passed since the last batch. */
  ghost predicate Rested(trace: seq<Batch>, rate: real, now: real) {
    trace != [] ==> |trace[|trace| - 1].slots| as real <= Allowance(rate, trace[|trace| - 1].start, now)
  }

  /** What the loop keeps of the batches sent so far. */
  ghost predicate Regular(trace: seq<Batch>, rate: real, limit: nat, o: Origin, now: real) {
    Paced(trace, rate, limit) && AllStamped(trace, o) && Rested(trace, rate, now)
  }

  lemma RegularLater(trace: seq<Batch>, rate: real, limit: nat, o: Origin, now: real, later: real)
    requires rate > 0.0 && Regular(trace, rate, limit, o, now) && now <= later
    ensures Regular(trace, rate, limit, o, later)
  {
    hide Paced, AllStamped, Allowance;
    if trace != [] {
      var start := trace[|trace| - 1].start;
      Stretch(rate, start, now, later);
      Nonnegative(rate, now, later);
    }
  }

  lemma RegularAppend(trace: seq<Batch>, rate: real, limit: nat, o: Origin, batch: Batch, now: real)
    requires Regular(trace, rate, limit, o, batch.start) && 0 < |batch.slots| <= limit
    requires AllQueued(batch.slots, o, batch.start)
    requires |batch.slots| as real <= Allowance(rate, batch.start, now)
    ensures Regular(trace + [batch], rate, limit, o, now)
  {
    hide AllQueued;
  }

  /** Sends one batch no earlier than `next`, and waits until its share of the rate has passed. */
  method SendPaced(batch: PacketBatch, kernel: Kernel, clock: Clock, metrics: Metrics, rate: real, next: real)
      returns (later: real, ghost sending: Batch)
    requires clock.Valid() && rate > 0.0 && next <= clock.elapsed
    modifies kernel, clock, metrics`packetsSent, metrics`sendErrors, metrics`targetsSkipped
    ensures clock.Valid() && old(clock.elapsed) <= sending.start <= clock.elapsed && later <= clock.elapsed
    ensures sending.slots == batch.slots && sending.outcome == Transmit(batch.slots, old(kernel.results))
    ensures |batch.slots| as real <= Allowance(rate, sending.start, clock.elapsed)
    ensures metrics.packetsSent == old(metrics.packetsSent) + |sending.outcome.sent|
    ensures metrics.sendErrors == old(metrics.sendErrors) + |sending.outcome.skipped|
    ensures metrics.targetsSkipped == old(metrics.targetsSkipped) + |sending.outcome.skipped|
  {
    hide Transmit, Allowance;
    var now := clock.Now();
    later := if next < now then now else next;
    sending := Batch(later, batch.slots, Transmit(batch.slots, kernel.results));
    TransmitConserves(batch.slots, kernel.results);
    var sent, skipped := batch.SendAll(kernel);
    metrics.packetsSent := metrics.packetsSent + sent;
    metrics.sendErrors := metrics.sendErrors + skipped;
    metrics.targetsSkipped := metrics.targetsSkipped + skipped;
    Share(sent + skipped, rate, sending.start);
    later := later + (sent + skipped) as real / rate;
    now := clock.Now();
    if now < later {
      clock.Sleep(later - now);
    }
    Stretch(rate, sending.start, later, clock.elapsed);
    Nonnegative(rate, later, clock.elapsed);
  }

  /** Jobs received are jobs sent, jobs whose packet failed, and jobs dropped before. */
  ghost predicate Ledger(received: seq<Job>, trace: seq<Batch>, dropped: seq<Job>) {
    multiset(received) == multiset(SentJobs(trace)) + multiset(SkippedJobs(trace)) + multiset(dropped)
  }

  lemma LedgerDrops(received: seq<Job>, trace: seq<Batch>, dropped: seq<Job>, jobs: seq<Job>, slots: seq<Slot>, lost: seq<Job>)
    requires Ledger(received, trace, dropped) && Accounted(jobs, slots, lost) && slots == []
    ensures Ledger(received + jobs, trace, dropped + lost)
  {}

  lemma LedgerSends(received: seq<Job>, trace: seq<Batch>, dropped: seq<Job>, jobs: seq<Job>, sending: Batch, lost: seq<Job>)
    requires Ledger(received, trace, dropped) && Accounted(jobs, sending.slots, lost)
    requires Conserves(sending.slots, sending.outcome)
    ensures Ledger(received + jobs, trace + [sending], dropped + lost)
    ensures |SentJobs(trace + [sending])| == |SentJobs(trace)| + |sending.outcome.sent|
    ensures |SkippedJobs(trace + [sending])| == |SkippedJobs(trace)| + |sending.outcome.skipped|
  {
    assert (trace + [sending])[..|trace|] == trace;
  }

  /**
   * The send loop. It is aborted if and only if the batch size is zero and some job can be routed;
   * otherwise every job received is sent or skipped and counted so; the packets carry the cookies of
   * their targets; and the rate is kept.
   */
  method Run(channel: Channel, kernel: Kernel, clock: Clock, metrics: Metrics, rate: real, batchSize: nat, secret: bv32)
      returns (aborted: bool, ghost trace: seq<Batch>, ghost dropped: seq<Job>)
    requires clock.Valid() && rate > 0.0
    modifies channel, kernel, clock, metrics
    ensures Paced(trace, rate, batchSize) && AllMatch(trace, secret)
    ensures AllStamped(trace, Origin(secret, old(clock.elapsed), old(channel.deliveries)))
    ensures aborted <==> batchSize == 0 && AnyRoutable(old(channel.deliveries))
    ensures !aborted ==> channel.deliveries == [] && Ledger(Jobs(old(channel.deliveries)), trace, dropped)
    ensures !aborted ==>
              (metrics.packetsSent == old(metrics.packetsSent) + |SentJobs(trace)| &&
              metrics.targetsSkipped == old(metrics.targetsSkipped) + |SkippedJobs(trace)| + |dropped| &&
              metrics.dequeued == old(metrics.dequeued) + |Jobs(old(channel.deliveries))|)
  {
    hide *;
    NoneRoutable();
    AllAmong(channel.deliveries);
    aborted, trace, dropped := false, [], [];
    ghost var o := Origin(secret, clock.elapsed, channel.deliveries);
    var batch := new PacketBatch(batchSize);
    var next := clock.Now();
    var open := true;
    ghost var received: seq<Job> := [];
    assert [] + Jobs(channel.deliveries) == Jobs(channel.deliveries);
    EmptyLedger(rate, clock.elapsed, batchSize, o);
    while open
      invariant fresh(batch) && batch.capacity == batchSize && clock.Valid() && next <= clock.elapsed
      invariant Regular(trace, rate, batchSize, o, clock.elapsed)
      invariant Jobs(old(channel.deliveries)) == received + Jobs(channel.deliveries)
      invariant !open ==> channel.deliveries == []
      invariant batchSize == 0 ==> (AnyRoutable(old(channel.deliveries)) <==> AnyRoutable(channel.deliveries))
      invariant o.start <= clock.elapsed && Among(channel.deliveries, o.deliveries)
      invariant Ledger(received, trace, dropped)
      invariant metrics.packetsSent == old(metrics.packetsSent) + |SentJobs(trace)|
      invariant metrics.targetsSkipped == old(metrics.targetsSkipped) + |SkippedJobs(trace)| + |dropped|
      invariant metrics.dequeued == old(metrics.dequeued) + |received|
      decreases |channel.deliveries|, open
    {
      ghost var before := clock.elapsed;
      var fill;
      ghost var jobs, lost;
      ghost var part := Origin(secret, clock.elapsed, channel.deliveries);
      fill, jobs, lost := Collect(batch, channel, clock, metrics, secret);
      AmongOn(channel.deliveries, part.deliveries, o.deliveries);
      assert (received + jobs) + Jobs(channel.deliveries) == received + (jobs + Jobs(channel.deliveries));
      RegularLater(trace, rate, batchSize, o, before, clock.elapsed);
      match fill {
        case Finished =>
          assert received + jobs == received;
          open := false;
        case Refused =>
          RegularIs(trace, rate, batchSize, o, clock.elapsed);
          return true, trace, dropped;
        case Filled(disconnected) =>
          if batch.slots == [] {
            LedgerDrops(received, trace, dropped, jobs, batch.slots, lost);
          } else {
            before := clock.elapsed;
            AllQueuedWider(batch.slots, part, o, clock.elapsed);
            TransmitConserves(batch.slots, kernel.results);
            ghost var sending;
            next, sending := SendPaced(batch, kernel, clock, metrics, rate, next);
            RegularLater(trace, rate, batchSize, o, before, sending.start);
            AllQueuedLater(batch.slots, o, before, sending.start);
            RegularAppend(trace, rate, batchSize, o, sending, clock.elapsed);
            LedgerSends(received, trace, dropped, jobs, sending, lost);
            trace := trace + [sending];
          }
          received, dropped := received + jobs, dropped + lost;
          open := !disconnected;
      }
    }
    assert received + Jobs([]) == received;
    RegularIs(trace, rate, batchSize, o, clock.elapsed);
  }

  lemma RegularIs(trace: seq<Batch>, rate: real, limit: nat, o: Origin, now: real)
    requires Regular(trace, rate, limit, o, now)
    ensures Paced(trace, rate, limit) && AllStamped(trace, o) && AllMatch(trace, o.secret)
  {
    StampedMatch(trace, o);
  }

  lemma EmptyLedger(rate: real, now: real, limit: nat, o: Origin)
    ensures Ledger([], [], []) && SentJobs([]) == SkippedJobs([]) == [] && Jobs([]) == []
    ensures Regular([], rate, limit, o, now)
  {}
}
