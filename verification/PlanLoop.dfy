/**
 * `run_plan` as it is written, a loop over probes around a loop over retries: undisturbed, it is
 * one of the runs of the transition system.
 */
module PlanLoop {
  import opened Wrappers
  import opened Limits
  import opened Sessions
  import opened Scheduler
  import Transport

  /** The plan is at `pc`, and the semaphore of its host exists. */
  ghost predicate Standing(s: State, t: nat, target: Target, sem: nat, pc: Pc) {
    t < |s.tasks| && s.tasks[t] == Task(target, pc) && sem < |s.sems| && |s.shards| == SHARDS
  }

  /** Every permit the plan may wait for can be had. */
  ghost predicate Free(c: Config, s: State, sem: nat) {
    sem < |s.sems| && s.sems[sem] > 0 && forall name :: name in c.names ==> name in s.probeFree && s.probeFree[name] > 0
  }

  /** The plan holds a permit of its host and one of `mine`. */
  ghost predicate HoldsPermits(c: Config, s: State, mine: string) {
    forall name :: name in c.names ==> name in s.probeFree && (name != mine ==> s.probeFree[name] > 0)
  }

  lemma {:induction false} AfterJoin(c: Config, s: State, a: seq<Action>, b: seq<Action>)
    requires After(c, s, a).Some?
    ensures After(c, s, a + b) == After(c, After(c, s, a).value, b)
    decreases |a|
  {
    hide Step;
    if a == [] {
      assert [] + b == b;
    } else {
      assert (a + b)[1..] == a[1..] + b;
      AfterJoin(c, Step(c, s, a[0]).value, a[1..], b);
    }
  }

  lemma AfterOne(c: Config, s: State, a: Action)
    ensures After(c, s, [a]) == Step(c, s, a)
  {
    hide Step;
    assert [a][1..] == [];
  }

  lemma Skips(c: Config, s: State, t: nat, target: Target, sem: nat, i: nat) returns (n: State)
    requires Standing(s, t, target, sem, At(sem, i)) && i < |c.names| && Free(c, s, sem)
    requires c.allows(i, target) ==> KeyOf(c, target, i) in s.shards[ShardOf(c.hash, KeyOf(c, target, i))]
    ensures Step(c, s, Consider(t)) == Some(n) && Standing(n, t, target, sem, At(sem, i + 1)) && Free(c, n, sem)
    ensures n.shards == s.shards && n.trace == s.trace && n.output == s.output
  {
    n := Step(c, s, Consider(t)).value;
  }

  lemma Ends(c: Config, s: State, t: nat, target: Target, sem: nat, i: nat) returns (n: State)
    requires Standing(s, t, target, sem, At(sem, i)) && i >= |c.names|
    ensures Step(c, s, Consider(t)) == Some(n) && Standing(n, t, target, sem, Finished(sem))
    ensures n.shards == s.shards && n.trace == s.trace && n.output == s.output
  {
    n := Step(c, s, Consider(t)).value;
  }

  lemma Claims(c: Config, s: State, t: nat, target: Target, sem: nat, i: nat) returns (n: State)
    requires Standing(s, t, target, sem, At(sem, i)) && i < |c.names| && Free(c, s, sem) && c.allows(i, target)
    requires KeyOf(c, target, i) !in s.shards[ShardOf(c.hash, KeyOf(c, target, i))]
    ensures Step(c, s, Consider(t)) == Some(n) && Standing(n, t, target, sem, NeedHost(sem, i)) && Free(c, n, sem)
    ensures n.shards == Insert(c.hash, s.shards, KeyOf(c, target, i)) && n.trace == s.trace && n.output == s.output
  {
    n := Step(c, s, Consider(t)).value;
  }

  lemma Acquires(c: Config, s: State, t: nat, target: Target, sem: nat, i: nat) returns (n: State)
    requires Standing(s, t, target, sem, NeedHost(sem, i)) && i < |c.names| && Free(c, s, sem)
    ensures After(c, s, [TakeHost(t)] + [TakeProbe(t)]) == Some(n)
    ensures Standing(n, t, target, sem, Running(sem, i, 0)) && HoldsPermits(c, n, c.names[i])
    ensures n.shards == s.shards && n.trace == s.trace && n.output == s.output
  {
    AfterOne(c, s, TakeHost(t));
    var m := Step(c, s, TakeHost(t)).value;
    assert Standing(m, t, target, sem, NeedProbe(sem, i));
    assert forall name :: name in c.names ==> name in m.probeFree && m.probeFree[name] > 0;
    assert m.shards == s.shards && m.trace == s.trace && m.output == s.output;
    AfterJoin(c, s, [TakeHost(t)], [TakeProbe(t)]);
    AfterOne(c, m, TakeProbe(t));
    hide After;
    n := AcquiresProbe(c, m, t, target, sem, i);
  }

  lemma AcquiresProbe(c: Config, s: State, t: nat, target: Target, sem: nat, i: nat) returns (n: State)
    requires Standing(s, t, target, sem, NeedProbe(sem, i)) && i < |c.names|
    requires forall name :: name in c.names ==> name in s.probeFree && s.probeFree[name] > 0
    ensures Step(c, s, TakeProbe(t)) == Some(n)
    ensures Standing(n, t, target, sem, Running(sem, i, 0)) && HoldsPermits(c, n, c.names[i])
    ensures n.shards == s.shards && n.trace == s.trace && n.output == s.output
  {
    n := Step(c, s, TakeProbe(t)).value;
  }

  lemma Retries(c: Config, s: State, t: nat, target: Target, sem: nat, i: nat, tries: nat, e: Execution) returns (n: State)
    requires Standing(s, t, target, sem, Running(sem, i, tries)) && i < |c.names| && HoldsPermits(c, s, c.names[i])
    requires tries < c.retries && Retryable(e)
    ensures Step(c, s, Return(t, e)) == Some(n)
    ensures Standing(n, t, target, sem, Running(sem, i, tries + 1)) && HoldsPermits(c, n, c.names[i])
    ensures n.shards == s.shards && n.output == s.output && n.trace == s.trace + [Ran(t, i, tries, KeyOf(c, target, i), e)]
  {
    n := Step(c, s, Return(t, e)).value;
  }

  lemma Settles(c: Config, s: State, t: nat, target: Target, sem: nat, i: nat, tries: nat, e: Execution) returns (n: State)
    requires Standing(s, t, target, sem, Running(sem, i, tries)) && i < |c.names| && HoldsPermits(c, s, c.names[i])
    requires !(tries < c.retries && Retryable(e))
    ensures Step(c, s, Return(t, e)) == Some(n)
    ensures Standing(n, t, target, sem, Reporting(sem, i, tries, e))
    ensures forall name :: name in c.names ==> name in n.probeFree && n.probeFree[name] > 0
    ensures n.shards == s.shards && n.output == s.output && n.trace == s.trace + [Ran(t, i, tries, KeyOf(c, target, i), e)]
  {
    n := Step(c, s, Return(t, e)).value;
  }

  lemma Reports(c: Config, s: State, t: nat, target: Target, sem: nat, i: nat, tries: nat, e: Execution) returns (n: State)
    requires Standing(s, t, target, sem, Reporting(sem, i, tries, e)) && i < |c.names|
    requires forall name :: name in c.names ==> name in s.probeFree && s.probeFree[name] > 0
    ensures Step(c, s, Report(t)) == Some(n)
    ensures Standing(n, t, target, sem, if e.confirmed then Finished(sem) else At(sem, i + 1)) && Free(c, n, sem)
    ensures n.shards == s.shards && n.trace == s.trace
    ensures n.output == if Wanted(c.mode, e) then s.output + [Ran(t, i, tries, KeyOf(c, target, i), e)] else s.output
  {
    n := Step(c, s, Report(t)).value;
  }

  /** What the network makes of the executions of one plan, in order. */
  class Network {
    var outcomes: seq<Execution>

    constructor (outcomes: seq<Execution>)
    {
      this.outcomes := outcomes;
    }

    method Execute() returns (e: Execution)
      modifies this
    {
      if outcomes == [] {
        return FailedExecution(Transport.ConnectTimeout, []);
      }
      e := outcomes[0];
      outcomes := outcomes[1..];
    }
  }

  /** The steps so far lead from the start to `now`, with these executions and reports. */
  ghost predicate Reached(c: Config, s: State, actions: seq<Action>, now: State, trace: seq<Ran>, output: seq<Ran>) {
    After(c, s, actions) == Some(now) && now.trace == s.trace + trace && now.output == s.output + output
  }

  lemma ReachedMore(c: Config, s: State, actions: seq<Action>, now: State, trace: seq<Ran>, output: seq<Ran>,
                    more: seq<Action>, n: State, ran: seq<Ran>, sent: seq<Ran>)
    requires Reached(c, s, actions, now, trace, output) && After(c, now, more) == Some(n)
    requires n.trace == now.trace + ran && n.output == now.output + sent
    ensures Reached(c, s, actions + more, n, trace + ran, output + sent)
  {
    hide After;
    AfterJoin(c, s, actions, more);
  }

  /** One probe with its retries, from its permits to its report. */
  method RunOne(c: Config, t: nat, target: Target, i: nat, network: Network, ghost s: State, ghost sem: nat)
      returns (e: Execution, trace: seq<Ran>, output: seq<Ran>, ghost actions: seq<Action>, ghost end: State)
    requires Standing(s, t, target, sem, NeedHost(sem, i)) && i < |c.names| && Free(c, s, sem)
    modifies network
    ensures Reached(c, s, actions, end, trace, output) && end.shards == s.shards
    ensures Standing(end, t, target, sem, if e.confirmed then Finished(sem) else At(sem, i + 1)) && Free(c, end, sem)
  {
    hide After, Step, Standing, Free, HoldsPermits, Retryable;
    var key := KeyOf(c, target, i);
    end := Acquires(c, s, t, target, sem, i);
    actions := [TakeHost(t)] + [TakeProbe(t)];
    e := network.Execute();
    var tries: nat := 0;
    trace, output := [], [];
    while tries < c.retries && !e.confirmed &&
          e.status in {"connect_timeout", "read_timeout", "connection_reset", "probe_error"}
      invariant tries <= c.retries
      invariant Reached(c, s, actions, end, trace, []) && end.shards == s.shards
      invariant Standing(end, t, target, sem, Running(sem, i, tries)) && HoldsPermits(c, end, c.names[i])
      decreases c.retries - tries
    {
      assert Retryable(e) by { TransientIs(e); }
      ghost var n := Retries(c, end, t, target, sem, i, tries, e);
      AfterOne(c, end, Return(t, e));
      assert n.output == end.output + [];
      ReachedMore(c, s, actions, end, trace, [], [Return(t, e)], n, [Ran(t, i, tries, key, e)], []);
      actions, end := actions + [Return(t, e)], n;
      trace := trace + [Ran(t, i, tries, key, e)];
      tries := tries + 1;
      e := network.Execute();
    }
    TransientIs(e);
    ghost var n := Settles(c, end, t, target, sem, i, tries, e);
    AfterOne(c, end, Return(t, e));
    assert n.output == end.output + [];
    ReachedMore(c, s, actions, end, trace, [], [Return(t, e)], n, [Ran(t, i, tries, key, e)], []);
    actions, end := actions + [Return(t, e)], n;
    trace := trace + [Ran(t, i, tries, key, e)];
    n := Reports(c, end, t, target, sem, i, tries, e);
    AfterOne(c, end, Report(t));
    if Wanted(c.mode, e) {
      output := [Ran(t, i, tries, key, e)];
    }
    assert n.trace == end.trace + [] && n.output == end.output + output && [] + output == output && trace + [] == trace;
    ReachedMore(c, s, actions, end, trace, [], [Report(t)], n, [], output);
    actions, end := actions + [Report(t)], n;
  }

  lemma TransientIs(e: Execution)
    ensures Retryable(e) <==>
            (!e.confirmed && e.status in {"connect_timeout", "read_timeout", "connection_reset", "probe_error"})
  {}

  /** `run_plan`: claims, executes and reports as some run of the transition system does. */
  method RunPlan(c: Config, t: nat, target: Target, seen: SeenProbes, network: Network, ghost s: State, ghost sem: nat)
      returns (trace: seq<Ran>, output: seq<Ran>, ghost actions: seq<Action>, ghost end: State)
    requires seen.Valid() && seen.hash == c.hash && seen.shards == s.shards
    requires Standing(s, t, target, sem, At(sem, 0)) && Free(c, s, sem)
    modifies seen, network
    ensures seen.Valid() && seen.shards == end.shards
    ensures Reached(c, s, actions, end, trace, output) && Standing(end, t, target, sem, Finished(sem))
  {
    hide After, Step, Standing, Free, Insert, Placed, Claimed;
    trace, output, actions, end := [], [], [], s;
    assert Reached(c, s, [], s, [], []) by { NowhereYet(c, s); }
    var i: nat := 0;
    var confirmed := false;
    while i < |c.names| && !confirmed
      invariant i <= |c.names| && seen.Valid() && seen.shards == end.shards
      invariant Reached(c, s, actions, end, trace, output) && Free(c, end, sem)
      invariant Standing(end, t, target, sem, if confirmed then Finished(sem) else At(sem, i))
      decreases |c.names| - i, !confirmed
    {
      var key := KeyOf(c, target, i);
      AfterOne(c, end, Consider(t));
      ghost var n;
      var first := false;
      if c.allows(i, target) {
        InShard(seen.hash, seen.shards, key);
        first := seen.Claim(key);
      }
      StandingShards(end, t, target, sem, At(sem, i));
      if !first {
        n := Skips(c, end, t, target, sem, i);
      } else {
        n := Claims(c, end, t, target, sem, i);
      }
      assert n.trace == end.trace + [] && n.output == end.output + [] && trace + [] == trace && output + [] == output;
      ReachedMore(c, s, actions, end, trace, output, [Consider(t)], n, [], []);
      actions, end := actions + [Consider(t)], n;
      if first {
        ghost var more;
        var e, ran, sent;
        e, ran, sent, more, n := RunOne(c, t, target, i, network, end, sem);
        ReachedMore(c, s, actions, end, trace, output, more, n, ran, sent);
        actions, end := actions + more, n;
        trace, output := trace + ran, output + sent;
        confirmed := e.confirmed;
      }
      i := i + 1;
    }
    if !confirmed {
      AfterOne(c, end, Consider(t));
      ghost var n := Ends(c, end, t, target, sem, i);
      assert n.trace == end.trace + [] && n.output == end.output + [] && trace + [] == trace && output + [] == output;
      ReachedMore(c, s, actions, end, trace, output, [Consider(t)], n, [], []);
      actions, end := actions + [Consider(t)], n;
    }
  }

  lemma NowhereYet(c: Config, s: State)
    ensures Reached(c, s, [], s, [], [])
  {}

  lemma StandingShards(s: State, t: nat, target: Target, sem: nat, pc: Pc)
    requires Standing(s, t, target, sem, pc)
    ensures |s.shards| == SHARDS
  {}

  lemma InShard(hash: Hash, shards: seq<set<Key>>, key: Key)
    requires Placed(hash, shards)
    ensures |shards| == SHARDS && (key in shards[ShardOf(hash, key)] <==> key in Claimed(shards))
    ensures key in shards[ShardOf(hash, key)] ==> Insert(hash, shards, key) == shards
  {
    ShardedClaim(hash, shards, key);
    var j := ShardOf(hash, key);
    if key in shards[j] {
      assert shards[j] + {key} == shards[j];
    }
  }
}
