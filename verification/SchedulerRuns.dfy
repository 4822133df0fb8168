/** Whole runs of the scheduler: safety in every interleaving, progress, termination, and the outcome. */
module SchedulerRuns {
  import opened Limits
  import opened Sessions
  import opened Scheduler
  import opened SchedulerSafety
  import opened SchedulerClaims
  import opened SchedulerPlans
  import Transport
  import Words

  ghost predicate Good(c: Config, s: State) {
    && Bounded(c, s) && Permits(c, s) && Shared(c, s)
    && Claims(c, s) && InOrder(c, s) && AllCovered(c, s) && Reports(c, s) && SentOnce(s)
  }

  lemma InitialGood(c: Config, input: seq<Target>)
    ensures Good(c, Initial(c, input))
  {
    var s := Initial(c, input);
    forall key
      ensures key !in Claimed(s.shards)
    {
      InClaimed(s.shards, key);
    }
  }

  lemma StepGood(c: Config, s: State, a: Action)
    requires Good(c, s) && Step(c, s, a).Some?
    ensures Good(c, Step(c, s, a).value)
  {
    StepBounded(c, s, a);
    StepPermits(c, s, a);
    StepShared(c, s, a);
    StepClaims(c, s, a);
    StepInOrder(c, s, a);
    StepCovered(c, s, a);
    StepReports(c, s, a);
    StepSentOnce(c, s, a);
    hide Step, Bounded, Permits, Shared, Claims, InOrder, AllCovered, Reports, SentOnce;
  }

  lemma {:induction false} RunGood(c: Config, s: State, actions: seq<Action>)
    requires Good(c, s) && After(c, s, actions).Some?
    ensures Good(c, After(c, s, actions).value)
    decreases |actions|
  {
    hide Good, Step;
    if actions != [] {
      StepGood(c, s, actions[0]);
      RunGood(c, Step(c, s, actions[0]).value, actions[1..]);
    }
  }

  /**
   * Safety in every interleaving: executions in progress stay within the host, probe and global
   * limits, all plans on one host share the semaphore of an entry that counts exactly them although
   * entries come and go, and no key is executed more than `retries + 1` times.
   */
  lemma AlwaysSafe(c: Config, input: seq<Target>, actions: seq<Action>, ip: Ip, name: string, key: Key)
    requires After(c, Initial(c, input), actions).Some?
    ensures var s := After(c, Initial(c, input), actions).value;
            && Count(c, Executing(ip), s.tasks) <= c.hostLimit
            && (name in c.names ==> Count(c, Probing(name), s.tasks) <= c.probeLimit)
            && Count(c, Busy, s.tasks) <= c.globalLimit
            && (ip in s.entries <==> Count(c, Planned(ip), s.tasks) > 0)
            && (ip in s.entries ==> s.entries[ip].users == Count(c, Planned(ip), s.tasks))
            && (forall t :: 0 <= t < |s.tasks| && Planning(s.tasks[t].pc) && s.tasks[t].target.ip == ip ==>
                  (ip in s.entries && s.tasks[t].pc.sem == s.entries[ip].semaphore))
            && Runs(s.trace, key) <= c.retries + 1
  {
    InitialGood(c, input);
    hide After;
    RunGood(c, Initial(c, input), actions);
    var s := After(c, Initial(c, input), actions).value;
    hide InOrder, AllCovered, Reports;
    ExecutionsWithinLimits(c, s, ip, name);
    CountPositive(c, Planned(ip), s.tasks);
    hide Count;
  }

  /** Of two executions by one plan the first was not confirmed, and the same probe runs again only after a transient failure. */
  lemma PlansStopWhenConfirmed(c: Config, input: seq<Target>, actions: seq<Action>, a: nat, b: nat)
    requires After(c, Initial(c, input), actions).Some?
    requires a < b < |After(c, Initial(c, input), actions).value.trace|
    ensures var s := After(c, Initial(c, input), actions).value;
            s.trace[a].task == s.trace[b].task ==>
              (!s.trace[a].result.confirmed && s.trace[a].probe <= s.trace[b].probe &&
               (s.trace[a].probe == s.trace[b].probe ==> Retryable(s.trace[a].result)))
  {
    InitialGood(c, input);
    RunGood(c, Initial(c, input), actions);
    var s := After(c, Initial(c, input), actions).value;
    hide After, Claims, AllCovered, Reports, Permits, Shared, Bounded;
    assert Successive(s.trace[a], s.trace[b]);
  }

  // ----- progress

  predicate Positive(c: Config) {
    c.globalLimit > 0 && c.hostLimit > 0 && c.probeLimit > 0
  }

  ghost predicate CanStep(c: Config, s: State) {
    exists a: Action :: !a.Interrupt? && Step(c, s, a).Some?
  }

  /** The step of a plan that waits for no permit. */
  lemma UnblockedCanStep(c: Config, s: State, t: nat)
    requires Bounded(c, s) && Permits(c, s) && t < |s.tasks|
    requires var pc := s.tasks[t].pc; !pc.NeedHost? && !pc.NeedProbe? && !pc.Done?
    ensures CanStep(c, s)
  {
    var pc := s.tasks[t].pc;
    var a :=
      if pc.Starting? then Enlist(t)
      else if pc.At? then Consider(t)
      else if pc.Running? then Return(t, FailedExecution(Transport.ProbeError, []))
      else if pc.Reporting? then Report(t)
      else if pc.Finished? then Retire(t)
      else Quit(t);
    assert Step(c, s, a).Some?;
  }

  predicate Blocked(pc: Pc) {
    pc.NeedHost? || pc.NeedProbe? || pc.Done?
  }

  lemma ProbeWaiterCanStep(c: Config, s: State, t: nat)
    requires Bounded(c, s) && Permits(c, s) && Positive(c) && t < |s.tasks| && s.tasks[t].pc.NeedProbe?
    requires forall u :: 0 <= u < |s.tasks| ==> Blocked(s.tasks[u].pc)
    ensures CanStep(c, s)
  {
    CountPositive(c, Probing(c.names[s.tasks[t].pc.index]), s.tasks);
    hide Count;
    assert Step(c, s, TakeProbe(t)).Some?;
  }

  lemma HostWaiterCanStep(c: Config, s: State, t: nat)
    requires Bounded(c, s) && Permits(c, s) && Positive(c) && t < |s.tasks| && s.tasks[t].pc.NeedHost?
    requires forall u :: 0 <= u < |s.tasks| ==> s.tasks[u].pc.NeedHost? || s.tasks[u].pc.Done?
    ensures CanStep(c, s)
  {
    CountPositive(c, Holding(s.tasks[t].pc.sem), s.tasks);
    hide Count;
    assert Step(c, s, TakeHost(t)).Some?;
  }

  lemma DispatcherCanStep(c: Config, s: State)
    requires Permits(c, s) && Positive(c) && (s.input != [] || s.waiting.Some?)
    requires forall u :: 0 <= u < |s.tasks| ==> s.tasks[u].pc.Done?
    ensures CanStep(c, s)
  {
    CountPositive(c, Admitted, s.tasks);
    hide Count;
    assert Step(c, s, if s.waiting.Some? then Spawn else Receive).Some?;
  }

  lemma GoodCanStep(c: Config, s: State)
    requires Good(c, s) && Positive(c) && !Final(s)
    ensures CanStep(c, s)
  {
    hide Step, Bounded, Permits, Shared, Claims, InOrder, AllCovered, Reports, CanStep;
    if t :| 0 <= t < |s.tasks| && !Blocked(s.tasks[t].pc) {
      UnblockedCanStep(c, s, t);
    } else if t :| 0 <= t < |s.tasks| && s.tasks[t].pc.NeedProbe? {
      ProbeWaiterCanStep(c, s, t);
    } else if t :| 0 <= t < |s.tasks| && s.tasks[t].pc.NeedHost? {
      HostWaiterCanStep(c, s, t);
    } else {
      DispatcherCanStep(c, s);
    }
  }

  /** No deadlock: with positive limits, every reachable state with work left has a step that does it. */
  lemma NeverStuck(c: Config, input: seq<Target>, actions: seq<Action>)
    requires Positive(c) && After(c, Initial(c, input), actions).Some?
    ensures Final(After(c, Initial(c, input), actions).value) || CanStep(c, After(c, Initial(c, input), actions).value)
  {
    hide After, CanStep, Final, Good;
    InitialGood(c, input);
    RunGood(c, Initial(c, input), actions);
    var s := After(c, Initial(c, input), actions).value;
    if !Final(s) {
      GoodCanStep(c, s);
    }
  }

  // ----- termination

  /** The most steps a plan can take from probe `index` on. */
  function Left(c: Config, index: nat): nat
    decreases |c.names| - index
  {
    if index >= |c.names| then 0 else c.retries + 5 + Left(c, index + 1)
  }

  function Weight(c: Config, pc: Pc): nat {
    match pc
    case Starting => Left(c, 0) + 4
    case At(_, index) => Left(c, index) + 3
    case NeedHost(_, index) => Left(c, index + 1) + c.retries + 7
    case NeedProbe(_, index) => Left(c, index + 1) + c.retries + 6
    case Running(_, index, tries) => Left(c, index + 1) + 5 + if tries <= c.retries then c.retries - tries else 0
    case Reporting(_, index, _, _) => Left(c, index + 1) + 4
    case Finished(_) => 2
    case Freeing => 1
    case Done => 0
  }

  function Weights(c: Config, tasks: seq<Task>): nat {
    if tasks == [] then 0 else Weight(c, tasks[0].pc) + Weights(c, tasks[1..])
  }

  function Work(c: Config, s: State): nat {
    |s.input| * (Left(c, 0) + 6) + (if s.waiting.Some? then Left(c, 0) + 5 else 0) +
    Weights(c, s.tasks) + if s.interrupted then 0 else 1
  }

  lemma {:induction false} WeightsUpdate(c: Config, tasks: seq<Task>, i: nat, t: Task)
    requires i < |tasks|
    ensures Weights(c, tasks[i := t]) + Weight(c, tasks[i].pc) == Weights(c, tasks) + Weight(c, t.pc)
  {
    hide Weight;
    if i == 0 {
      assert tasks[i := t][1..] == tasks[1..];
    } else {
      WeightsUpdate(c, tasks[1..], i - 1, t);
      assert tasks[i := t][1..] == tasks[1..][i - 1 := t];
    }
  }

  lemma {:induction false} WeightsAppend(c: Config, tasks: seq<Task>, t: Task)
    ensures Weights(c, tasks + [t]) == Weights(c, tasks) + Weight(c, t.pc)
  {
    hide Weight;
    if tasks == [] {
      assert [] + [t] == [t] && [t][1..] == [];
    } else {
      WeightsAppend(c, tasks[1..], t);
      assert (tasks + [t])[1..] == tasks[1..] + [t];
    }
  }

  lemma AdvancesLighten(c: Config, was: Pc, now: Pc)
    requires Advances(c, was, now) && (was.Running? ==> was.tries <= c.retries)
    ensures Weight(c, now) < Weight(c, was)
  {
    if was.At? && was.index < |c.names| {
      assert Left(c, was.index) == c.retries + 5 + Left(c, was.index + 1);
    }
  }

  lemma StepLightens(c: Config, s: State, a: Action)
    requires Step(c, s, a).Some? && OfTask(a) && InBounds(c, s, s.tasks[a.task].pc)
    ensures Weight(c, Step(c, s, a).value.tasks[a.task].pc) < Weight(c, s.tasks[a.task].pc)
  {
    hide Step, Weight, Advances;
    StepAdvances(c, s, a);
    AdvancesLighten(c, s.tasks[a.task].pc, Step(c, s, a).value.tasks[a.task].pc);
  }

  lemma StepWorks(c: Config, s: State, a: Action)
    requires Bounded(c, s) && Step(c, s, a).Some?
    ensures Work(c, Step(c, s, a).value) < Work(c, s)
  {
    var n := Step(c, s, a).value;
    if OfTask(a) {
      StepMoves(c, s, a);
      StepLightens(c, s, a);
      hide Step, Weight, Left;
      WeightsUpdate(c, s.tasks, a.task, n.tasks[a.task]);
    } else if a.Spawn? {
      WeightsAppend(c, s.tasks, n.tasks[|s.tasks|]);
    } else if a.Receive? {
      var each := Left(c, 0) + 6;
      assert |s.input| * each == (|s.input| - 1) * each + each;
    }
  }

  lemma {:induction false} RunWorks(c: Config, s: State, actions: seq<Action>)
    requires Good(c, s) && After(c, s, actions).Some?
    ensures |actions| + Work(c, After(c, s, actions).value) <= Work(c, s)
    decreases |actions|
  {
    if actions != [] {
      StepGood(c, s, actions[0]);
      StepWorks(c, s, actions[0]);
      hide Good, Step, Work;
      RunWorks(c, Step(c, s, actions[0]).value, actions[1..]);
    }
  }

  /** Every run is finite: its length is bounded by the work its input stands for. */
  lemma RunsEnd(c: Config, input: seq<Target>, actions: seq<Action>)
    requires After(c, Initial(c, input), actions).Some?
    ensures |actions| <= |input| * (Left(c, 0) + 6) + 1
  {
    InitialGood(c, input);
    RunWorks(c, Initial(c, input), actions);
    hide After, Left, Good;
  }

  // ----- the outcome

  function Targets(tasks: seq<Task>): seq<Target> {
    seq(|tasks|, i requires 0 <= i < |tasks| => tasks[i].target)
  }

  function InHand(s: State): seq<Target> {
    Targets(s.tasks) + (if s.waiting.Some? then [s.waiting.value] else []) + s.input
  }

  lemma StepKeepsTargets(c: Config, s: State, a: Action)
    requires Step(c, s, a).Some? && !Step(c, s, a).value.interrupted
    ensures InHand(Step(c, s, a).value) == InHand(s) && !s.interrupted
  {
    var n := Step(c, s, a).value;
    if OfTask(a) {
      StepMoves(c, s, a);
      hide Step;
      assert Targets(n.tasks) == Targets(s.tasks);
    } else if a.Receive? {
      assert s.input == [s.input[0]] + s.input[1..];
    } else if a.Spawn? {
      assert Targets(n.tasks) == Targets(s.tasks) + [s.waiting.value];
    }
  }

  lemma {:induction false} RunKeepsTargets(c: Config, s: State, actions: seq<Action>)
    requires After(c, s, actions).Some? && !After(c, s, actions).value.interrupted
    ensures InHand(After(c, s, actions).value) == InHand(s) && !s.interrupted
    decreases |actions|
  {
    hide Step, InHand;
    if actions != [] {
      RunKeepsTargets(c, Step(c, s, actions[0]).value, actions[1..]);
      StepKeepsTargets(c, s, actions[0]);
    }
  }

  /** Each target received before an interrupt, none dropped and none invented, has its own plan. */
  lemma EveryTargetPlanned(c: Config, input: seq<Target>, actions: seq<Action>)
    requires After(c, Initial(c, input), actions).Some?
    requires var s := After(c, Initial(c, input), actions).value; Final(s) && !s.interrupted
    ensures Targets(After(c, Initial(c, input), actions).value.tasks) == input
  {
    RunKeepsTargets(c, Initial(c, input), actions);
    hide After;
    var s := After(c, Initial(c, input), actions).value;
    assert InHand(s) == Targets(s.tasks);
  }

  /**
   * In the modes that report open ports, every target received so far was reported once, in order and
   * also after an interrupt; in the other modes none was.
   */
  lemma OpenPortsReported(c: Config, input: seq<Target>, actions: seq<Action>)
    requires After(c, Initial(c, input), actions).Some?
    ensures var s := After(c, Initial(c, input), actions).value;
            exists received :: input == received + s.input && s.announced == if ReportsOpen(c.mode) then received else []
  {
    var received := RunReceives(c, Initial(c, input), actions);
    hide After;
    assert [] + received == received;
  }

  /** Between two states these targets were received. */
  ghost predicate Received(c: Config, s: State, n: State, received: seq<Target>) {
    s.input == received + n.input && n.announced == s.announced + if ReportsOpen(c.mode) then received else []
  }

  lemma ReceivedOn(c: Config, s: State, n: State, last: State, first: seq<Target>, rest: seq<Target>)
    requires Received(c, s, n, first) && Received(c, n, last, rest)
    ensures Received(c, s, last, first + rest)
  {
    assert first + (rest + last.input) == first + rest + last.input;
    assert s.announced + (first + rest) == s.announced + first + rest;
  }

  lemma {:induction false} RunReceives(c: Config, s: State, actions: seq<Action>) returns (received: seq<Target>)
    requires After(c, s, actions).Some?
    ensures Received(c, s, After(c, s, actions).value, received)
    decreases |actions|
  {
    hide Step;
    if actions == [] {
      received := [];
    } else {
      hide Received;
      var n := Step(c, s, actions[0]).value;
      var first := StepReceives(c, s, actions[0]);
      var rest := RunReceives(c, n, actions[1..]);
      received := first + rest;
      ReceivedOn(c, s, n, After(c, s, actions).value, first, rest);
    }
  }

  lemma StepReceives(c: Config, s: State, a: Action) returns (received: seq<Target>)
    requires Step(c, s, a).Some?
    ensures Received(c, s, Step(c, s, a).value, received)
  {
    if OfTask(a) {
      StepMoves(c, s, a);
      received := [];
    } else {
      received := if a.Receive? then s.input[..1] else [];
    }
  }

  /** What a scan has done by its end for one plan and one probe of it. */
  ghost predicate Served(c: Config, s: State, t: nat, probe: nat)
    requires t < |s.tasks| && probe < |c.names|
  {
    || 1 <= Runs(s.trace, KeyOf(c, s.tasks[t].target, probe)) <= c.retries + 1
    || (exists r :: r in s.trace && r.task == t && r.result.confirmed && r.probe < probe)
  }

  /** No further try is due: the tries are used up, or the result is not one of a transient failure. */
  predicate FinalTry(c: Config, r: Ran) {
    || r.tries >= c.retries || r.result.confirmed
    || (r.result.status != "connect_timeout" && r.result.status != "read_timeout" &&
        r.result.status != "connection_reset" && r.result.status != "probe_error")
  }

  /** What each mode reports of a probe. */
  predicate Reportable(mode: OutputMode, e: Execution) {
    && (mode == ModeOpen ==> false)
    && (mode == ModeResponsive ==> e.responsive)
    && (mode == ModeDetected ==> e.confirmed || e.probable)
    && (mode == ModeMatched ==> e.confirmed)
  }

  /** An execution that fails is tried again exactly for these failures, whatever it had sent. */
  lemma FailuresRetried(f: Transport.Failure, sent: seq<Words.Bytes>)
    ensures Retryable(FailedExecution(f, sent)) <==>
            f == Transport.ConnectTimeout || f == Transport.ReadTimeout || f == Transport.ConnectionReset ||
            f == Transport.ProbeError
  {
    assert |"connection_refused"| == 18 && |"connect_timeout"| == 15 && |"read_timeout"| == 12 && |"connection_reset"| == 16;
    assert |"tls_error"| == 9 && |"invalid_response"| == 16 && |"probe_error"| == 11 && |"internal_error"| == 14;
    assert "connection_reset"[0] == 'c' && "invalid_response"[0] == 'i';
  }

  /**
   * At the end of every run all permits are free and no host is remembered; each probe a plan's
   * scope allows was executed, unless the plan had a confirmed result before it; and the reports are
   * exactly the wanted ones among the settled executions, each sent once and those of a plan in the
   * order of its probes.
   */
  lemma ScanOutcome(c: Config, input: seq<Target>, actions: seq<Action>)
    requires After(c, Initial(c, input), actions).Some? && Final(After(c, Initial(c, input), actions).value)
    ensures var s := After(c, Initial(c, input), actions).value;
            && s.entries == map[] && s.global == c.globalLimit
            && (forall sem :: 0 <= sem < |s.sems| ==> s.sems[sem] == c.hostLimit)
            && (forall name :: name in c.names ==> name in s.probeFree && s.probeFree[name] == c.probeLimit)
            && (forall t, probe :: 0 <= t < |s.tasks| && 0 <= probe < |c.names| && c.allows(probe, s.tasks[t].target) ==>
                  Served(c, s, t, probe))
            && (forall r :: r in s.output <==> (r in s.trace && Settled(c, r) && Wanted(c.mode, r.result)))
            && (forall i, j :: 0 <= i < j < |s.output| ==> s.output[i] != s.output[j])
            && Ascending(s.output)
            && (forall r :: r in s.output <==> (r in s.trace && FinalTry(c, r) && Reportable(c.mode, r.result)))
  {
    hide After;
    InitialGood(c, input);
    RunGood(c, Initial(c, input), actions);
    var s := After(c, Initial(c, input), actions).value;
    hide Good;
    FinalPermits(c, s);
    FinalReports(c, s);
    FinalSentOnce(c, s);
    ReportsSpelledOut(c);
    hide Served, Ascending, FinalTry, Reportable, Settled, Wanted;
    forall t, probe | 0 <= t < |s.tasks| && 0 <= probe < |c.names| && c.allows(probe, s.tasks[t].target)
      ensures Served(c, s, t, probe)
    {
      FinalServed(c, s, t, probe);
    }
  }

  lemma FinalPermits(c: Config, s: State)
    requires Good(c, s) && Final(s)
    ensures s.entries == map[] && s.global == c.globalLimit
    ensures forall sem :: 0 <= sem < |s.sems| ==> s.sems[sem] == c.hostLimit
    ensures forall name :: name in c.names ==> name in s.probeFree && s.probeFree[name] == c.probeLimit
  {
    hide Claims, InOrder, AllCovered, Reports, Bounded;
    forall g
      ensures Count(c, g, s.tasks) == 0
    {
      CountPositive(c, g, s.tasks);
      forall i | 0 <= i < |s.tasks|
        ensures !In(c, g, s.tasks[i])
      {
        assert s.tasks[i] in s.tasks;
      }
    }
  }

  lemma ReportsSpelledOut(c: Config)
    ensures forall r: Ran :: Settled(c, r) <==> FinalTry(c, r)
    ensures forall e: Execution :: Wanted(c.mode, e) <==> Reportable(c.mode, e)
  {}

  lemma FinalSentOnce(c: Config, s: State)
    requires Good(c, s)
    ensures Ascending(s.output) && forall i, j :: 0 <= i < j < |s.output| ==> s.output[i] != s.output[j]
  {
    hide Claims, InOrder, AllCovered, Reports, Bounded, Permits, Shared;
  }

  lemma FinalReports(c: Config, s: State)
    requires Good(c, s) && Final(s)
    ensures forall r :: r in s.output <==> (r in s.trace && Settled(c, r) && Wanted(c.mode, r.result))
  {
    hide Claims, InOrder, AllCovered, Bounded, Permits, Shared, Settled, Wanted;
    forall r | r in s.trace && r.task < |s.tasks|
      ensures !Pending(s.tasks[r.task].pc, r)
    {
      assert s.tasks[r.task] in s.tasks;
    }
  }

  lemma FinalServed(c: Config, s: State, t: nat, probe: nat)
    requires Good(c, s) && Final(s) && t < |s.tasks| && probe < |c.names| && c.allows(probe, s.tasks[t].target)
    ensures Served(c, s, t, probe)
  {
    hide InOrder, Reports, Bounded, Permits, Shared, Claimed, Runs;
    var key := KeyOf(c, s.tasks[t].target, probe);
    assert s.tasks[t] in s.tasks && Covered(c, s, t);
    if key in Claimed(s.shards) {
      assert !Owned(c, s.tasks, key) by {
        forall u | 0 <= u < |s.tasks|
          ensures !Owns(c, s.tasks[u], key)
        {
          assert s.tasks[u] in s.tasks;
        }
      }
    } else {
      var r :| r in s.trace && r.task == t && r.result.confirmed && HandledTo(c, s, s.tasks[t].target, r.probe + 1);
      assert r.probe < probe;
    }
  }
}
