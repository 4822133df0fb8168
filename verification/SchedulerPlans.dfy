/** The order of executions within a plan, what a plan leaves undone, and what is reported. */
module SchedulerPlans {
  import opened Limits
  import opened Scheduler
  import opened SchedulerSafety
  import opened SchedulerClaims

  // ----- order

  /** How an earlier execution of a plan can lie behind the place the plan is at. */
  predicate Behind(pc: Pc, r: Ran) {
    match pc
    case Starting => false
    case At(_, index) => r.probe < index && !r.result.confirmed
    case NeedHost(_, index) => r.probe < index && !r.result.confirmed
    case NeedProbe(_, index) => r.probe < index && !r.result.confirmed
    case Running(_, index, tries) =>
      !r.result.confirmed && (r.probe < index || (r.probe == index && r.tries < tries && Retryable(r.result)))
    case Reporting(_, index, tries, result) =>
      if r.result.confirmed then r.probe == index && r.tries == tries && r.result == result
      else r.probe < index || (r.probe == index && r.tries <= tries && (r.tries < tries ==> Retryable(r.result)))
    case _ => true
  }

  /** Of two executions of one plan, the later is of a later probe, or repeats one that may be retried. */
  predicate Successive(first: Ran, second: Ran) {
    first.task == second.task ==>
      (!first.result.confirmed &&
       (first.probe < second.probe ||
        (first.probe == second.probe && first.tries < second.tries && Retryable(first.result))))
  }

  /** An execution of a plan's own probe, which the plan has left behind. */
  predicate Placed(c: Config, tasks: seq<Task>, r: Ran) {
    && r.task < |tasks| && r.probe < |c.names| && r.tries <= c.retries
    && r.key == KeyOf(c, tasks[r.task].target, r.probe)
    && Behind(tasks[r.task].pc, r)
  }

  ghost predicate AllSuccessive(trace: seq<Ran>) {
    forall a, b :: 0 <= a < b < |trace| ==> Successive(trace[a], trace[b])
  }

  ghost predicate InOrder(c: Config, s: State) {
    && (forall a :: 0 <= a < |s.trace| ==> Placed(c, s.tasks, s.trace[a]))
    && AllSuccessive(s.trace)
  }

  lemma StepBehind(c: Config, s: State, a: Action, r: Ran)
    requires Step(c, s, a).Some? && OfTask(a) && InBounds(c, s, s.tasks[a.task].pc)
    requires Behind(s.tasks[a.task].pc, r)
    ensures Behind(Step(c, s, a).value.tasks[a.task].pc, r)
    ensures a.Return? && r.task == a.task ==> Successive(r, ChangeOf(c, s, a).ran)
  {
    StepMoves(c, s, a);
  }

  lemma RecordedBehind(c: Config, s: State, a: Action)
    requires Step(c, s, a).Some? && a.Return? && InBounds(c, s, s.tasks[a.task].pc)
    ensures ChangeOf(c, s, a).Recording?
    ensures Behind(Step(c, s, a).value.tasks[a.task].pc, ChangeOf(c, s, a).ran)
    ensures ChangeOf(c, s, a).ran.tries <= c.retries && ChangeOf(c, s, a).ran.probe < |c.names|
    ensures ChangeOf(c, s, a).ran.key == KeyOf(c, s.tasks[a.task].target, ChangeOf(c, s, a).ran.probe)
    ensures ChangeOf(c, s, a).ran.task == a.task
  {}

  lemma ChangesTrace(c: Config, s: State, a: Action)
    requires Step(c, s, a).Some? && OfTask(a)
    ensures Step(c, s, a).value.trace == if a.Return? then s.trace + [ChangeOf(c, s, a).ran] else s.trace
  {}

  lemma StepKeepsPlaced(c: Config, s: State, a: Action, r: Ran)
    requires Bounded(c, s) && Step(c, s, a).Some? && OfTask(a) && Placed(c, s.tasks, r)
    ensures Placed(c, Step(c, s, a).value.tasks, r)
    ensures a.Return? ==> Successive(r, ChangeOf(c, s, a).ran)
  {
    hide Behind, Successive;
    StepMoves(c, s, a);
    if a.Return? {
      RecordedBehind(c, s, a);
    }
    hide Step;
    if r.task == a.task {
      StepBehind(c, s, a, r);
    } else if a.Return? {
      OthersSuccessive(r, ChangeOf(c, s, a).ran);
    }
  }

  lemma RecordedPlaced(c: Config, s: State, a: Action)
    requires Bounded(c, s) && Step(c, s, a).Some? && a.Return?
    ensures Placed(c, Step(c, s, a).value.tasks, ChangeOf(c, s, a).ran)
  {
    hide Behind;
    StepMoves(c, s, a);
    TaskInBounds(c, s, a.task);
    hide Bounded;
    RecordedBehind(c, s, a);
    hide Step;
  }

  lemma OthersSuccessive(first: Ran, second: Ran)
    requires first.task != second.task
    ensures Successive(first, second)
  {}

  lemma SuccessiveMore(trace: seq<Ran>, r: Ran)
    requires AllSuccessive(trace) && forall i :: 0 <= i < |trace| ==> Successive(trace[i], r)
    ensures AllSuccessive(trace + [r])
  {
    hide Successive;
  }

  lemma StepInOrder(c: Config, s: State, a: Action)
    requires Bounded(c, s) && InOrder(c, s) && Step(c, s, a).Some?
    ensures InOrder(c, Step(c, s, a).value)
  {
    if OfTask(a) {
      hide Placed, AllSuccessive, Successive, Bounded;
      ChangesTrace(c, s, a);
      hide Step;
      forall i | 0 <= i < |s.trace|
        ensures Placed(c, Step(c, s, a).value.tasks, s.trace[i])
        ensures a.Return? ==> Successive(s.trace[i], ChangeOf(c, s, a).ran)
      {
        StepKeepsPlaced(c, s, a, s.trace[i]);
      }
      if a.Return? {
        RecordedPlaced(c, s, a);
        SuccessiveMore(s.trace, ChangeOf(c, s, a).ran);
      }
    } else {
      SpawnKeepsPlaced(c, s, a);
    }
  }

  lemma SpawnKeepsPlaced(c: Config, s: State, a: Action)
    requires InOrder(c, s) && Step(c, s, a).Some? && !OfTask(a)
    ensures InOrder(c, Step(c, s, a).value)
  {
    hide Behind, Successive;
  }

  lemma TaskInBounds(c: Config, s: State, t: nat)
    requires Bounded(c, s) && t < |s.tasks|
    ensures InBounds(c, s, s.tasks[t].pc)
  {}

  // ----- coverage

  /** Every probe before `index` that the scope allows has been claimed, by this plan or another. */
  ghost predicate HandledTo(c: Config, s: State, target: Target, index: nat) {
    forall j :: 0 <= j < index && j < |c.names| && c.allows(j, target) ==> KeyOf(c, target, j) in Claimed(s.shards)
  }

  /** The plan on its way: `index` probes are handled, and the last was just executed with `result`. */
  ghost predicate Covered(c: Config, s: State, t: nat)
    requires t < |s.tasks|
  {
    var target := s.tasks[t].target;
    match s.tasks[t].pc
    case Starting => true
    case At(_, index) => HandledTo(c, s, target, index)
    case NeedHost(_, index) => HandledTo(c, s, target, index + 1)
    case NeedProbe(_, index) => HandledTo(c, s, target, index + 1)
    case Running(_, index, _) => HandledTo(c, s, target, index + 1)
    case Reporting(_, index, tries, result) =>
      HandledTo(c, s, target, index + 1) && index < |c.names| &&
      Ran(t, index, tries, KeyOf(c, target, index), result) in s.trace
    case _ => Concluded(c, s, t)
  }

  /** All probes are handled, or all up to one that the plan saw confirmed. */
  ghost predicate Concluded(c: Config, s: State, t: nat)
    requires t < |s.tasks|
  {
    HandledTo(c, s, s.tasks[t].target, |c.names|) || ConfirmedAtEnd(c, s, t)
  }

  ghost predicate ConfirmedAtEnd(c: Config, s: State, t: nat)
    requires t < |s.tasks|
  {
    exists r :: r in s.trace && r.task == t && r.result.confirmed && HandledTo(c, s, s.tasks[t].target, r.probe + 1)
  }

  /** Nothing claimed or recorded is ever lost. */
  ghost predicate Later(s: State, n: State) {
    && |s.tasks| <= |n.tasks|
    && (forall t :: 0 <= t < |s.tasks| ==> n.tasks[t].target == s.tasks[t].target)
    && (forall r :: r in s.trace ==> r in n.trace)
    && Claimed(s.shards) <= Claimed(n.shards)
  }

  lemma StepLater(c: Config, s: State, a: Action)
    requires Bounded(c, s) && Claims(c, s) && Step(c, s, a).Some?
    ensures Later(s, Step(c, s, a).value)
  {
    if OfTask(a) {
      StepMoves(c, s, a);
      StepChanges(c, s, a);
      if ChangeOf(c, s, a).Claiming? {
        ShardedClaim(c.hash, s.shards, ChangeOf(c, s, a).key);
      }
      hide Step, Claimed;
    }
  }

  lemma CoveredStays(c: Config, s: State, n: State, t: nat)
    requires t < |s.tasks| && Later(s, n) && Covered(c, s, t) && n.tasks[t].pc == s.tasks[t].pc
    ensures Covered(c, n, t)
  {
    hide Claimed;
    if ConfirmedAtEnd(c, s, t) {
      var r :| r in s.trace && r.task == t && r.result.confirmed && HandledTo(c, s, s.tasks[t].target, r.probe + 1);
      assert r in n.trace && HandledTo(c, n, n.tasks[t].target, r.probe + 1);
    }
  }

  lemma ConsiderCovers(c: Config, s: State, a: Action)
    requires Bounded(c, s) && Claims(c, s) && Step(c, s, a).Some? && a.Consider? && Covered(c, s, a.task)
    ensures Covered(c, Step(c, s, a).value, a.task)
  {
    var n := Step(c, s, a).value;
    var pc, target := s.tasks[a.task].pc, s.tasks[a.task].target;
    if pc.index < |c.names| && c.allows(pc.index, target) {
      ShardedClaim(c.hash, s.shards, KeyOf(c, target, pc.index));
    }
    hide Claimed, Insert;
  }

  lemma OthersCover(c: Config, s: State, a: Action)
    requires Bounded(c, s) && Step(c, s, a).Some? && OfTask(a) && !a.Consider? && Covered(c, s, a.task)
    ensures Covered(c, Step(c, s, a).value, a.task)
  {
    hide Claimed;
    StepMoves(c, s, a);
    var n := Step(c, s, a).value;
    assert n.shards == s.shards;
    if a.Report? {
      var pc := s.tasks[a.task].pc;
      var r := Ran(a.task, pc.index, pc.tries, KeyOf(c, s.tasks[a.task].target, pc.index), pc.result);
      assert r in n.trace;
    } else if a.Return? {
      ChangesTrace(c, s, a);
      assert n.trace[|s.trace|] in n.trace;
    } else if ConfirmedAtEnd(c, s, a.task) {
      assert n.trace == s.trace;
    }
  }

  ghost predicate AllCovered(c: Config, s: State) {
    forall t :: 0 <= t < |s.tasks| ==> Covered(c, s, t)
  }

  lemma StepCovered(c: Config, s: State, a: Action)
    requires Bounded(c, s) && Claims(c, s) && AllCovered(c, s) && Step(c, s, a).Some?
    ensures AllCovered(c, Step(c, s, a).value)
  {
    hide Covered, Claims, Later;
    var n := Step(c, s, a).value;
    StepLater(c, s, a);
    if OfTask(a) {
      StepMoves(c, s, a);
      if a.Consider? {
        ConsiderCovers(c, s, a);
      } else {
        OthersCover(c, s, a);
      }
    }
    forall t | 0 <= t < |n.tasks|
      ensures Covered(c, n, t)
    {
      if t == |s.tasks| {
        NewCovered(c, n, t);
      } else if !OfTask(a) || t != a.task {
        CoveredStays(c, s, n, t);
      }
    }
  }

  lemma NewCovered(c: Config, s: State, t: nat)
    requires t < |s.tasks| && s.tasks[t].pc.Starting?
    ensures Covered(c, s, t)
  {}

  // ----- reports

  /** The last execution of a probe in a plan: confirmed, not worth a retry, or out of retries. */
  predicate Settled(c: Config, r: Ran) {
    !(r.tries < c.retries && Retryable(r.result))
  }

  predicate Pending(pc: Pc, r: Ran) {
    pc.Reporting? && pc.index == r.probe && pc.tries == r.tries && pc.result == r.result
  }

  /** The reports are the wanted ones among the settled executions, less those about to be sent. */
  ghost predicate Reports(c: Config, s: State) {
    && (forall r :: r in s.output ==> r in s.trace && Settled(c, r) && Wanted(c.mode, r.result))
    && (forall r :: r in s.trace && Settled(c, r) && Wanted(c.mode, r.result) ==>
          (r in s.output || (r.task < |s.tasks| && Pending(s.tasks[r.task].pc, r))))
    && (forall t :: 0 <= t < |s.tasks| && s.tasks[t].pc.Reporting? && s.tasks[t].pc.index < |c.names| ==>
          Settled(c, Reported(c, s, t)))
  }

  /** The execution a plan is about to report. */
  function Reported(c: Config, s: State, t: nat): Ran
    requires t < |s.tasks| && s.tasks[t].pc.Reporting? && s.tasks[t].pc.index < |c.names|
  {
    var pc := s.tasks[t].pc;
    Ran(t, pc.index, pc.tries, KeyOf(c, s.tasks[t].target, pc.index), pc.result)
  }

  lemma ReturnReports(c: Config, s: State, a: Action)
    requires Bounded(c, s) && Reports(c, s) && Step(c, s, a).Some? && a.Return?
    ensures Reports(c, Step(c, s, a).value)
  {
    StepMoves(c, s, a);
    ChangesTrace(c, s, a);
    hide Retryable;
  }

  lemma ReportReports(c: Config, s: State, a: Action)
    requires Bounded(c, s) && InOrder(c, s) && AllCovered(c, s) && Reports(c, s) && Step(c, s, a).Some? && a.Report?
    ensures Reports(c, Step(c, s, a).value)
  {
    StepMoves(c, s, a);
    hide Retryable, HandledTo, Claimed;
    var n := Step(c, s, a).value;
    var sent := Reported(c, s, a.task);
    assert Covered(c, s, a.task);
    assert forall r :: r in s.trace && r.task == a.task && Pending(s.tasks[a.task].pc, r) ==> r == sent;
  }

  lemma OtherReports(c: Config, s: State, a: Action)
    requires Bounded(c, s) && Reports(c, s) && Step(c, s, a).Some? && OfTask(a) && !a.Return? && !a.Report?
    ensures Reports(c, Step(c, s, a).value)
  {
    StepMoves(c, s, a);
    NothingReported(c, s, a);
    hide Retryable, Step;
  }

  lemma NothingReported(c: Config, s: State, a: Action)
    requires Step(c, s, a).Some? && OfTask(a) && !a.Return? && !a.Report?
    ensures var n := Step(c, s, a).value;
            n.trace == s.trace && n.output == s.output && a.task < |s.tasks| == |n.tasks| &&
            !s.tasks[a.task].pc.Reporting? && !n.tasks[a.task].pc.Reporting?
  {
    hide Retryable;
  }

  lemma StepReports(c: Config, s: State, a: Action)
    requires Bounded(c, s) && InOrder(c, s) && AllCovered(c, s) && Reports(c, s) && Step(c, s, a).Some?
    ensures Reports(c, Step(c, s, a).value)
  {
    if a.Return? {
      ReturnReports(c, s, a);
    } else if a.Report? {
      ReportReports(c, s, a);
    } else if OfTask(a) {
      OtherReports(c, s, a);
    } else {
      hide Retryable;
    }
  }

  // ----- one report a probe

  /** Where a step can take a plan. */
  predicate Advances(c: Config, was: Pc, now: Pc) {
    match was
    case Starting => now.At? && now.index == 0
    case At(_, index) =>
      if index >= |c.names| then now.Finished?
      else (now.At? && now.index == index + 1) || (now.NeedHost? && now.index == index)
    case NeedHost(_, index) => now.NeedProbe? && now.index == index
    case NeedProbe(_, index) => now.Running? && now.index == index && now.tries == 0
    case Running(_, index, tries) =>
      (now.Running? && now.index == index && now.tries == tries + 1 <= c.retries) || (now.Reporting? && now.index == index)
    case Reporting(_, index, _, _) => now.Finished? || (now.At? && now.index == index + 1)
    case Finished(_) => now.Freeing?
    case Freeing => now.Done?
    case Done => false
  }

  lemma StepAdvances(c: Config, s: State, a: Action)
    requires Step(c, s, a).Some? && OfTask(a)
    ensures a.task < |s.tasks| == |Step(c, s, a).value.tasks|
    ensures Advances(c, s.tasks[a.task].pc, Step(c, s, a).value.tasks[a.task].pc)
  {
    StepMoves(c, s, a);
    hide Retryable, Insert, Wanted, ShardOf;
  }

  /** How an earlier report of a plan can lie behind the place the plan is at. */
  predicate SentBefore(pc: Pc, probe: nat) {
    match pc
    case Starting => false
    case At(_, index) => probe < index
    case NeedHost(_, index) => probe < index
    case NeedProbe(_, index) => probe < index
    case Running(_, index, _) => probe < index
    case Reporting(_, index, _, _) => probe < index
    case _ => true
  }

  /** The reports of one plan are of different probes, in the order of the probes. */
  ghost predicate Ascending(output: seq<Ran>) {
    forall i, j :: 0 <= i < j < |output| && output[i].task == output[j].task ==> output[i].probe < output[j].probe
  }

  ghost predicate SentOnce(s: State) {
    && Ascending(s.output)
    && forall i :: 0 <= i < |s.output| ==>
         s.output[i].task < |s.tasks| && SentBefore(s.tasks[s.output[i].task].pc, s.output[i].probe)
  }

  lemma AdvancesSent(c: Config, was: Pc, now: Pc, probe: nat)
    requires Advances(c, was, now)
    ensures SentBefore(was, probe) ==> SentBefore(now, probe)
    ensures was.Reporting? ==> SentBefore(now, was.index)
  {}

  lemma ChangesOutput(c: Config, s: State, a: Action)
    requires Step(c, s, a).Some? && OfTask(a)
    ensures var output := Step(c, s, a).value.output;
            output == s.output ||
            (a.Report? && a.task < |s.tasks| && s.tasks[a.task].pc.Reporting? && |output| == |s.output| + 1 &&
             output[..|s.output|] == s.output && output[|s.output|].task == a.task &&
             output[|s.output|].probe == s.tasks[a.task].pc.index)
  {
    hide Retryable, Insert, Wanted, ShardOf;
  }

  lemma StepSentOnce(c: Config, s: State, a: Action)
    requires SentOnce(s) && Step(c, s, a).Some?
    ensures SentOnce(Step(c, s, a).value)
  {
    if OfTask(a) {
      var n := Step(c, s, a).value;
      StepMoves(c, s, a);
      StepAdvances(c, s, a);
      ChangesOutput(c, s, a);
      hide Step, Advances, SentBefore;
      var was, now := s.tasks[a.task].pc, n.tasks[a.task].pc;
      forall i | 0 <= i < |n.output|
        ensures n.output[i].task < |n.tasks| && SentBefore(n.tasks[n.output[i].task].pc, n.output[i].probe)
        ensures i == |s.output| ==> forall k :: 0 <= k < i && n.output[k].task == a.task ==> n.output[k].probe < n.output[i].probe
      {
        AdvancesSent(c, was, now, n.output[i].probe);
        if i < |s.output| {
          assert n.output[i] == s.output[i];
        } else {
          forall k | 0 <= k < i && n.output[k].task == a.task
            ensures n.output[k].probe < n.output[i].probe
          {
            assert n.output[k] == n.output[..|s.output|][k] == s.output[k];
            SentBehind(was, s.output[k].probe);
          }
        }
      }
      AscendingMore(s.output, n.output, a.task);
    }
  }

  lemma SentBehind(pc: Pc, probe: nat)
    requires pc.Reporting? && SentBefore(pc, probe)
    ensures probe < pc.index
  {}

  lemma AscendingMore(output: seq<Ran>, more: seq<Ran>, task: nat)
    requires Ascending(output)
    requires more == output || (|more| == |output| + 1 && more[..|output|] == output && more[|output|].task == task)
    requires |more| > |output| ==>
               forall k :: 0 <= k < |output| && more[k].task == task ==> more[k].probe < more[|output|].probe
    ensures Ascending(more)
  {
    forall i, j | 0 <= i < j < |more| && more[i].task == more[j].task
      ensures more[i].probe < more[j].probe
    {
      assert i < |output| ==> more[i] == more[..|output|][i];
      assert j < |output| ==> more[j] == more[..|output|][j];
    }
  }
}
