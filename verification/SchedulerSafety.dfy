/** What every reachable state of the scheduler satisfies. */
module SchedulerSafety {
  import opened Wrappers
  import opened Limits
  import opened Scheduler

  // ----- permits and the semaphores of hosts

  /** Free permits and holders add up to the limit, for every semaphore. */
  ghost predicate Permits(c: Config, s: State) {
    && s.global + Count(c, Admitted, s.tasks) == c.globalLimit
    && (forall sem :: 0 <= sem < |s.sems| ==> s.sems[sem] + Count(c, Holding(sem), s.tasks) == c.hostLimit)
    && (forall name :: name in s.probeFree <==> name in c.names)
    && (forall name :: name in s.probeFree ==> s.probeFree[name] + Count(c, Probing(name), s.tasks) == c.probeLimit)
  }

  ghost predicate Bounded(c: Config, s: State) {
    && |s.shards| == SHARDS
    && (forall t :: 0 <= t < |s.tasks| ==> InBounds(c, s, s.tasks[t].pc))
  }

  predicate InBounds(c: Config, s: State, pc: Pc) {
    && (Planning(pc) ==> pc.sem < |s.sems|)
    && (pc.NeedHost? || pc.NeedProbe? || pc.Running? || pc.Reporting? ==> pc.index < |c.names|)
    && (pc.At? ==> pc.index <= |c.names|)
    && (pc.Running? ==> pc.tries <= c.retries)
  }

  /**
   * All plans on a host share the semaphore of its entry, the entry counts exactly those plans,
   * and hosts do not share semaphores.
   */
  ghost predicate Shared(c: Config, s: State) {
    && (forall ip :: ip in s.entries ==>
          (s.entries[ip].users == Count(c, Planned(ip), s.tasks) > 0 && s.entries[ip].semaphore < |s.sems|))
    && (forall t :: 0 <= t < |s.tasks| && Planning(s.tasks[t].pc) ==>
          (s.tasks[t].target.ip in s.entries && s.entries[s.tasks[t].target.ip].semaphore == s.tasks[t].pc.sem))
    && (forall one, other :: one in s.entries && other in s.entries && one != other ==>
          s.entries[one].semaphore != s.entries[other].semaphore)
  }

  lemma Moved(c: Config, s: State, n: State, t: nat, pc: Pc)
    requires t < |s.tasks| && n.tasks == s.tasks[t := s.tasks[t].(pc := pc)]
    ensures forall g :: Count(c, g, n.tasks) + One(In(c, g, s.tasks[t])) == Count(c, g, s.tasks) + One(In(c, g, n.tasks[t]))
    ensures forall g :: In(c, g, s.tasks[t]) ==> Count(c, g, s.tasks) > 0
  {
    hide In;
    forall g
      ensures Count(c, g, n.tasks) + One(In(c, g, s.tasks[t])) == Count(c, g, s.tasks) + One(In(c, g, n.tasks[t]))
      ensures In(c, g, s.tasks[t]) ==> Count(c, g, s.tasks) > 0
    {
      CountUpdate(c, g, s.tasks, t, n.tasks[t]);
      CountPositive(c, g, s.tasks);
    }
  }

  lemma Spawned(c: Config, s: State, n: State)
    requires Step(c, s, Spawn) == Some(n)
    ensures forall g :: Count(c, g, n.tasks) == Count(c, g, s.tasks) + One(g.Admitted?)
  {
    forall g
      ensures Count(c, g, n.tasks) == Count(c, g, s.tasks) + One(g.Admitted?)
    {
      CountAppend(c, g, s.tasks, Task(s.waiting.value, Starting));
    }
  }

  predicate OfTask(a: Action) {
    !a.Interrupt? && !a.Receive? && !a.Spawn?
  }

  /** A step of a plan moves that plan only, and semaphores are never forgotten. */
  lemma StepMoves(c: Config, s: State, a: Action)
    requires OfTask(a) && Step(c, s, a).Some?
    ensures var n := Step(c, s, a).value;
            a.task < |s.tasks| == |n.tasks| && n.tasks == s.tasks[a.task := s.tasks[a.task].(pc := n.tasks[a.task].pc)] &&
            |n.sems| >= |s.sems| && |n.shards| == |s.shards| == SHARDS &&
            n.input == s.input && n.waiting == s.waiting && n.interrupted == s.interrupted &&
            n.announced == s.announced
  {}

  lemma EnlistStaysInBounds(c: Config, s: State, a: Action)
    requires a.Enlist? && Step(c, s, a).Some?
    requires var ip := s.tasks[a.task].target.ip;
             ip in s.entries ==> s.entries[ip].semaphore < |s.sems|
    ensures a.task < |Step(c, s, a).value.tasks| && InBounds(c, Step(c, s, a).value, Step(c, s, a).value.tasks[a.task].pc)
  {}

  lemma StepStaysInBounds(c: Config, s: State, a: Action)
    requires OfTask(a) && Step(c, s, a).Some?
    requires InBounds(c, s, s.tasks[a.task].pc)
    requires var ip := s.tasks[a.task].target.ip;
             ip in s.entries ==> s.entries[ip].semaphore < |s.sems|
    ensures a.task < |Step(c, s, a).value.tasks| && InBounds(c, Step(c, s, a).value, Step(c, s, a).value.tasks[a.task].pc)
  {
    hide Retryable, Insert, Wanted, ShardOf, EnlistStep, Limits.Leave;
    if a.Enlist? {
      EnlistStaysInBounds(c, s, a);
    } else {
      StepMoves(c, s, a);
    }
  }

  lemma StepBounded(c: Config, s: State, a: Action)
    requires Bounded(c, s) && Shared(c, s) && Step(c, s, a).Some?
    ensures Bounded(c, Step(c, s, a).value)
  {
    if OfTask(a) {
      StepMoves(c, s, a);
      hide TaskStep;
      assert s.tasks[a.task] in s.tasks;
      StepStaysInBounds(c, s, a);
    }
  }

  /** One move of a plan changes free permits by what its old and new places hold. */
  lemma StepTakesHostPermits(c: Config, s: State, a: Action)
    requires OfTask(a) && Step(c, s, a).Some? && InBounds(c, s, s.tasks[a.task].pc)
    ensures var n, was := Step(c, s, a).value, s.tasks[a.task]; var now := n.tasks[a.task];
            && (forall sem :: 0 <= sem < |s.sems| ==>
                  n.sems[sem] + One(In(c, Holding(sem), now)) == s.sems[sem] + One(In(c, Holding(sem), was)))
            && (forall sem :: |s.sems| <= sem < |n.sems| ==> n.sems[sem] == c.hostLimit && !In(c, Holding(sem), now))
  {
    hide Retryable, Insert, Wanted, ShardOf;
    StepMoves(c, s, a);
  }

  lemma StepTakesOtherPermits(c: Config, s: State, a: Action)
    requires OfTask(a) && Step(c, s, a).Some? && InBounds(c, s, s.tasks[a.task].pc)
    ensures var n, was := Step(c, s, a).value, s.tasks[a.task]; var now := n.tasks[a.task];
            && n.global + One(In(c, Admitted, now)) == s.global + One(In(c, Admitted, was))
            && n.probeFree.Keys == s.probeFree.Keys
            && (forall name :: name in s.probeFree ==>
                  n.probeFree[name] + One(In(c, Probing(name), now)) == s.probeFree[name] + One(In(c, Probing(name), was)))
  {
    hide Retryable, Insert, Wanted, ShardOf;
    StepMoves(c, s, a);
  }

  lemma StepPermits(c: Config, s: State, a: Action)
    requires Bounded(c, s) && Permits(c, s) && Step(c, s, a).Some?
    ensures Permits(c, Step(c, s, a).value)
  {
    hide Count;
    var n := Step(c, s, a).value;
    if a.Spawn? {
      Spawned(c, s, n);
    } else if OfTask(a) {
      StepMoves(c, s, a);
      StepTakesHostPermits(c, s, a);
      StepTakesOtherPermits(c, s, a);
      Moved(c, s, n, a.task, n.tasks[a.task].pc);
      hide Step, In;
      forall sem | |s.sems| <= sem < |n.sems|
        ensures Count(c, Holding(sem), s.tasks) == 0 && !In(c, Holding(sem), s.tasks[a.task])
      {
        NotHeldYet(c, s, sem);
      }
    }
  }

  lemma NotHeldYet(c: Config, s: State, sem: nat)
    requires Bounded(c, s) && |s.sems| <= sem
    ensures Count(c, Holding(sem), s.tasks) == 0
    ensures forall t :: 0 <= t < |s.tasks| ==> !In(c, Holding(sem), s.tasks[t])
  {
    hide Count;
    CountPositive(c, Holding(sem), s.tasks);
  }

  /** A plan that neither starts nor ends leaves the table of hosts as it was. */
  lemma UntouchedShared(c: Config, s: State, n: State, t: nat, pc: Pc)
    requires Shared(c, s) && t < |s.tasks| && n.tasks == s.tasks[t := s.tasks[t].(pc := pc)]
    requires n.entries == s.entries && |n.sems| >= |s.sems|
    requires Planning(pc) == Planning(s.tasks[t].pc) && (Planning(pc) ==> pc.sem == s.tasks[t].pc.sem)
    ensures Shared(c, n)
  {
    hide Count;
    Moved(c, s, n, t, pc);
  }

  lemma EnlistShared(c: Config, s: State, n: State, t: nat)
    requires Bounded(c, s) && Shared(c, s) && t < |s.tasks| && s.tasks[t].pc.Starting?
    requires n == EnlistStep(c, s, t, s.tasks[t].target)
    ensures Shared(c, n)
  {
    hide Count;
    Moved(c, s, n, t, n.tasks[t].pc);
    CountPositive(c, Planned(s.tasks[t].target.ip), s.tasks);
  }

  lemma RetireShared(c: Config, s: State, n: State, t: nat)
    requires Bounded(c, s) && Shared(c, s) && t < |s.tasks| && s.tasks[t].pc.Finished?
    requires n == Go(s, t, Freeing).(entries := Limits.Leave(s.entries, s.tasks[t].target.ip))
    ensures Shared(c, n)
  {
    hide Count;
    Moved(c, s, n, t, Freeing);
    CountPositive(c, Planned(s.tasks[t].target.ip), n.tasks);
  }

  lemma StepShared(c: Config, s: State, a: Action)
    requires Bounded(c, s) && Shared(c, s) && Step(c, s, a).Some?
    ensures Shared(c, Step(c, s, a).value)
  {
    hide Count, Bounded, Shared;
    var n := Step(c, s, a).value;
    if a.Enlist? {
      EnlistShared(c, s, n, a.task);
    } else if a.Retire? {
      RetireShared(c, s, n, a.task);
    } else if OfTask(a) {
      StepMoves(c, s, a);
      UntouchedShared(c, s, n, a.task, n.tasks[a.task].pc);
    } else {
      DispatchShared(c, s, a);
    }
  }

  lemma DispatchShared(c: Config, s: State, a: Action)
    requires Shared(c, s) && !OfTask(a) && Step(c, s, a).Some?
    ensures Shared(c, Step(c, s, a).value)
  {
    hide Count;
    if a.Spawn? {
      Spawned(c, s, Step(c, s, a).value);
    }
  }

  // ----- what the permits bound

  /** No host, probe name or scan ever has more executions in progress than its limit. */
  lemma ExecutionsWithinLimits(c: Config, s: State, ip: Ip, name: string)
    requires Bounded(c, s) && Permits(c, s) && Shared(c, s)
    ensures Count(c, Executing(ip), s.tasks) <= c.hostLimit
    ensures name in c.names ==> Count(c, Probing(name), s.tasks) <= c.probeLimit
    ensures Count(c, Busy, s.tasks) <= c.globalLimit
  {
    hide Count;
    CountPositive(c, Executing(ip), s.tasks);
    if ip in s.entries {
      CountWithin(c, Executing(ip), Holding(s.entries[ip].semaphore), s.tasks);
    }
    CountWithin(c, Busy, Admitted, s.tasks);
  }
}
