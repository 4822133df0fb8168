/** Claims, executions and reports: what a scan has done, in every reachable state. */
module SchedulerClaims {
  import opened Limits
  import opened Scheduler
  import opened SchedulerSafety

  /** How often a key was executed. */
  function Runs(trace: seq<Ran>, key: Key): nat {
    if trace == [] then 0 else Runs(trace[..|trace| - 1], key) + One(trace[|trace| - 1].key == key)
  }

  /** The plan has claimed the key and not yet finished with it. */
  predicate Owns(c: Config, t: Task, key: Key) {
    (t.pc.NeedHost? || t.pc.NeedProbe? || t.pc.Running?) && t.pc.index < |c.names| && KeyOf(c, t.target, t.pc.index) == key
  }

  function Tries(pc: Pc): nat {
    if pc.Running? then pc.tries else 0
  }

  /**
   * A key is executed only by the one plan that claimed it, `retries + 1` times at most, and
   * a claimed key is executed or still owned.
   */
  ghost predicate Claims(c: Config, s: State) {
    && Placed(c.hash, s.shards)
    && (forall key :: Runs(s.trace, key) <= c.retries + 1)
    && (forall key :: key !in Claimed(s.shards) ==> Runs(s.trace, key) == 0)
    && (forall key :: key in Claimed(s.shards) && Runs(s.trace, key) == 0 ==> Owned(c, s.tasks, key))
    && (forall t :: 0 <= t < |s.tasks| ==> OwnsWell(c, s, s.tasks[t]))
    && Apart(c, s.tasks)
  }

  /** What a plan owns is claimed, and was executed as often as the plan tried. */
  ghost predicate OwnsWell(c: Config, s: State, t: Task) {
    forall key :: Owns(c, t, key) ==> key in Claimed(s.shards) && Runs(s.trace, key) == Tries(t.pc) <= c.retries
  }

  /** No two plans own the same key. */
  ghost predicate Apart(c: Config, tasks: seq<Task>) {
    forall t, u, key :: 0 <= t < u < |tasks| && Owns(c, tasks[t], key) ==> !Owns(c, tasks[u], key)
  }

  ghost predicate Owned(c: Config, tasks: seq<Task>, key: Key) {
    exists t :: 0 <= t < |tasks| && Owns(c, tasks[t], key)
  }

  lemma RunsAppend(trace: seq<Ran>, ran: Ran, key: Key)
    ensures Runs(trace + [ran], key) == Runs(trace, key) + One(ran.key == key)
  {
    assert (trace + [ran])[..|trace|] == trace;
  }

  /** How a step changes the claims: it claims, it records an execution, or neither. */
  datatype Change = Claiming(key: Key) | Recording(ran: Ran) | Nothing

  function ChangeOf(c: Config, s: State, a: Action): Change
    requires Step(c, s, a).Some?
  {
    var n := Step(c, s, a).value;
    if a.Consider? && n.tasks[a.task].pc.NeedHost? then Claiming(KeyOf(c, s.tasks[a.task].target, s.tasks[a.task].pc.index))
    else if a.Return? then
      Recording(Ran(a.task, s.tasks[a.task].pc.index, s.tasks[a.task].pc.tries,
                    KeyOf(c, s.tasks[a.task].target, s.tasks[a.task].pc.index), a.result))
    else Nothing
  }

  lemma StepChanges(c: Config, s: State, a: Action)
    requires Step(c, s, a).Some? && OfTask(a) && InBounds(c, s, s.tasks[a.task].pc)
    ensures var n, was := Step(c, s, a).value, s.tasks[a.task]; var now := n.tasks[a.task];
            match ChangeOf(c, s, a)
            case Claiming(key) =>
              n.shards == Insert(c.hash, s.shards, key) && key !in s.shards[ShardOf(c.hash, key)] &&
              n.trace == s.trace && now.pc.NeedHost? && Owns(c, now, key) && was.pc.At?
            case Recording(ran) =>
              n.shards == s.shards && n.trace == s.trace + [ran] && was.pc.Running? && Owns(c, was, ran.key) &&
              ran.tries == was.pc.tries &&
              (if now.pc.Running? then Owns(c, now, ran.key) && now.pc.tries == was.pc.tries + 1 <= c.retries
               else now.pc.Reporting?)
            case Nothing =>
              n.shards == s.shards && n.trace == s.trace && Tries(now.pc) == 0 &&
              (Owns(c, was, KeyAt(c, was)) || Owns(c, now, KeyAt(c, now)) ==>
                (KeyAt(c, was) == KeyAt(c, now) && Tries(was.pc) == 0 &&
                Owns(c, was, KeyAt(c, was)) && Owns(c, now, KeyAt(c, now))))
  {
    StepMoves(c, s, a);
  }

  /** The key of the probe at hand, if any. */
  function KeyAt(c: Config, t: Task): Key {
    if (t.pc.NeedHost? || t.pc.NeedProbe? || t.pc.Running?) && t.pc.index < |c.names| then KeyOf(c, t.target, t.pc.index)
    else Key(t.target, "")
  }

  lemma OwnsIs(c: Config, t: Task)
    ensures forall key :: Owns(c, t, key) ==> key == KeyAt(c, t)
  {}

  /** A plan that owns nothing it did not own before stays apart from the others. */
  lemma ApartMoved(c: Config, tasks: seq<Task>, t: nat, now: Task)
    requires Apart(c, tasks) && t < |tasks|
    requires forall key, u :: 0 <= u < |tasks| && u != t && Owns(c, now, key) ==> !Owns(c, tasks[u], key)
    ensures Apart(c, tasks[t := now])
  {
    hide Owns;
  }

  lemma OthersOwnNot(c: Config, tasks: seq<Task>, t: nat, u: nat, key: Key)
    requires Apart(c, tasks) && t < |tasks| && u < |tasks| && u != t && Owns(c, tasks[t], key)
    ensures !Owns(c, tasks[u], key)
  {
    hide Owns;
    assert t < u || u < t;
  }

  lemma OwnedStays(c: Config, tasks: seq<Task>, later: seq<Task>, t: nat, key: Key)
    requires Owned(c, tasks, key) && |tasks| <= |later| && (t < |tasks| && Owns(c, tasks[t], key) ==> Owns(c, later[t], key))
    requires forall u :: 0 <= u < |tasks| && u != t ==> later[u] == tasks[u]
    ensures Owned(c, later, key)
  {
    var u :| 0 <= u < |tasks| && Owns(c, tasks[u], key);
    assert Owns(c, later[u], key);
  }

  lemma ClaimingKeeps(c: Config, s: State, n: State, t: nat, now: Task, key: Key)
    requires Claims(c, s) && t < |s.tasks| && n.tasks == s.tasks[t := now] && n.trace == s.trace
    requires key !in s.shards[ShardOf(c.hash, key)] && n.shards == Insert(c.hash, s.shards, key)
    requires s.tasks[t].pc.At? && now.pc.NeedHost? && Owns(c, now, key)
    ensures Claims(c, n)
  {
    ShardedClaim(c.hash, s.shards, key);
    hide Placed, Claimed, Runs, Insert;
    OwnsIs(c, now);
    forall k | k in Claimed(n.shards) && Runs(n.trace, k) == 0
      ensures Owned(c, n.tasks, k)
    {
      if k == key {
        assert Owns(c, n.tasks[t], k);
      } else {
        OwnedStays(c, s.tasks, n.tasks, t, k);
      }
    }
    forall u | 0 <= u < |n.tasks|
      ensures OwnsWell(c, n, n.tasks[u])
    {
      if u != t {
        assert OwnsWell(c, s, s.tasks[u]);
      }
    }
    forall k, u | 0 <= u < |s.tasks| && u != t && Owns(c, now, k)
      ensures !Owns(c, s.tasks[u], k)
    {
      assert OwnsWell(c, s, s.tasks[u]);
    }
    ApartMoved(c, s.tasks, t, now);
  }

  lemma RecordingKeeps(c: Config, s: State, n: State, t: nat, now: Task, ran: Ran)
    requires Claims(c, s) && t < |s.tasks| && n.tasks == s.tasks[t := now]
    requires n.shards == s.shards && n.trace == s.trace + [ran]
    requires s.tasks[t].pc.Running? && Owns(c, s.tasks[t], ran.key)
    requires if now.pc.Running? then Owns(c, now, ran.key) && now.pc.tries == s.tasks[t].pc.tries + 1 <= c.retries
             else now.pc.Reporting?
    ensures Claims(c, n)
  {
    hide Placed, Claimed, Runs;
    forall key
      ensures Runs(n.trace, key) == Runs(s.trace, key) + One(ran.key == key)
    {
      RunsAppend(s.trace, ran, key);
    }
    OwnsIs(c, s.tasks[t]);
    OwnsIs(c, now);
    assert OwnsWell(c, s, s.tasks[t]);
    assert forall key :: Owns(c, now, key) ==> key == ran.key;
    forall k | k in Claimed(n.shards) && Runs(n.trace, k) == 0
      ensures Owned(c, n.tasks, k)
    {
      assert k != ran.key;
      OwnedStays(c, s.tasks, n.tasks, t, k);
    }
    forall u | 0 <= u < |n.tasks|
      ensures OwnsWell(c, n, n.tasks[u])
    {
      if u != t {
        OthersOwnNot(c, s.tasks, t, u, ran.key);
        assert OwnsWell(c, s, s.tasks[u]);
      }
    }
    forall key, u | 0 <= u < |s.tasks| && u != t && Owns(c, now, key)
      ensures !Owns(c, s.tasks[u], key)
    {
      OthersOwnNot(c, s.tasks, t, u, ran.key);
    }
    ApartMoved(c, s.tasks, t, now);
  }

  lemma NothingKeeps(c: Config, s: State, n: State, t: nat, now: Task)
    requires Claims(c, s) && t < |s.tasks| && n.tasks == s.tasks[t := now]
    requires n.shards == s.shards && n.trace == s.trace
    requires forall key :: Owns(c, now, key) <==> Owns(c, s.tasks[t], key)
    requires Owns(c, now, KeyAt(c, now)) ==> Tries(now.pc) == Tries(s.tasks[t].pc)
    ensures Claims(c, n)
  {
    OwnsIs(c, now);
    hide Placed, Claimed, Runs, Owns, Tries, KeyAt;
    forall k | k in Claimed(n.shards) && Runs(n.trace, k) == 0
      ensures Owned(c, n.tasks, k)
    {
      OwnedStays(c, s.tasks, n.tasks, t, k);
    }
    forall u | 0 <= u < |n.tasks|
      ensures OwnsWell(c, n, n.tasks[u])
    {
      assert OwnsWell(c, s, s.tasks[u]);
    }
    forall key, u | 0 <= u < |s.tasks| && u != t && Owns(c, now, key)
      ensures !Owns(c, s.tasks[u], key)
    {
      OthersOwnNot(c, s.tasks, t, u, key);
    }
    ApartMoved(c, s.tasks, t, now);
  }

  lemma DispatchClaims(c: Config, s: State, a: Action)
    requires Claims(c, s) && !OfTask(a) && Step(c, s, a).Some?
    ensures Claims(c, Step(c, s, a).value)
  {
    var n := Step(c, s, a).value;
    assert n.shards == s.shards && n.trace == s.trace && |s.tasks| <= |n.tasks| <= |s.tasks| + 1;
    assert forall u :: 0 <= u < |s.tasks| ==> n.tasks[u] == s.tasks[u];
    assert forall u, key :: |s.tasks| <= u < |n.tasks| ==> !Owns(c, n.tasks[u], key);
    hide Step, Placed, Claimed, Runs, Owns, Tries;
    forall k | k in Claimed(n.shards) && Runs(n.trace, k) == 0
      ensures Owned(c, n.tasks, k)
    {
      OwnedStays(c, s.tasks, n.tasks, |s.tasks|, k);
    }
    forall u | 0 <= u < |n.tasks|
      ensures OwnsWell(c, n, n.tasks[u])
    {
      if u < |s.tasks| {
        assert OwnsWell(c, s, s.tasks[u]);
      }
    }
    assert Apart(c, n.tasks);
  }

  lemma StepClaims(c: Config, s: State, a: Action)
    requires Bounded(c, s) && Claims(c, s) && Step(c, s, a).Some?
    ensures Claims(c, Step(c, s, a).value)
  {
    var n := Step(c, s, a).value;
    if OfTask(a) {
      StepMoves(c, s, a);
      StepChanges(c, s, a);
      hide Step, Claims, Claimed, Placed, Runs;
      var now := n.tasks[a.task];
      match ChangeOf(c, s, a) {
        case Claiming(key) => ClaimingKeeps(c, s, n, a.task, now, key);
        case Recording(ran) => RecordingKeeps(c, s, n, a.task, now, ran);
        case Nothing =>
          OwnsIs(c, now);
          OwnsIs(c, s.tasks[a.task]);
          NothingKeeps(c, s, n, a.task, now);
      }
    } else {
      DispatchClaims(c, s, a);
    }
  }
}
