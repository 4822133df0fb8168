/**
 * The probe scheduler as a transition system: one dispatcher and any number of plans, each a task
 * that advances by atomic steps in any order. Waiting for a semaphore is a step that is not
 * enabled while no permit is free, so every order in which waiters are served is covered.
 */
module Scheduler {
  import opened Wrappers
  import opened Limits
  import opened Sessions

  datatype OutputMode = ModeAll | ModeOpen | ModeResponsive | ModeDetected | ModeMatched

  /** Limits, and for each probe its name and the targets its scope allows. */
  datatype Config = Config(
    globalLimit: nat,
    hostLimit: nat,
    probeLimit: nat,
    retries: nat,
    mode: OutputMode,
    names: seq<string>,
    allows: (nat, Target) -> bool,
    hash: Hash)

  /** Where a plan is. `index` is the probe at hand, `sem` the semaphore of its host. */
  datatype Pc =
    | Starting
    | At(sem: nat, index: nat)
    | NeedHost(sem: nat, index: nat)
    | NeedProbe(sem: nat, index: nat)
    | Running(sem: nat, index: nat, tries: nat)
    | Reporting(sem: nat, index: nat, tries: nat, result: Execution)
    | Finished(sem: nat)
    | Freeing
    | Done

  datatype Task = Task(target: Target, pc: Pc)

  /** One execution that returned, the `tries`-th repetition of its probe in the plan of `task`. */
  datatype Ran = Ran(task: nat, probe: nat, tries: nat, key: Key, result: Execution)

  datatype State = State(
    input: seq<Target>,
    interrupted: bool,
    waiting: Option<Target>,
    global: nat,
    entries: map<Ip, Entry<nat>>,
    sems: seq<nat>,
    probeFree: map<string, nat>,
    shards: seq<set<Key>>,
    tasks: seq<Task>,
    trace: seq<Ran>,
    output: seq<Ran>,
    announced: seq<Target>)

  datatype Action =
    | Interrupt
    | Receive
    | Spawn
    | Enlist(task: nat)
    | Consider(task: nat)
    | TakeHost(task: nat)
    | TakeProbe(task: nat)
    | Return(task: nat, result: Execution)
    | Report(task: nat)
    | Retire(task: nat)
    | Quit(task: nat)

  function Initial(c: Config, input: seq<Target>): State {
    State(input, false, None, c.globalLimit, map[], [], map n | n in c.names :: c.probeLimit,
          seq(SHARDS, _ => {}), [], [], [], [])
  }

  /** In these modes a target is reported as open before it is planned. */
  predicate ReportsOpen(mode: OutputMode) {
    mode.ModeAll? || mode.ModeOpen?
  }

  predicate Retryable(e: Execution) {
    !e.confirmed && e.status in {"connect_timeout", "read_timeout", "connection_reset", "probe_error"}
  }

  predicate Wanted(mode: OutputMode, e: Execution) {
    match mode
    case ModeAll => true
    case ModeOpen => false
    case ModeResponsive => e.responsive
    case ModeDetected => e.confirmed || e.probable
    case ModeMatched => e.confirmed
  }

  function KeyOf(c: Config, target: Target, index: nat): Key
    requires index < |c.names|
  {
    Key(target, c.names[index])
  }

  function Go(s: State, task: nat, pc: Pc): State
    requires task < |s.tasks|
  {
    s.(tasks := s.tasks[task := s.tasks[task].(pc := pc)])
  }

  function Step(c: Config, s: State, a: Action): Option<State> {
    match a
    case Interrupt => if s.interrupted then None else Some(s.(interrupted := true))
    case Receive =>
      if s.waiting.Some? || s.input == [] then None
      else Some(s.(input := s.input[1..], waiting := if s.interrupted then None else Some(s.input[0]),
                   announced := if ReportsOpen(c.mode) then s.announced + [s.input[0]] else s.announced))
    case Spawn =>
      if s.waiting.None? || s.global == 0 then None
      else Some(s.(waiting := None, global := s.global - 1, tasks := s.tasks + [Task(s.waiting.value, Starting)]))
    case _ =>
      if a.task < |s.tasks| && |s.shards| == SHARDS then TaskStep(c, s, a, s.tasks[a.task].target, s.tasks[a.task].pc)
      else None
  }

  function TaskStep(c: Config, s: State, a: Action, target: Target, pc: Pc): Option<State>
    requires !a.Interrupt? && !a.Receive? && !a.Spawn? && a.task < |s.tasks| && |s.shards| == SHARDS
  {
    match a
    case Enlist(t) => if pc.Starting? then Some(EnlistStep(c, s, t, target)) else None
    case Consider(t) => if pc.At? then Some(ConsiderStep(c, s, t, target, pc)) else None
    case TakeHost(t) =>
      if !pc.NeedHost? || pc.sem >= |s.sems| || s.sems[pc.sem] == 0 then None
      else Some(Go(s, t, NeedProbe(pc.sem, pc.index)).(sems := s.sems[pc.sem := s.sems[pc.sem] - 1]))
    case TakeProbe(t) =>
      if !pc.NeedProbe? || pc.index >= |c.names| then None
      else
        var name := c.names[pc.index];
        if name !in s.probeFree || s.probeFree[name] == 0 then None
        else Some(Go(s, t, Running(pc.sem, pc.index, 0)).(probeFree := s.probeFree[name := s.probeFree[name] - 1]))
    case Return(t, result) =>
      if !pc.Running? || pc.index >= |c.names| || c.names[pc.index] !in s.probeFree then None
      else Some(ReturnStep(c, s, t, target, pc, result))
    case Report(t) =>
      if !pc.Reporting? || pc.sem >= |s.sems| || pc.index >= |c.names| then None
      else Some(ReportStep(c, s, t, target, pc))
    case Retire(t) =>
      if pc.Finished? then Some(Go(s, t, Freeing).(entries := Limits.Leave(s.entries, target.ip))) else None
    case Quit(t) => if pc.Freeing? then Some(Go(s, t, Done).(global := s.global + 1)) else None
  }

  /** `hosts.acquire`. */
  function EnlistStep(c: Config, s: State, t: nat, target: Target): State
    requires t < |s.tasks|
  {
    var entries := Limits.Enter(s.entries, target.ip, |s.sems|);
    var sems := if target.ip in s.entries then s.sems else s.sems + [c.hostLimit];
    Go(s, t, At(entries[target.ip].semaphore, 0)).(entries := entries, sems := sems)
  }

  /** The top of the loop over probes: scope, then claim. */
  function ConsiderStep(c: Config, s: State, t: nat, target: Target, pc: Pc): State
    requires t < |s.tasks| && |s.shards| == SHARDS && pc.At?
  {
    if pc.index >= |c.names| then Go(s, t, Finished(pc.sem))
    else if !c.allows(pc.index, target) then Go(s, t, At(pc.sem, pc.index + 1))
    else
      var key := KeyOf(c, target, pc.index);
      if key in s.shards[ShardOf(c.hash, key)] then Go(s, t, At(pc.sem, pc.index + 1))
      else Go(s, t, NeedHost(pc.sem, pc.index)).(shards := Insert(c.hash, s.shards, key))
  }

  /** An execution returns: it is retried, or its probe permit is dropped. */
  function ReturnStep(c: Config, s: State, t: nat, target: Target, pc: Pc, result: Execution): State
    requires t < |s.tasks| && pc.Running? && pc.index < |c.names| && c.names[pc.index] in s.probeFree
  {
    var name := c.names[pc.index];
    var ran := Ran(t, pc.index, pc.tries, KeyOf(c, target, pc.index), result);
    if pc.tries < c.retries && Retryable(result) then
      Go(s, t, Running(pc.sem, pc.index, pc.tries + 1)).(trace := s.trace + [ran])
    else
      Go(s, t, Reporting(pc.sem, pc.index, pc.tries, result))
        .(trace := s.trace + [ran], probeFree := s.probeFree[name := s.probeFree[name] + 1])
  }

  /** The result is sent if wanted, the host permit dropped, and a confirmed probe ends the plan. */
  function ReportStep(c: Config, s: State, t: nat, target: Target, pc: Pc): State
    requires t < |s.tasks| && pc.Reporting? && pc.sem < |s.sems| && pc.index < |c.names|
  {
    var ran := Ran(t, pc.index, pc.tries, KeyOf(c, target, pc.index), pc.result);
    Go(s, t, if pc.result.confirmed then Finished(pc.sem) else At(pc.sem, pc.index + 1))
      .(sems := s.sems[pc.sem := s.sems[pc.sem] + 1],
        output := if Wanted(c.mode, pc.result) then s.output + [ran] else s.output)
  }

  /** The state after the actions in order, if each was enabled. */
  function After(c: Config, s: State, actions: seq<Action>): Option<State>
    decreases |actions|
  {
    if actions == [] then Some(s)
    else
      var next :- Step(c, s, actions[0]);
      After(c, next, actions[1..])
  }

  /** Nothing is left to do. */
  predicate Final(s: State) {
    s.input == [] && s.waiting.None? && forall t :: t in s.tasks ==> t.pc.Done?
  }

  // ----- counting tasks

  datatype Group =
    | Admitted
    | Planned(ip: Ip)
    | Holding(sem: nat)
    | Probing(name: string)
    | Executing(ip: Ip)
    | Busy

  predicate Planning(pc: Pc) {
    !pc.Starting? && !pc.Freeing? && !pc.Done?
  }

  predicate In(c: Config, g: Group, t: Task) {
    match g
    case Admitted => !t.pc.Done?
    case Planned(ip) => Planning(t.pc) && t.target.ip == ip
    case Holding(sem) => (t.pc.NeedProbe? || t.pc.Running? || t.pc.Reporting?) && t.pc.sem == sem
    case Probing(name) => t.pc.Running? && t.pc.index < |c.names| && c.names[t.pc.index] == name
    case Executing(ip) => t.pc.Running? && t.target.ip == ip
    case Busy => t.pc.Running?
  }

  function One(b: bool): nat {
    if b then 1 else 0
  }

  function Count(c: Config, g: Group, tasks: seq<Task>): nat {
    if tasks == [] then 0 else One(In(c, g, tasks[0])) + Count(c, g, tasks[1..])
  }

  lemma {:induction false} CountUpdate(c: Config, g: Group, tasks: seq<Task>, i: nat, t: Task)
    requires i < |tasks|
    ensures Count(c, g, tasks[i := t]) + One(In(c, g, tasks[i])) == Count(c, g, tasks) + One(In(c, g, t))
  {
    hide In;
    if i == 0 {
      assert tasks[i := t][1..] == tasks[1..];
    } else {
      CountUpdate(c, g, tasks[1..], i - 1, t);
      assert tasks[i := t][1..] == tasks[1..][i - 1 := t];
    }
  }

  lemma {:induction false} CountAppend(c: Config, g: Group, tasks: seq<Task>, t: Task)
    ensures Count(c, g, tasks + [t]) == Count(c, g, tasks) + One(In(c, g, t))
  {
    hide In;
    if tasks == [] {
      assert [] + [t] == [t] && [t][1..] == [];
    } else {
      CountAppend(c, g, tasks[1..], t);
      assert (tasks + [t])[1..] == tasks[1..] + [t];
    }
  }

  /** A group that lies within another where it matters counts no more. */
  lemma {:induction false} CountWithin(c: Config, g: Group, h: Group, tasks: seq<Task>)
    requires forall t :: t in tasks && In(c, g, t) ==> In(c, h, t)
    ensures Count(c, g, tasks) <= Count(c, h, tasks)
  {
    hide In;
    if tasks != [] {
      assert forall t :: t in tasks[1..] ==> t in tasks;
      CountWithin(c, g, h, tasks[1..]);
    }
  }

  lemma {:induction false} CountPositive(c: Config, g: Group, tasks: seq<Task>)
    ensures Count(c, g, tasks) > 0 <==> exists i :: 0 <= i < |tasks| && In(c, g, tasks[i])
  {
    hide In;
    if tasks != [] {
      CountPositive(c, g, tasks[1..]);
      assert forall i :: 0 < i < |tasks| ==> tasks[i] == tasks[1..][i - 1];
      if Count(c, g, tasks[1..]) > 0 {
        var i :| 0 <= i < |tasks[1..]| && In(c, g, tasks[1..][i]);
        assert In(c, g, tasks[i + 1]);
      }
    }
  }
}
