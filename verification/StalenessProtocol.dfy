/**
 The staleness protocol as a step machine: any number of runners, one evaluator,
 and time.  A step is one critical section of the store, one channel operation or
 one clock reading; steps interleave freely.
 */
module StalenessProtocol {
  import opened Basics
  import opened KeyModel
  import KeyComposition

  /** `timeout` bounds one load of the source; the steps below do not depend on it. */
  datatype RunnerConfig = RunnerConfig(interval: nat, timeout: nat)

  datatype LoadOutcome = Failed | Unchanged | Fetched(contribution: Contribution)

  /** `Loaded` is between the clock reading and the store's critical section. */
  datatype RunnerPc =
    | Waiting(expiry: Instant)
    | Loading(since: Instant)
    | Loaded(outcome: LoadOutcome, at: Instant)
    | Resetting

  /** `trigger` is the capacity-1 kick channel; `refreshed` remembers a first successful refresh. */
  datatype Runner = Runner(pc: RunnerPc, trigger: bool, refreshed: bool)

  /** A timer started at `startedAt` for a duration computed from the clock at `readAt`. */
  datatype Timer = Timer(readAt: Instant, startedAt: Instant, after: nat) {
    function Expiry(): Instant { startedAt + after }
  }

  datatype EvaluatorPc =
    | Idle
    | Woken
    | Read(deadline: Instant, armed: bool, version: nat)
    | Arming(readAt: Instant, after: nat)
    | Fired
    | Stopped

  datatype System = System(
    store: StoreState,
    now: Instant,
    pc: EvaluatorPc,
    timer: Option<Timer>,
    applied: nat,
    runners: map<string, Runner>)

  datatype Action =
    | Tick(delta: nat)
    | Kick(name: string)
    | WakeByTimer(name: string)
    | WakeByTrigger(name: string)
    | LoadDone(name: string, outcome: LoadOutcome)
    | Commit(name: string)
    | ResetTimer(name: string)
    | ReceiveSignal
    | ReadDeadline
    | Compare
    | StartTimer
    | Fire
    | Evaluate
    | Stop

  function Until(deadline: Instant, readAt: Instant): nat {
    if readAt < deadline then deadline - readAt else 0
  }

  ghost predicate TimerExpired(s: System) {
    s.timer.Some? && s.timer.value.Expiry() <= s.now
  }

  ghost predicate SetsRunner(s: System, name: string, r: Runner, s': System) {
    s' == s.(runners := s.runners[name := r])
  }

  ghost predicate RunnerNext(config: map<string, RunnerConfig>, s: System, a: Action, s': System)
    requires a.Kick? || a.WakeByTimer? || a.WakeByTrigger? || a.LoadDone? || a.Commit? || a.ResetTimer?
    requires Registered(s.store.order, s.store.states)
  {
    && a.name in s.runners && a.name in config
    && var r := s.runners[a.name];
      match a
      case Kick(name) => SetsRunner(s, name, r.(trigger := true), s')
      case WakeByTimer(name) =>
        r.pc.Waiting? && r.pc.expiry <= s.now && SetsRunner(s, name, r.(pc := Loading(s.now)), s')
      case WakeByTrigger(name) =>
        r.pc.Waiting? && r.trigger && SetsRunner(s, name, r.(pc := Loading(s.now), trigger := false), s')
      case LoadDone(name, outcome) =>
        && r.pc.Loading?
        && SetsRunner(s, name, r.(pc := if outcome.Failed? then Resetting else Loaded(outcome, s.now)), s')
      case Commit(name) => r.pc.Loaded? && exists ok :: Commits(s, name, r, s', ok)
      case ResetTimer(name) =>
        r.pc.Resetting? && SetsRunner(s, name, r.(pc := Waiting(s.now + config[name].interval)), s')
  }

  ghost predicate Commits(s: System, name: string, r: Runner, s': System, ok: bool)
    requires r.pc.Loaded? && Registered(s.store.order, s.store.states)
  {
    && s' == s.(store := s'.store,
                runners := s.runners[name := r.(pc := Resetting, refreshed := r.refreshed || ok)])
    && match r.pc.outcome
       case Failed => false
       case Unchanged => Touches(s.store, name, r.pc.at, s'.store, ok)
       case Fetched(c) => Installs(s.store, name, Some(c), r.pc.at, s'.store, ok)
  }

  /** What the evaluator can do next. */
  ghost predicate Enabled(s: System, a: Action) {
    match a
    case ReceiveSignal => s.pc.Idle? && s.store.signal
    case ReadDeadline => s.pc.Woken?
    case Compare => s.pc.Read?
    case StartTimer => s.pc.Arming?
    case Fire => s.pc.Idle? && TimerExpired(s)
    case Evaluate => s.pc.Fired?
    case _ => false
  }

  ghost predicate EvaluatorNext(s: System, a: Action, s': System)
    requires Enabled(s, a) && Registered(s.store.order, s.store.states)
  {
    match a
    case ReceiveSignal => s' == s.(store := s.store.(signal := false), pc := Woken)
    case ReadDeadline =>
      s' == s.(pc := Read(s.store.deadlineAt, s.store.deadlineArmed, s.store.deadlineVersion))
    case Compare =>
      if s.pc.version == s.applied then s' == s.(pc := Idle)
      else if s.pc.armed then
        s' == s.(applied := s.pc.version, timer := None, pc := Arming(s.now, Until(s.pc.deadline, s.now)))
      else s' == s.(applied := s.pc.version, timer := None, pc := Idle)
    case StartTimer => s' == s.(timer := Some(Timer(s.pc.readAt, s.now, s.pc.after)), pc := Idle)
    case Fire => s' == s.(timer := None, pc := Fired)
    case Evaluate => s' == s.(store := s'.store, pc := Idle) && Evaluates(s.store, s.now, s'.store)
  }

  ghost predicate Next(config: map<string, RunnerConfig>, s: System, a: Action, s': System) {
    && Registered(s.store.order, s.store.states)
    && match a
       case Tick(delta) => s' == s.(now := s.now + delta)
       case Stop => s' == s.(pc := Stopped)
       case ReceiveSignal => Enabled(s, a) && EvaluatorNext(s, a, s')
       case ReadDeadline => Enabled(s, a) && EvaluatorNext(s, a, s')
       case Compare => Enabled(s, a) && EvaluatorNext(s, a, s')
       case StartTimer => Enabled(s, a) && EvaluatorNext(s, a, s')
       case Fire => Enabled(s, a) && EvaluatorNext(s, a, s')
       case Evaluate => Enabled(s, a) && EvaluatorNext(s, a, s')
       case _ => RunnerNext(config, s, a, s')
  }

  /** The state `start` begins from, right after `FinishBoot`: without a staleness limit, which is the
      default, there is no evaluator. */
  ghost predicate Init(config: map<string, RunnerConfig>, s: System) {
    && StoreInv(s.store) && !s.store.booting
    && (if s.store.maxStaleness > 0 then s.store.signal && s.pc == Idle else s.pc == Stopped)
    && s.timer == None && s.applied == 0
    && s.runners.Keys == config.Keys
    && forall name :: name in config ==>
         name in s.store.states && s.store.states[name].reloadable
         && s.runners[name] == Runner(Waiting(s.now + config[name].interval), false, false)
  }

  ghost predicate Run(config: map<string, RunnerConfig>, trace: seq<System>, actions: seq<Action>) {
    && |trace| == |actions| + 1
    && Init(config, trace[0])
    && forall k :: 0 <= k < |actions| ==> Next(config, trace[k], actions[k], trace[k + 1])
  }

  // ---------------------------------------------------------------- the protocol invariant

  /** The evaluator's timer stands for the published deadline. */
  ghost predicate TimerMatches(s: System) {
    if s.store.deadlineArmed then
      s.timer.Some? && s.timer.value.after == Until(s.store.deadlineAt, s.timer.value.readAt)
    else s.timer.None?
  }

  ghost predicate EvaluatorInv(s: System) {
    && s.applied <= s.store.deadlineVersion
    && (s.timer.Some? ==> s.timer.value.readAt <= s.timer.value.startedAt <= s.now)
    && (s.applied == s.store.deadlineVersion && (s.pc.Idle? || s.pc.Woken? || s.pc.Read?) ==> TimerMatches(s))
    && match s.pc
       case Idle => !s.store.signal ==> s.applied == s.store.deadlineVersion
       case Read(deadline, armed, version) =>
         && s.applied <= version <= s.store.deadlineVersion
         && (!s.store.signal ==> version == s.store.deadlineVersion)
         && (version == s.store.deadlineVersion ==>
               deadline == s.store.deadlineAt && armed == s.store.deadlineArmed)
       case Arming(readAt, after) =>
         && readAt <= s.now
         && (!s.store.signal ==> s.applied == s.store.deadlineVersion)
         && (s.applied == s.store.deadlineVersion ==>
               s.store.deadlineArmed && after == Until(s.store.deadlineAt, readAt))
       case Fired => s.timer.None?
       case _ => true
  }

  ghost predicate Inv(s: System) {
    && StoreInv(s.store) && !s.store.booting
    && if s.store.maxStaleness > 0 then EvaluatorInv(s) else s.pc.Stopped?
  }

  lemma CommitKeepsInv(s: System, name: string, r: Runner, s': System, ok: bool)
    requires Inv(s) && r.pc.Loaded? && Commits(s, name, r, s', ok)
    ensures Inv(s')
    ensures s'.store.order == s.store.order && s'.store.states.Keys == s.store.states.Keys
    ensures s'.store.maxStaleness == s.store.maxStaleness
    ensures forall other :: other in s.store.states && other != name ==>
              s'.store.states[other] == s.store.states[other]
    ensures ok ==> name in s.store.states && s'.store.states[name].loadedAt == r.pc.at
                   && !s'.store.states[name].excluded && s'.store.states[name].contribution.Some?
    ensures name in s.store.states ==> s'.store.states[name].reloadable == s.store.states[name].reloadable
  {
    match r.pc.outcome
    case Failed =>
    case Unchanged => KeyComposition.TouchKeepsInv(s.store, name, r.pc.at, s'.store, ok);
    case Fetched(c) => KeyComposition.InstallKeepsInv(s.store, name, Some(c), r.pc.at, s'.store, ok);
  }

  /** Every step, of whichever party, keeps the invariant, with a staleness limit and without. */
  lemma NextKeepsInv(config: map<string, RunnerConfig>, s: System, a: Action, s': System)
    requires Inv(s) && Next(config, s, a, s')
    ensures Inv(s') && s'.store.maxStaleness == s.store.maxStaleness
  {
    match a
    case Commit(name) =>
      var ok :| Commits(s, name, s.runners[name], s', ok);
      CommitKeepsInv(s, name, s.runners[name], s', ok);
    case Evaluate => EvaluationKeepsInv(s, s');
    case ReceiveSignal => BookkeepingKeepsInv(s, a, s');
    case ReadDeadline => BookkeepingKeepsInv(s, a, s');
    case Compare => BookkeepingKeepsInv(s, a, s');
    case StartTimer => BookkeepingKeepsInv(s, a, s');
    case Fire => BookkeepingKeepsInv(s, a, s');
    case _ => AgingKeepsInv(s, s');
  }

  /** A step of the evaluator that changes no source. */
  lemma BookkeepingKeepsInv(s: System, a: Action, s': System)
    requires Inv(s) && Enabled(s, a) && !a.Evaluate? && EvaluatorNext(s, a, s')
    ensures Inv(s') && s'.store.maxStaleness == s.store.maxStaleness
  {
  }

  /** A step that leaves the store and the evaluator alone, except that the clock may advance and the
      evaluator may stop. */
  lemma AgingKeepsInv(s: System, s': System)
    requires Inv(s) && s'.store == s.store && s'.timer == s.timer && s'.applied == s.applied && s'.now >= s.now
    requires s'.pc == s.pc || s'.pc.Stopped?
    ensures Inv(s')
  {
  }

  lemma EvaluationKeepsInv(s: System, s': System)
    requires Inv(s) && s.pc.Fired? && EvaluatorNext(s, Evaluate, s')
    ensures Inv(s') && s'.store.maxStaleness == s.store.maxStaleness
  {
    KeyComposition.EvaluateKeepsInv(s.store, s.now, s'.store);
  }

  /** In every reachable state of every interleaving the invariant holds: in particular the published
      map is the composition and, under a staleness limit, the published deadline the earliest one. */
  lemma {:induction false} RunKeepsInv(config: map<string, RunnerConfig>, trace: seq<System>, actions: seq<Action>)
    requires Run(config, trace, actions)
    ensures Inv(trace[|actions|]) && trace[|actions|].store.maxStaleness == trace[0].store.maxStaleness
  {
    if actions != [] {
      var k := |actions| - 1;
      RunKeepsInv(config, trace[..k + 1], actions[..k]);
      NextKeepsInv(config, trace[k], actions[k], trace[k + 1]);
    }
  }
}
