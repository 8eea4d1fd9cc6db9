/**
 What the staleness protocol guarantees: no wakeup is lost, the evaluator settles
 in a bounded number of steps with exactly the overdue sources excluded, and a
 healthy source is never excluded.
 */
module StalenessTheorems {
  import opened Basics
  import opened KeyModel
  import opened StalenessProtocol
  import KeyComposition

  /** The time that passed between the evaluator's clock reading and the timer it then started. */
  function Lag(s: System): int {
    if s.timer.Some? then s.timer.value.startedAt - s.timer.value.readAt else 0
  }

  ghost predicate OverdueBy(s: System, name: string, lag: int) {
    && name in s.store.states
    && Watched(s.store.states[name])
    && s.store.states[name].loadedAt + s.store.maxStaleness + lag <= s.now
  }

  ghost predicate Quiet(s: System) {
    s.pc.Idle? && !s.store.signal && !TimerExpired(s)
  }

  /** No lost wakeup: in every reachable state of every interleaving, an evaluator with nothing to
      receive and no expired timer means every watched source is younger than the limit, give or
      take the time that passed while the timer was being started. */
  lemma IdleEvaluatorMeansFresh(config: map<string, RunnerConfig>, trace: seq<System>, actions: seq<Action>,
                                name: string)
    requires Run(config, trace, actions) && Quiet(trace[|actions|])
    ensures !OverdueBy(trace[|actions|], name, Lag(trace[|actions|]))
  {
    RunKeepsInv(config, trace, actions);
    QuietMeansFresh(trace[|actions|], name);
  }

  lemma QuietMeansFresh(s: System, name: string)
    requires Inv(s) && Quiet(s)
    ensures !OverdueBy(s, name, Lag(s))
  {
    assert name in s.store.states && Watched(s.store.states[name]) ==>
        s.store.deadlineArmed && s.store.deadlineAt <= s.store.states[name].loadedAt + s.store.maxStaleness;
  }

  /** The system after a step `Tick(delta)`. */
  function Later(s: System, delta: nat): System {
    s.(now := s.now + delta)
  }

  /** When freshness is strict: a quiet evaluator that is left alone lets no source grow overdue before
      its timer wakes it, exactly when it started that timer at the instant it had read the clock. */
  lemma FreshExactlyWithoutLag(config: map<string, RunnerConfig>, trace: seq<System>, actions: seq<Action>)
    requires Run(config, trace, actions) && Quiet(trace[|actions|])
    ensures var s := trace[|actions|];
            (forall delta: nat :: Quiet(Later(s, delta)) ==> NoneOverdue(Later(s, delta))) <==> Lag(s) == 0
  {
    var s := trace[|actions|];
    RunKeepsInv(config, trace, actions);
    if Lag(s) == 0 {
      forall delta: nat | Quiet(Later(s, delta)) ensures NoneOverdue(Later(s, delta)) {
        QuietWithoutLag(Later(s, delta));
      }
    } else {
      var delta := LastQuietInstant(s);
      assert Quiet(Later(s, delta)) && !NoneOverdue(Later(s, delta));
    }
  }

  ghost predicate NoneOverdue(s: System) {
    forall name :: !OverdueBy(s, name, 0)
  }

  lemma QuietWithoutLag(s: System)
    requires Inv(s) && Quiet(s) && Lag(s) == 0
    ensures NoneOverdue(s)
  {
    forall name ensures !OverdueBy(s, name, 0) {
      QuietMeansFresh(s, name);
    }
  }

  /** A timer started late expires late by the lag, and the source due first is overdue just before. */
  lemma LastQuietInstant(s: System) returns (delta: nat)
    requires Inv(s) && Quiet(s) && Lag(s) != 0
    ensures Quiet(Later(s, delta)) && !NoneOverdue(Later(s, delta))
  {
    delta := s.timer.value.Expiry() - 1 - s.now;
    var name :| name in s.store.order && Watched(s.store.states[name])
                && s.store.deadlineAt == s.store.states[name].loadedAt + s.store.maxStaleness;
    assert OverdueBy(Later(s, delta), name, 0);
  }

  /** A store with one source, loaded at 1. */
  function OneStore(limit: nat, version: nat, signal: bool): StoreState {
    StoreState(["s"], map["s" := SourceState(Some([]), 1, false, true)], Some(Snapshot(1, 1, map[])), limit, false,
               1 + limit, true, version, signal)
  }

  lemma OneStoreIsRight(limit: nat, version: nat, signal: bool)
    requires limit > 0 && version >= 1
    ensures StoreInv(OneStore(limit, version, signal))
  {
    var m := OneStore(limit, version, signal);
    assert forall name :: name in m.order <==> name == "s";
    assert m.order[0] == "s" && Watched(m.states["s"]);
    assert Composed(m.order, m.states) == map[];
    assert IsEarliest(m.order, m.states, limit, 1 + limit);
  }

  /** That store under a limit of 10, with its runner waiting since boot. */
  function OneSource(now: Instant, signal: bool, pc: EvaluatorPc, timer: Option<Timer>, applied: nat): System {
    System(OneStore(10, 1, signal), now, pc, timer, applied, map["s" := Runner(Waiting(6), false, false)])
  }

  lemma DeadlineIsLearned(config: map<string, RunnerConfig>)
    ensures Next(config, OneSource(1, true, Idle, None, 0), ReceiveSignal, OneSource(1, false, Woken, None, 0))
    ensures Next(config, OneSource(1, false, Woken, None, 0), ReadDeadline,
                 OneSource(1, false, Read(11, true, 1), None, 0))
    ensures Next(config, OneSource(1, false, Read(11, true, 1), None, 0), Compare,
                 OneSource(1, false, Arming(1, 10), None, 1))
  {
    OneStoreIsRight(10, 1, true);
    OneStoreIsRight(10, 1, false);
  }

  lemma TimerStartsLate(config: map<string, RunnerConfig>, lag: nat, timer: Timer)
    requires timer == Timer(1, 1 + lag, 10)
    ensures Next(config, OneSource(1, false, Arming(1, 10), None, 1), Tick(lag),
                 OneSource(1 + lag, false, Arming(1, 10), None, 1))
    ensures Next(config, OneSource(1 + lag, false, Arming(1, 10), None, 1), StartTimer,
                 OneSource(1 + lag, false, Idle, Some(timer), 1))
    ensures Next(config, OneSource(1 + lag, false, Idle, Some(timer), 1), Tick(9),
                 OneSource(10 + lag, false, Idle, Some(timer), 1))
  {
    OneStoreIsRight(10, 1, false);
  }

  /** The lag cannot be left out: whatever time passes between the clock reading and the start of the
      timer, in some run a quiet evaluator leaves a source overdue by all of it but one instant. */
  lemma LagIsReached(lag: nat) returns (trace: seq<System>, actions: seq<Action>)
    requires lag > 0
    ensures Run(map["s" := RunnerConfig(5, 1)], trace, actions) && Quiet(trace[|actions|])
    ensures Lag(trace[|actions|]) == lag && OverdueBy(trace[|actions|], "s", lag - 1)
    ensures trace[0].store.maxStaleness == 10
  {
    var config, timer := map["s" := RunnerConfig(5, 1)], Timer(1, 1 + lag, 10);
    OneStoreIsRight(10, 1, true);
    DeadlineIsLearned(config);
    TimerStartsLate(config, lag, timer);
    trace := [OneSource(1, true, Idle, None, 0),
              OneSource(1, false, Woken, None, 0),
              OneSource(1, false, Read(11, true, 1), None, 0),
              OneSource(1, false, Arming(1, 10), None, 1),
              OneSource(1 + lag, false, Arming(1, 10), None, 1),
              OneSource(1 + lag, false, Idle, Some(timer), 1),
              OneSource(10 + lag, false, Idle, Some(timer), 1)];
    actions := [ReceiveSignal, ReadDeadline, Compare, Tick(lag), StartTimer, Tick(9)];
  }

  /** The same, forwards: while a source is overdue a running evaluator has an enabled step. */
  lemma OverdueSourceHasStep(config: map<string, RunnerConfig>, trace: seq<System>, actions: seq<Action>,
                             name: string)
    requires Run(config, trace, actions) && !trace[|actions|].pc.Stopped?
    requires OverdueBy(trace[|actions|], name, Lag(trace[|actions|]))
    ensures exists a :: Enabled(trace[|actions|], a)
  {
    var s := trace[|actions|];
    RunKeepsInv(config, trace, actions);
    match s.pc
    case Woken => assert Enabled(s, ReadDeadline);
    case Read(_, _, _) => assert Enabled(s, Compare);
    case Arming(_, _) => assert Enabled(s, StartTimer);
    case Fired => assert Enabled(s, Evaluate);
    case Idle =>
      if s.store.signal {
        assert Enabled(s, ReceiveSignal);
      } else {
        if Quiet(s) {
          QuietMeansFresh(s, name);
        }
        assert Enabled(s, Fire);
      }
  }

  // ---------------------------------------------------------------- enabled steps can be taken

  /** There is an earliest deadline as soon as some source is watched. */
  lemma {:induction false} EarliestExists(order: seq<string>, states: States, maxStaleness: int) returns (t: int)
    requires forall name :: name in order ==> name in states
    requires !NoneWatched(order, states)
    ensures IsEarliest(order, states, maxStaleness, t)
  {
    var last := |order| - 1;
    assert forall name :: name in order <==> name in order[..last] || name == order[last];
    if NoneWatched(order[..last], states) {
      t := states[order[last]].loadedAt + maxStaleness;
    } else {
      t := EarliestExists(order[..last], states, maxStaleness);
      if Watched(states[order[last]]) && states[order[last]].loadedAt + maxStaleness < t {
        t := states[order[last]].loadedAt + maxStaleness;
      }
    }
  }

  lemma ArmingIsPossible(m: StoreState) returns (m': StoreState)
    requires forall name :: name in m.order ==> name in m.states
    requires m.maxStaleness > 0 && !m.booting
    ensures Arms(m, m')
  {
    if NoneWatched(m.order, m.states) {
      m' := m.(deadlineAt := 0, deadlineArmed := false, deadlineVersion := m.deadlineVersion + 1, signal := true);
    } else {
      var t := EarliestExists(m.order, m.states, m.maxStaleness);
      m' := m.(deadlineAt := t, deadlineArmed := true, deadlineVersion := m.deadlineVersion + 1, signal := true);
    }
  }

  /** An enabled evaluator step is never blocked. */
  lemma EnabledStepCanBeTaken(s: System, a: Action) returns (s': System)
    requires Inv(s) && Enabled(s, a)
    ensures EvaluatorNext(s, a, s')
  {
    match a
    case ReceiveSignal => s' := s.(store := s.store.(signal := false), pc := Woken);
    case ReadDeadline => s' := s.(pc := Read(s.store.deadlineAt, s.store.deadlineArmed, s.store.deadlineVersion));
    case Compare =>
      if s.pc.version == s.applied {
        s' := s.(pc := Idle);
      } else if s.pc.armed {
        s' := s.(applied := s.pc.version, timer := None, pc := Arming(s.now, Until(s.pc.deadline, s.now)));
      } else {
        s' := s.(applied := s.pc.version, timer := None, pc := Idle);
      }
    case StartTimer => s' := s.(timer := Some(Timer(s.pc.readAt, s.now, s.pc.after)), pc := Idle);
    case Fire => s' := s.(timer := None, pc := Fired);
    case Evaluate =>
      var lapsed := s.store.(states := Lapsed(s.store.states, s.store.maxStaleness, s.now));
      var m': StoreState;
      if exists name :: name in s.store.states && Overdue(s.store.states[name], s.store.maxStaleness, s.now) {
        m' := ArmingIsPossible(lapsed.(snapshot := Some(NextSnapshot(lapsed))));
      } else {
        m' := ArmingIsPossible(lapsed);
      }
      s' := s.(store := m', pc := Idle);
    case _ => assert false;
      s' := s;
  }

  // ---------------------------------------------------------------- the evaluator settles

  /** Some deadline the evaluator knows or could learn has passed. */
  ghost predicate Due(s: System) {
    || s.pc.Fired?
    || TimerExpired(s)
    || (s.store.deadlineArmed && s.store.deadlineAt <= s.now)
    || (s.pc.Read? && s.pc.armed && s.pc.deadline <= s.now)
    || (s.pc.Arming? && s.pc.after == 0)
  }

  ghost function Rank(s: System): (r: nat)
    ensures r <= 19
  {
    (if Due(s) then 10 else 0)
    + (if s.store.signal then 5 else 0)
    + match s.pc
      case Idle => 1
      case Woken => 4
      case Read(_, _, _) => 3
      case Arming(_, _) => 2
      case Fired => 0
      case Stopped => 0
  }

  /** Every evaluator step at a fixed time brings the evaluator closer to rest. */
  lemma EvaluatorStepDescends(s: System, a: Action, s': System)
    requires Inv(s) && Enabled(s, a) && EvaluatorNext(s, a, s')
    ensures Inv(s') && Rank(s') < Rank(s) && s'.now == s.now
    ensures s'.store.order == s.store.order && s'.store.maxStaleness == s.store.maxStaleness
    ensures s'.store.states == s.store.states
            || s'.store.states == Lapsed(s.store.states, s.store.maxStaleness, s.now)
  {
    NextKeepsInv(map[], s, a, s');
    if a.Evaluate? {
      EvaluationClearsDue(s, s');
    }
  }

  lemma EvaluationClearsDue(s: System, s': System)
    requires Inv(s) && s.pc.Fired? && EvaluatorNext(s, Evaluate, s')
    ensures !Due(s') && s'.store.order == s.store.order && s'.store.maxStaleness == s.store.maxStaleness
    ensures s'.store.states == Lapsed(s.store.states, s.store.maxStaleness, s.now)
  {
    EvaluationPutsDeadlineAhead(s.store, s.now, s'.store);
  }

  lemma EvaluationPutsDeadlineAhead(m: StoreState, now: Instant, m': StoreState)
    requires StoreInv(m) && !m.booting && m.maxStaleness > 0 && Evaluates(m, now, m')
    ensures m'.order == m.order && m'.maxStaleness == m.maxStaleness
    ensures m'.states == Lapsed(m.states, m.maxStaleness, now)
    ensures m'.deadlineArmed ==> m'.deadlineAt > now
  {
    KeyComposition.EvaluateKeepsInv(m, now, m');
    NoneOverdueAfterLapse(m.states, m.maxStaleness, now);
    if m'.deadlineArmed {
      ArmedDeadlineIsAhead(m', now);
    }
  }

  lemma NoneOverdueAfterLapse(states: States, maxStaleness: int, now: Instant)
    ensures forall name :: name in states ==> !Overdue(Lapsed(states, maxStaleness, now)[name], maxStaleness, now)
  {
  }

  lemma ArmedDeadlineIsAhead(m: StoreState, now: Instant)
    requires Registered(m.order, m.states) && m.deadlineArmed && DeadlineIsCurrent(m)
    requires forall name :: name in m.states ==> !Overdue(m.states[name], m.maxStaleness, now)
    ensures m.deadlineAt > now
  {
  }

  /** A burst: the evaluator alone takes steps while the clock stands still. */
  ghost predicate Burst(trace: seq<System>, actions: seq<Action>) {
    && |trace| == |actions| + 1
    && forall k :: 0 <= k < |actions| ==>
         Enabled(trace[k], actions[k]) && Registered(trace[k].store.order, trace[k].store.states)
         && EvaluatorNext(trace[k], actions[k], trace[k + 1])
  }

  lemma {:induction false} BurstDescends(trace: seq<System>, actions: seq<Action>)
    requires Burst(trace, actions) && Inv(trace[0])
    ensures Inv(trace[|actions|]) && |actions| + Rank(trace[|actions|]) <= Rank(trace[0])
    ensures trace[|actions|].now == trace[0].now
    ensures trace[|actions|].store.maxStaleness == trace[0].store.maxStaleness
    ensures trace[|actions|].store.states == trace[0].store.states
            || trace[|actions|].store.states
               == Lapsed(trace[0].store.states, trace[0].store.maxStaleness, trace[0].now)
  {
    if actions != [] {
      var k := |actions| - 1;
      BurstDescends(trace[..k + 1], actions[..k]);
      EvaluatorStepDescends(trace[k], actions[k], trace[k + 1]);
      LapsedTwice(trace[0].store.states, trace[0].store.maxStaleness, trace[0].now);
    }
  }

  lemma LapsedTwice(states: States, maxStaleness: int, now: Instant)
    ensures Lapsed(Lapsed(states, maxStaleness, now), maxStaleness, now) == Lapsed(states, maxStaleness, now)
  {
  }

  /** From any reachable state the evaluator rests after at most 19 steps of its own.  By then it has taken
      out of service nothing or exactly the overdue sources.  Once it rests, no source overdue by more
      than the lag of its timer is left in service; and without a lag exactly the overdue ones are out. */
  lemma EvaluatorSettles(config: map<string, RunnerConfig>, past: seq<System>, history: seq<Action>,
                         trace: seq<System>, actions: seq<Action>)
    requires Run(config, past, history) && Burst(trace, actions) && trace[0] == past[|history|]
    ensures |actions| <= 19
    ensures var first, last := trace[0], trace[|actions|];
            && (last.store.states == first.store.states
                || last.store.states == Lapsed(first.store.states, first.store.maxStaleness, first.now))
            && (Quiet(last) ==> forall name :: !OverdueBy(last, name, Lag(last)))
            && (Quiet(last) && Lag(last) == 0 ==>
                  last.store.states == Lapsed(first.store.states, first.store.maxStaleness, first.now))
  {
    RunKeepsInv(config, past, history);
    BurstDescends(trace, actions);
    var last := trace[|actions|];
    if Quiet(last) {
      forall name ensures !OverdueBy(last, name, Lag(last)) {
        QuietMeansFresh(last, name);
      }
      assert Lag(last) == 0 ==> forall name :: name in last.store.states && Watched(last.store.states[name]) ==>
          !OverdueBy(last, name, 0);
    }
  }

  // ---------------------------------------------------------------- publications

  ghost predicate PublishesAtMostOnce(m: StoreState, m': StoreState) {
    && m.snapshot.Some? && m'.snapshot.Some?
    && (m'.snapshot == m.snapshot || m'.snapshot.value.generation == m.snapshot.value.generation + 1)
  }

  lemma CommitPublishesAtMostOnce(s: System, name: string, r: Runner, s': System, ok: bool)
    requires Inv(s) && r.pc.Loaded? && Commits(s, name, r, s', ok)
    ensures PublishesAtMostOnce(s.store, s'.store)
  {
  }

  /** A step either leaves the snapshot alone or publishes a new one exactly one generation on;
      either way the map in force is the composition of the sources as they now are. */
  lemma StepPublishesOneGeneration(config: map<string, RunnerConfig>, s: System, a: Action, s': System)
    requires Inv(s) && Next(config, s, a, s')
    ensures Inv(s') && PublishesAtMostOnce(s.store, s'.store)
    ensures s'.store.snapshot.value.byDigest == Composed(s'.store.order, s'.store.states)
  {
    NextKeepsInv(config, s, a, s');
    match a {
      case Commit(name) =>
        var ok :| Commits(s, name, s.runners[name], s', ok);
        CommitPublishesAtMostOnce(s, name, s.runners[name], s', ok);
      case Evaluate => EvaluationPublishesAtMostOnce(s.store, s.now, s'.store);
      case _ => assert s'.store.snapshot == s.store.snapshot;
    }
  }

  lemma EvaluationPublishesAtMostOnce(m: StoreState, now: Instant, m': StoreState)
    requires StoreInv(m) && !m.booting && Evaluates(m, now, m')
    ensures PublishesAtMostOnce(m, m')
  {
  }

  // ---------------------------------------------------------------- a healthy source is never excluded

  /** The store will accept what the load of `h` produced. */
  ghost predicate Acceptable(s: System, h: string, outcome: LoadOutcome)
    requires h in s.store.states
  {
    match outcome
    case Failed => false
    case Unchanged => s.store.states[h].contribution.Some?
    case Fetched(c) => Installable(Some(c))
  }

  /** Ideal conditions for `h`: its timer, its finished load and its reset are served at once, its
      loads end within the timeout, and every load yields something the store accepts. */
  ghost predicate Ideal(config: map<string, RunnerConfig>, h: string, s: System, a: Action) {
    && h in s.runners && h in config && h in s.store.states
    && match a
       case Tick(delta) =>
         (match s.runners[h].pc
          case Waiting(expiry) => s.now + delta <= expiry
          case Loading(since) => s.now + delta <= since + config[h].timeout
          case Loaded(_, _) => delta == 0
          case Resetting => delta == 0)
       case LoadDone(name, outcome) =>
         (name == h ==> Acceptable(s, h, outcome))
       case _ => true
  }

  ghost predicate Fresh(s: System, h: string) {
    && h in s.store.states
    && !s.store.states[h].excluded
    && s.now < s.store.states[h].loadedAt + s.store.maxStaleness
  }

  ghost predicate HealthyInv(config: map<string, RunnerConfig>, h: string, s: System) {
    && h in s.runners && h in config && h in s.store.states
    && config[h].interval + config[h].timeout < s.store.maxStaleness
    && var r, loadedAt := s.runners[h], s.store.states[h].loadedAt;
       && (match r.pc
           case Waiting(expiry) => s.now <= expiry && (r.refreshed ==> expiry <= loadedAt + config[h].interval)
           case Loading(since) =>
             && since <= s.now <= since + config[h].timeout
             && (r.refreshed ==> since <= loadedAt + config[h].interval)
           case Loaded(outcome, at) =>
             && at == s.now
             && (r.refreshed ==> at <= loadedAt + config[h].interval + config[h].timeout)
             && Acceptable(s, h, outcome)
           case Resetting => r.refreshed ==> s.now == loadedAt)
       && (r.refreshed ==> !s.store.states[h].excluded)
  }

  /** `h` has neither moved nor aged: a step of somebody else, or of the evaluator's bookkeeping. */
  lemma UntouchedStaysHealthy(config: map<string, RunnerConfig>, h: string, s: System, s': System)
    requires HealthyInv(config, h, s) && s'.now == s.now && s'.store.maxStaleness == s.store.maxStaleness
    requires h in s'.runners && s'.runners[h].pc == s.runners[h].pc && s'.runners[h].refreshed == s.runners[h].refreshed
    requires h in s'.store.states && s'.store.states[h] == s.store.states[h]
    ensures HealthyInv(config, h, s')
  {
  }

  lemma HealthyTick(config: map<string, RunnerConfig>, h: string, s: System, delta: nat)
    requires HealthyInv(config, h, s) && Ideal(config, h, s, Tick(delta))
    ensures HealthyInv(config, h, Later(s, delta))
  {
  }

  /** An own step of `h` that does not reach the store. */
  lemma HealthyOwnStep(config: map<string, RunnerConfig>, h: string, s: System, a: Action, s': System)
    requires Inv(s) && HealthyInv(config, h, s) && Ideal(config, h, s, a)
    requires (a.Kick? || a.WakeByTimer? || a.WakeByTrigger? || a.LoadDone? || a.ResetTimer?) && a.name == h
    requires RunnerNext(config, s, a, s')
    ensures HealthyInv(config, h, s')
  {
  }

  lemma HealthyEvaluation(config: map<string, RunnerConfig>, h: string, s: System, s': System)
    requires Inv(s) && HealthyInv(config, h, s) && s.pc.Fired? && EvaluatorNext(s, Evaluate, s')
    ensures HealthyInv(config, h, s')
  {
    KeyComposition.EvaluateKeepsInv(s.store, s.now, s'.store);
    assert s'.store.states[h] == LapsedState(s.store.states[h], s.store.maxStaleness, s.now);
    if s.runners[h].refreshed {
      HealthyIsNotOverdue(config, h, s);
      UntouchedStaysHealthy(config, h, s, s');
    } else {
      LapseBeforeRefresh(config, h, s, s');
    }
  }

  /** Before its first refresh `h` may leave service; its next load is accepted all the same. */
  lemma LapseBeforeRefresh(config: map<string, RunnerConfig>, h: string, s: System, s': System)
    requires HealthyInv(config, h, s) && !s.runners[h].refreshed && s'.now == s.now && s'.runners == s.runners
    requires s'.store.maxStaleness == s.store.maxStaleness && h in s'.store.states
    requires s'.store.states[h] == s.store.states[h].(excluded := s'.store.states[h].excluded)
    ensures HealthyInv(config, h, s')
  {
  }

  lemma HealthyIsNotOverdue(config: map<string, RunnerConfig>, h: string, s: System)
    requires HealthyInv(config, h, s) && s.runners[h].refreshed
    ensures !Overdue(s.store.states[h], s.store.maxStaleness, s.now)
  {
  }

  lemma HealthyStep(config: map<string, RunnerConfig>, h: string, s: System, a: Action, s': System)
    requires Inv(s) && HealthyInv(config, h, s) && Next(config, s, a, s') && Ideal(config, h, s, a)
    ensures HealthyInv(config, h, s')
  {
    match a
    case Tick(delta) => HealthyTick(config, h, s, delta);
    case Commit(name) =>
      var ok :| Commits(s, name, s.runners[name], s', ok);
      HealthyCommit(config, h, s, name, s', ok);
    case Evaluate => HealthyEvaluation(config, h, s, s');
    case Kick(name) => HealthyRunnerStep(config, h, s, a, s');
    case WakeByTimer(name) => HealthyRunnerStep(config, h, s, a, s');
    case WakeByTrigger(name) => HealthyRunnerStep(config, h, s, a, s');
    case LoadDone(name, _) => HealthyRunnerStep(config, h, s, a, s');
    case ResetTimer(name) => HealthyRunnerStep(config, h, s, a, s');
    case _ => UntouchedStaysHealthy(config, h, s, s');
  }

  lemma HealthyRunnerStep(config: map<string, RunnerConfig>, h: string, s: System, a: Action, s': System)
    requires Inv(s) && HealthyInv(config, h, s) && Ideal(config, h, s, a)
    requires a.Kick? || a.WakeByTimer? || a.WakeByTrigger? || a.LoadDone? || a.ResetTimer?
    requires RunnerNext(config, s, a, s')
    ensures HealthyInv(config, h, s')
  {
    if a.name == h {
      HealthyOwnStep(config, h, s, a, s');
    } else {
      UntouchedStaysHealthy(config, h, s, s');
    }
  }

  lemma HealthyCommit(config: map<string, RunnerConfig>, h: string, s: System, name: string, s': System, ok: bool)
    requires Inv(s) && HealthyInv(config, h, s) && name in s.runners && s.runners[name].pc.Loaded?
    requires Commits(s, name, s.runners[name], s', ok)
    ensures HealthyInv(config, h, s')
  {
    match s.runners[name].pc.outcome
    case Failed =>
    case Unchanged => KeyComposition.TouchKeepsInv(s.store, name, s.runners[name].pc.at, s'.store, ok);
    case Fetched(c) => KeyComposition.InstallKeepsInv(s.store, name, Some(c), s.runners[name].pc.at, s'.store, ok);
  }

  /** Whatever the other sources, the evaluator and the kicks do: under ideal conditions for `h`, with
      a limit above its interval plus timeout, `h` is in service and younger than the limit in every
      state from its first refresh on. */
  lemma {:induction false} HealthyRun(config: map<string, RunnerConfig>, h: string,
                                      trace: seq<System>, actions: seq<Action>)
    requires Run(config, trace, actions) && h in config
    requires config[h].interval + config[h].timeout < trace[0].store.maxStaleness
    requires forall k :: 0 <= k < |actions| ==> Ideal(config, h, trace[k], actions[k])
    ensures HealthyInv(config, h, trace[|actions|])
    ensures trace[|actions|].runners[h].refreshed ==> Fresh(trace[|actions|], h)
  {
    if actions != [] {
      var k := |actions| - 1;
      HealthyRun(config, h, trace[..k + 1], actions[..k]);
      RunKeepsInv(config, trace[..k + 1], actions[..k]);
      HealthyStep(config, h, trace[k], actions[k], trace[k + 1]);
    }
  }

  // ---------------------------------------------------------------- the bound is the right one

  /** The one source, its evaluator not yet woken, at `now`. */
  function Racing(limit: nat, version: nat, now: Instant, runner: Runner): System {
    System(OneStore(limit, version, true), now, Idle, None, 0, map["s" := runner])
  }

  /** One step under ideal conditions for the source. */
  ghost predicate IdealStep(config: map<string, RunnerConfig>, s: System, a: Action, s': System) {
    Next(config, s, a, s') && Ideal(config, "s", s, a)
  }

  /** A kick right after boot leads to a first refresh in no time. */
  lemma FirstRefresh(config: map<string, RunnerConfig>, limit: nat)
    requires limit > 0 && "s" in config
    ensures var expiry := 1 + config["s"].interval;
            && IdealStep(config, Racing(limit, 1, 1, Runner(Waiting(expiry), false, false)), Kick("s"),
                         Racing(limit, 1, 1, Runner(Waiting(expiry), true, false)))
            && IdealStep(config, Racing(limit, 1, 1, Runner(Waiting(expiry), true, false)), WakeByTrigger("s"),
                         Racing(limit, 1, 1, Runner(Loading(1), false, false)))
            && IdealStep(config, Racing(limit, 1, 1, Runner(Loading(1), false, false)), LoadDone("s", Unchanged),
                         Racing(limit, 1, 1, Runner(Loaded(Unchanged, 1), false, false)))
  {
    OneStoreIsRight(limit, 1, true);
  }

  lemma FirstCommit(config: map<string, RunnerConfig>, limit: nat)
    requires limit > 0 && "s" in config
    ensures IdealStep(config, Racing(limit, 1, 1, Runner(Loaded(Unchanged, 1), false, false)), Commit("s"),
                      Racing(limit, 2, 1, Runner(Resetting, false, true)))
    ensures IdealStep(config, Racing(limit, 2, 1, Runner(Resetting, false, true)), ResetTimer("s"),
                      Racing(limit, 2, 1, Runner(Waiting(1 + config["s"].interval), false, true)))
  {
    OneStoreIsRight(limit, 1, true);
    OneStoreIsRight(limit, 2, true);
    var s, s' := Racing(limit, 1, 1, Runner(Loaded(Unchanged, 1), false, false)),
                 Racing(limit, 2, 1, Runner(Resetting, false, true));
    assert Confirmed(s.store, "s", 1) == s.store;
    assert Arms(s.store, s'.store);
    assert Commits(s, "s", s.runners["s"], s', true);
  }

  /** Waiting out the interval and then loading for `rest` is ideal, too. */
  lemma SlowLoad(config: map<string, RunnerConfig>, limit: nat, wait: nat, rest: nat)
    requires limit > 0 && "s" in config && wait <= config["s"].interval && rest <= config["s"].timeout
    ensures var expiry := 1 + config["s"].interval;
            && IdealStep(config, Racing(limit, 2, 1, Runner(Waiting(expiry), false, true)), Tick(wait),
                         Racing(limit, 2, 1 + wait, Runner(Waiting(expiry), false, true)))
            && (wait == config["s"].interval ==>
                  && IdealStep(config, Racing(limit, 2, 1 + wait, Runner(Waiting(expiry), false, true)),
                               WakeByTimer("s"), Racing(limit, 2, 1 + wait, Runner(Loading(1 + wait), false, true)))
                  && IdealStep(config, Racing(limit, 2, 1 + wait, Runner(Loading(1 + wait), false, true)), Tick(rest),
                               Racing(limit, 2, 1 + wait + rest, Runner(Loading(1 + wait), false, true))))
  {
    OneStoreIsRight(limit, 2, true);
  }

  ghost predicate IdealRun(config: map<string, RunnerConfig>, trace: seq<System>, actions: seq<Action>) {
    Run(config, trace, actions) && forall k :: 0 <= k < |actions| ==> Ideal(config, "s", trace[k], actions[k])
  }

  lemma ExtendIdealRun(config: map<string, RunnerConfig>, trace: seq<System>, actions: seq<Action>, a: Action,
                       s': System)
    requires IdealRun(config, trace, actions) && IdealStep(config, trace[|actions|], a, s')
    ensures IdealRun(config, trace + [s'], actions + [a])
  {
  }

  /** `HealthyRun` needs its bound: whenever interval plus load bound reach the limit, some run that is
      ideal for the source throughout lets it grow stale after a refresh. */
  lemma BoundIsTight(config: map<string, RunnerConfig>, limit: nat) returns (trace: seq<System>, actions: seq<Action>)
    requires config.Keys == {"s"} && 0 < limit <= config["s"].interval + config["s"].timeout
    ensures Run(config, trace, actions) && trace[0].store.maxStaleness == limit
    ensures forall k :: 0 <= k < |actions| ==> Ideal(config, "s", trace[k], actions[k])
    ensures "s" in trace[|actions|].runners && trace[|actions|].runners["s"].refreshed && !Fresh(trace[|actions|], "s")
  {
    var expiry := 1 + config["s"].interval;
    var wait := if limit <= config["s"].interval then limit else config["s"].interval;
    trace, actions := RefreshedRun(config, limit);
    SlowLoad(config, limit, wait, limit - wait);
    var s := Racing(limit, 2, 1 + wait, Runner(Waiting(expiry), false, true));
    ExtendIdealRun(config, trace, actions, Tick(wait), s);
    trace, actions := trace + [s], actions + [Tick(wait)];
    if wait < limit {
      var loading := Racing(limit, 2, 1 + wait, Runner(Loading(1 + wait), false, true));
      var late := Racing(limit, 2, 1 + limit, Runner(Loading(1 + wait), false, true));
      ExtendIdealRun(config, trace, actions, WakeByTimer("s"), loading);
      trace, actions := trace + [loading], actions + [WakeByTimer("s")];
      ExtendIdealRun(config, trace, actions, Tick(limit - wait), late);
      trace, actions := trace + [late], actions + [Tick(limit - wait)];
    }
  }

  lemma RacingBegins(config: map<string, RunnerConfig>, limit: nat, s: System)
    requires config.Keys == {"s"} && limit > 0
    requires s == Racing(limit, 1, 1, Runner(Waiting(1 + config["s"].interval), false, false))
    ensures IdealRun(config, [s], [])
  {
    OneStoreIsRight(limit, 1, true);
  }

  lemma ExtendTwice(config: map<string, RunnerConfig>, trace: seq<System>, actions: seq<Action>,
                    a: Action, s: System, b: Action, t: System)
    requires IdealRun(config, trace, actions)
    requires IdealStep(config, trace[|actions|], a, s) && IdealStep(config, s, b, t)
    ensures IdealRun(config, trace + [s] + [t], actions + [a] + [b])
  {
    ExtendIdealRun(config, trace, actions, a, s);
    ExtendIdealRun(config, trace + [s], actions + [a], b, t);
  }

  lemma LoadedRun(config: map<string, RunnerConfig>, limit: nat) returns (trace: seq<System>, actions: seq<Action>)
    requires config.Keys == {"s"} && limit > 0
    ensures IdealRun(config, trace, actions) && trace[0].store.maxStaleness == limit
    ensures trace[|actions|] == Racing(limit, 1, 1, Runner(Loaded(Unchanged, 1), false, false))
  {
    var expiry := 1 + config["s"].interval;
    var kicked, loading := Racing(limit, 1, 1, Runner(Waiting(expiry), true, false)),
                           Racing(limit, 1, 1, Runner(Loading(1), false, false));
    var loaded := Racing(limit, 1, 1, Runner(Loaded(Unchanged, 1), false, false));
    trace, actions := [Racing(limit, 1, 1, Runner(Waiting(expiry), false, false))], [];
    RacingBegins(config, limit, trace[0]);
    FirstRefresh(config, limit);
    ExtendTwice(config, trace, actions, Kick("s"), kicked, WakeByTrigger("s"), loading);
    trace, actions := trace + [kicked] + [loading], actions + [Kick("s")] + [WakeByTrigger("s")];
    ExtendIdealRun(config, trace, actions, LoadDone("s", Unchanged), loaded);
    trace, actions := trace + [loaded], actions + [LoadDone("s", Unchanged)];
  }

  lemma RefreshedRun(config: map<string, RunnerConfig>, limit: nat) returns (trace: seq<System>, actions: seq<Action>)
    requires config.Keys == {"s"} && limit > 0
    ensures IdealRun(config, trace, actions) && trace[0].store.maxStaleness == limit
    ensures trace[|actions|] == Racing(limit, 2, 1, Runner(Waiting(1 + config["s"].interval), false, true))
  {
    var resetting, waiting := Racing(limit, 2, 1, Runner(Resetting, false, true)),
                              Racing(limit, 2, 1, Runner(Waiting(1 + config["s"].interval), false, true));
    trace, actions := LoadedRun(config, limit);
    FirstCommit(config, limit);
    ExtendTwice(config, trace, actions, Commit("s"), resetting, ResetTimer("s"), waiting);
    trace, actions := trace + [resetting] + [waiting], actions + [Commit("s")] + [ResetTimer("s")];
  }

  // ---------------------------------------------------------------- no limit, no exclusion

  lemma UnlimitedStep(config: map<string, RunnerConfig>, s: System, a: Action, s': System, h: string)
    requires Inv(s) && s.store.maxStaleness <= 0 && Next(config, s, a, s') && h in s.store.states && h in s.runners
    requires s.runners[h].refreshed ==> !s.store.states[h].excluded
    ensures h in s'.store.states && h in s'.runners && (s'.store.states[h].excluded ==> s.store.states[h].excluded)
    ensures s'.runners[h].refreshed ==> !s'.store.states[h].excluded
  {
    if a.Commit? {
      var ok :| Commits(s, a.name, s.runners[a.name], s', ok);
      CommitKeepsInv(s, a.name, s.runners[a.name], s', ok);
    }
  }

  /** Without a staleness limit nothing is ever taken out of service: in every run a source in service at
      the start stays so, and a source that has refreshed is in service. */
  lemma {:induction false} UnlimitedRun(config: map<string, RunnerConfig>, trace: seq<System>, actions: seq<Action>,
                                        h: string)
    requires Run(config, trace, actions) && trace[0].store.maxStaleness <= 0 && h in config
    ensures var s := trace[|actions|];
            && h in s.store.states && h in s.runners
            && (s.store.states[h].excluded ==> trace[0].store.states[h].excluded)
            && (s.runners[h].refreshed ==> !s.store.states[h].excluded)
  {
    if actions != [] {
      var k := |actions| - 1;
      UnlimitedRun(config, trace[..k + 1], actions[..k], h);
      RunKeepsInv(config, trace[..k + 1], actions[..k]);
      UnlimitedStep(config, trace[k], actions[k], trace[k + 1], h);
    }
  }

  // ---------------------------------------------------------------- sources that do not reload

  lemma StaticStep(config: map<string, RunnerConfig>, s: System, a: Action, s': System, name: string)
    requires Inv(s) && Next(config, s, a, s') && name in s.store.states && !s.store.states[name].reloadable
    requires name !in s.runners
    ensures s'.runners.Keys == s.runners.Keys
    ensures name in s'.store.states && s'.store.states[name] == s.store.states[name]
  {
    if a.Commit? {
      var ok :| Commits(s, a.name, s.runners[a.name], s', ok);
      CommitKeepsInv(s, a.name, s.runners[a.name], s', ok);
    } else if a.Evaluate? {
      KeyComposition.EvaluationTakesOut(s.store, s.now, s'.store);
    }
  }

  /** In every run, under whatever limit and however much time passes, a source that does not reload keeps
      its records, its load time and its service exactly as boot left them. */
  lemma {:induction false} StaticSourceStays(config: map<string, RunnerConfig>, trace: seq<System>,
                                             actions: seq<Action>, name: string)
    requires Run(config, trace, actions)
    requires name in trace[0].store.states && !trace[0].store.states[name].reloadable
    ensures trace[|actions|].runners.Keys == config.Keys && name !in config
    ensures name in trace[|actions|].store.states
            && trace[|actions|].store.states[name] == trace[0].store.states[name]
  {
    if actions != [] {
      var k := |actions| - 1;
      StaticSourceStays(config, trace[..k + 1], actions[..k], name);
      RunKeepsInv(config, trace[..k + 1], actions[..k]);
      StaticStep(config, trace[k], actions[k], trace[k + 1], name);
    }
  }

  // ---------------------------------------------------------------- from boot to the protocol

  /** `FinishBoot` leaves the store ready for the protocol: published once and, under a limit, armed once
      and signalled. */
  lemma BootEndsReady(m: StoreState, m': StoreState)
    requires Consistent(m) && m.booting && Publishes(m.(booting := false), m')
    ensures StoreInv(m') && !m'.booting && m'.maxStaleness == m.maxStaleness
    ensures m'.snapshot == Some(Snapshot(1, 1, Composed(m.order, m.states)))
    ensures if m.maxStaleness > 0 then m'.signal && m'.deadlineVersion == 1
            else !m'.signal && m'.deadlineVersion == 0 && !m'.deadlineArmed
  {
    var open := m.(booting := false);
    assert Arms(open.(snapshot := Some(NextSnapshot(open))), m');
  }

  /** So runs exist: with a limit or without, the booted store with a runner for each reloadable source and
      the evaluator its limit calls for is where the protocol starts. */
  lemma BootedSystemIsInit(config: map<string, RunnerConfig>, m: StoreState, m': StoreState, s: System)
    requires Consistent(m) && m.booting && Publishes(m.(booting := false), m')
    requires forall name :: name in config ==> name in m.states && m.states[name].reloadable
    requires s == System(m', s.now, if m'.maxStaleness > 0 then Idle else Stopped, None, 0,
                         map name | name in config :: Runner(Waiting(s.now + config[name].interval), false, false))
    ensures Init(config, s) && Run(config, [s], [])
  {
    BootEndsReady(m, m');
    assert m'.states == m.states;
  }
}
