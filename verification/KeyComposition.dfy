/**
 What the composed snapshot means: precedence, exclusion as restriction, and the
 invariance of the published map under every run of exclusions and reinstatements.
 */
module KeyComposition {
  import opened Basics
  import opened KeyModel
  import KeyStore

  /** `order[i]` is the first registered source that holds `d`. */
  ghost predicate FirstHolder(order: seq<string>, states: States, d: Digest, i: int)
    requires forall name :: name in order ==> name in states
  {
    && 0 <= i < |order|
    && Holds(Held(states[order[i]]), d)
    && forall j :: 0 <= j < i ==> !Holds(Held(states[order[j]]), d)
  }

  ghost predicate UniqueDigests(records: seq<Record>) {
    forall i, j :: 0 <= i < j < |records| ==> records[i].digest != records[j].digest
  }

  lemma FirstHolderOfPrefix(order: seq<string>, states: States, d: Digest, i: int)
    requires order != [] && forall name :: name in order ==> name in states
    requires 0 <= i < |order| - 1
    ensures FirstHolder(order[..|order| - 1], states, d, i) <==> FirstHolder(order, states, d, i)
  {
    assert forall j :: 0 <= j < |order| - 1 ==> order[..|order| - 1][j] == order[j];
  }

  lemma {:induction false} FirstHolderWins(order: seq<string>, states: States, d: Digest, i: int)
    requires forall name :: name in order ==> name in states
    requires FirstHolder(order, states, d, i)
    ensures Winner(order, states, d) == Some(order[i])
  {
    var init := order[..|order| - 1];
    if i < |init| {
      FirstHolderOfPrefix(order, states, d, i);
      FirstHolderWins(init, states, d, i);
    } else {
      NoHolderNoWinner(init, states, d);
    }
  }

  lemma NoHolderNoWinner(order: seq<string>, states: States, d: Digest)
    requires forall name :: name in order ==> name in states && !Holds(Held(states[name]), d)
    ensures Winner(order, states, d).None?
  {
  }

  lemma {:induction false} WinnerHoldsFirst(order: seq<string>, states: States, d: Digest) returns (i: int)
    requires forall name :: name in order ==> name in states
    requires Winner(order, states, d).Some?
    ensures FirstHolder(order, states, d, i) && Winner(order, states, d).value == order[i]
  {
    var init := order[..|order| - 1];
    if Winner(init, states, d).Some? {
      i := WinnerHoldsFirst(init, states, d);
      FirstHolderOfPrefix(order, states, d, i);
    } else {
      i := |order| - 1;
      forall j | 0 <= j < i ensures !Holds(Held(states[order[j]]), d) {
        if Holds(Held(states[init[j]]), d) {
          KeyStore.HeldIsWon(init, states, j, d);
        }
      }
    }
  }

  /** The winner is exactly the first holder; without a holder there is no winner. */
  lemma WinnerIsFirstHolder(order: seq<string>, states: States, d: Digest)
    requires forall name :: name in order ==> name in states
    ensures Winner(order, states, d).Some? ==>
              exists i :: FirstHolder(order, states, d, i) && Winner(order, states, d).value == order[i]
    ensures forall i :: FirstHolder(order, states, d, i) ==> Winner(order, states, d) == Some(order[i])
  {
    if Winner(order, states, d).Some? {
      var i := WinnerHoldsFirst(order, states, d);
    }
    forall i | FirstHolder(order, states, d, i) ensures Winner(order, states, d) == Some(order[i]) {
      FirstHolderWins(order, states, d, i);
    }
  }

  /** A digest is served exactly when the first registered source that holds it is in service,
      and it is served with that source's record: with the only one it has when its digests are
      unique, and with the last one otherwise. */
  lemma ServedExactlyByFirstHolder(order: seq<string>, states: States, d: Digest)
    requires forall name :: name in order ==> name in states
    ensures d in Composed(order, states) <==>
              exists i :: FirstHolder(order, states, d, i) && !states[order[i]].excluded
    ensures forall i, r :: d in Composed(order, states) && FirstHolder(order, states, d, i)
                           && UniqueDigests(Held(states[order[i]])) && r in Held(states[order[i]]) && r.digest == d
              ==> Composed(order, states)[d] == r
    ensures forall i :: d in Composed(order, states) && FirstHolder(order, states, d, i)
              ==> Composed(order, states)[d] == LastRecord(Held(states[order[i]]), d)
  {
    WinnerIsFirstHolder(order, states, d);
    if Winner(order, states, d).Some? {
      WinnersRecord(Held(states[Winner(order, states, d).value]), d);
    }
  }

  lemma WinnersRecord(records: seq<Record>, d: Digest)
    requires Holds(records, d)
    ensures LastRecord(records, d) in records
    ensures UniqueDigests(records) ==> forall r :: r in records && r.digest == d ==> r == LastRecord(records, d)
  {
  }

  ghost predicate SameContributions(order: seq<string>, a: States, b: States) {
    forall name :: name in order ==> name in a && name in b && a[name].contribution == b[name].contribution
  }

  /** Composition under `b`'s service flags is `a`'s map restricted to winners still in service,
      whenever `b` excludes at least what `a` excludes. */
  lemma ExclusionRestricts(order: seq<string>, a: States, b: States)
    requires SameContributions(order, a, b)
    requires forall name :: name in order && a[name].excluded ==> b[name].excluded
    ensures Composed(order, b).Keys <= Composed(order, a).Keys
    ensures forall d :: d in Composed(order, b) ==> Composed(order, b)[d] == Composed(order, a)[d]
    ensures forall d :: d in Composed(order, a) && d !in Composed(order, b) ==>
              Winner(order, a, d).Some? && b[Winner(order, a, d).value].excluded
    ensures forall d :: d in Composed(order, a) && Winner(order, a, d).Some? && b[Winner(order, a, d).value].excluded
              ==> d !in Composed(order, b)
  {
    assert DigestsOf(order, a) == DigestsOf(order, b);
    forall d ensures Winner(order, a, d) == Winner(order, b, d) {
      KeyStore.SameContributionsSameWinner(order, a, b, d);
    }
  }

  // ---------------------------------------------------------------- the transitions keep the invariant

  lemma PublishKeepsInv(m: StoreState, m': StoreState)
    requires Consistent(m) && Publishes(m, m')
    ensures StoreInv(m') && m'.order == m.order && m'.states == m.states && m'.booting == m.booting
    ensures m'.maxStaleness == m.maxStaleness
  {
  }

  /** An installation keeps the store's invariant, and touches no other source. */
  lemma InstallKeepsInv(m: StoreState, source: string, c: Option<Contribution>, at: Instant, m': StoreState, ok: bool)
    requires StoreInv(m) && Installs(m, source, c, at, m', ok)
    ensures StoreInv(m') && m'.order == m.order && m'.booting == m.booting && m'.maxStaleness == m.maxStaleness
    ensures m'.states.Keys == m.states.Keys
    ensures forall name :: name in m.states && name != source ==> m'.states[name] == m.states[name]
    ensures ok ==> m'.states[source] ==
                   SourceState(Some(Owned(c.value.records, source)), at, false, m.states[source].reloadable)
  {
    if ok {
      PublishKeepsInv(WithContribution(m, source, c.value, at), m');
    }
  }

  /** A confirmation keeps the store's invariant and every contribution. */
  lemma TouchKeepsInv(m: StoreState, source: string, at: Instant, m': StoreState, ok: bool)
    requires StoreInv(m) && Touches(m, source, at, m', ok)
    ensures StoreInv(m') && m'.order == m.order && m'.booting == m.booting && m'.maxStaleness == m.maxStaleness
    ensures m'.states == if ok then Confirmed(m, source, at).states else m.states
  {
    if ok {
      if m.states[source].excluded {
        PublishKeepsInv(Confirmed(m, source, at), m');
      } else {
        KeyStore.ConfirmingInService(m, source, at);
        RearmKeepsInv(Confirmed(m, source, at), m');
      }
    }
  }

  /** What a store call accepts, and what it leaves alone when it refuses: a contribution must be there, of
      version 1 and without nil records, and its source registered; a source can be confirmed once it has one. */
  lemma StoreCallsDecide(m: StoreState, source: string, c: Option<Contribution>, at: Instant, m': StoreState, ok: bool)
    requires Registered(m.order, m.states)
    ensures Installs(m, source, c, at, m', ok) ==>
              && (ok <==> source in m.order && c.Some? && c.value.schemaVersion == 1 && None !in c.value.records)
              && (!ok ==> m' == m)
    ensures Touches(m, source, at, m', ok) ==>
              && (ok <==> source in m.order && m.states[source].contribution.Some?)
              && (!ok ==> m' == m)
              && (ok ==> m'.states == m.states[source := SourceState(m.states[source].contribution, at, false,
                                                                     m.states[source].reloadable)])
  {
    if c.Some? {
      assert forall j :: 0 <= j < |c.value.records| ==> c.value.records[j] in c.value.records;
    }
  }

  /** Rearming completes the invariant of a store whose snapshot is still its composition. */
  lemma RearmKeepsInv(m: StoreState, m': StoreState)
    requires Consistent(m) && Arms(m, m')
    requires !m.booting ==> m.snapshot.Some? && m.snapshot.value.schemaVersion == 1
                            && m.snapshot.value.byDigest == Composed(m.order, m.states)
    ensures StoreInv(m') && m'.order == m.order && m'.booting == m.booting && m'.maxStaleness == m.maxStaleness
    ensures m'.states == m.states
  {
  }

  /** An evaluation keeps the store's invariant and only ever sets `excluded` flags. */
  lemma EvaluateKeepsInv(m: StoreState, now: Instant, m': StoreState)
    requires StoreInv(m) && Evaluates(m, now, m')
    ensures StoreInv(m') && m'.order == m.order && m'.booting == m.booting && m'.maxStaleness == m.maxStaleness
    ensures m'.states == Lapsed(m.states, m.maxStaleness, now)
  {
    var lapsed := m.(states := Lapsed(m.states, m.maxStaleness, now));
    if exists name :: name in m.states && Overdue(m.states[name], m.maxStaleness, now) {
      PublishKeepsInv(lapsed, m');
    } else {
      assert lapsed.states == m.states;
    }
  }

  // ---------------------------------------------------------------- what staleness looks at

  /** An evaluation takes out of service exactly the sources that reload, hold a contribution, have been
      loaded and are as old as the limit, and touches nothing else of any source: a source that does not
      reload, such as the inline keys, stays as it was whatever its age. */
  lemma EvaluationTakesOut(m: StoreState, now: Instant, m': StoreState)
    requires Registered(m.order, m.states) && Evaluates(m, now, m')
    ensures m'.states.Keys == m.states.Keys
    ensures forall name :: name in m.states ==>
              m'.states[name] == m.states[name].(excluded := m'.states[name].excluded)
    ensures forall name :: name in m.states ==>
              (m'.states[name].excluded <==>
                 m.states[name].excluded
                 || (m.states[name].reloadable && m.states[name].contribution.Some? && m.states[name].loadedAt != 0
                     && m.states[name].loadedAt + m.maxStaleness <= now))
    ensures forall name :: name in m.states && !m.states[name].reloadable ==> m'.states[name] == m.states[name]
  {
    assert m'.states == Lapsed(m.states, m.maxStaleness, now);
  }

  /** The published deadline: armed exactly when some source in service reloads, holds a contribution and
      has been loaded, and then the earliest instant at which such a source reaches the limit. */
  lemma DeadlineIsOfReloadingSource(m: StoreState)
    requires StoreInv(m) && !m.booting && m.maxStaleness > 0
    ensures m.deadlineArmed <==>
              exists name :: name in m.order && m.states[name].reloadable && !m.states[name].excluded
                             && m.states[name].contribution.Some? && m.states[name].loadedAt != 0
    ensures m.deadlineArmed ==>
              exists name :: name in m.order && m.states[name].reloadable && !m.states[name].excluded
                             && m.states[name].contribution.Some? && m.states[name].loadedAt != 0
                             && m.deadlineAt == m.states[name].loadedAt + m.maxStaleness
    ensures forall name :: m.deadlineArmed && name in m.order && m.states[name].reloadable
                           && !m.states[name].excluded && m.states[name].contribution.Some?
                           && m.states[name].loadedAt != 0
              ==> m.deadlineAt <= m.states[name].loadedAt + m.maxStaleness
  {
    if m.deadlineArmed {
      var name :|
        name in m.order && Watched(m.states[name]) && m.deadlineAt == m.states[name].loadedAt + m.maxStaleness;
      assert m.states[name].reloadable;
    }
  }

  // ---------------------------------------------------------------- runs of exclusions and reinstatements

  datatype ServiceOp = Evaluate(now: Instant) | Touch(source: string, at: Instant)

  ghost predicate ServiceStep(m: StoreState, op: ServiceOp, m': StoreState) {
    && Registered(m.order, m.states)
    && match op
       case Evaluate(now) => Evaluates(m, now, m')
       case Touch(source, at) => exists ok :: Touches(m, source, at, m', ok)
  }

  ghost predicate ServiceRun(trace: seq<StoreState>, ops: seq<ServiceOp>) {
    && |trace| == |ops| + 1
    && forall k :: 0 <= k < |ops| ==> ServiceStep(trace[k], ops[k], trace[k + 1])
  }

  /** Along every run of evaluations and confirmations, in any order, the published map is the
      composition of the contributions the run began with, cut down to the sources in service. */
  lemma {:induction false} ServiceRunKeepsContributions(trace: seq<StoreState>, ops: seq<ServiceOp>)
    requires ServiceRun(trace, ops) && StoreInv(trace[0]) && !trace[0].booting
    ensures var last := trace[|ops|];
            && StoreInv(last) && !last.booting && last.order == trace[0].order
            && last.maxStaleness == trace[0].maxStaleness
            && SameContributions(last.order, trace[0].states, last.states)
  {
    if ops != [] {
      var k := |ops| - 1;
      ServiceRunKeepsContributions(trace[..|trace| - 1], ops[..k]);
      var m, m' := trace[k], trace[k + 1];
      assert ServiceStep(m, ops[k], m');
      match ops[k] {
        case Evaluate(now) => EvaluateKeepsInv(m, now, m');
        case Touch(source, at) =>
          var ok :| Touches(m, source, at, m', ok);
          TouchKeepsInv(m, source, at, m', ok);
      }
    }
  }

  /** However exclusions and reinstatements interleave, a run that ends with the service flags it
      began with publishes the map it began with. */
  lemma SameFlagsSameMap(trace: seq<StoreState>, ops: seq<ServiceOp>)
    requires ServiceRun(trace, ops) && StoreInv(trace[0]) && !trace[0].booting
    requires forall name :: name in trace[0].order && name in trace[|ops|].states ==>
               trace[|ops|].states[name].excluded == trace[0].states[name].excluded
    ensures trace[|ops|].snapshot.Some? && trace[|ops|].snapshot.value.byDigest == trace[0].snapshot.value.byDigest
  {
    ServiceRunKeepsContributions(trace, ops);
    KeyStore.SameServiceSameComposition(trace[0].order, trace[0].states, trace[|ops|].states);
  }

  /** Confirming every source an evaluation excluded, in any order and as often as one likes,
      restores the map published before the evaluation. */
  lemma ConfirmingRestores(trace: seq<StoreState>, ops: seq<ServiceOp>)
    requires ServiceRun(trace, ops) && StoreInv(trace[0]) && !trace[0].booting
    requires |ops| > 0 && ops[0].Evaluate?
    requires forall k :: 1 <= k < |ops| ==> ops[k].Touch?
    requires forall name :: name in trace[0].states && trace[0].states[name].excluded ==>
               forall k :: 1 <= k < |ops| ==> ops[k].source != name
    requires forall name :: name in trace[0].states && !trace[0].states[name].excluded && name in trace[1].states
                            && trace[1].states[name].excluded ==>
               exists k :: 1 <= k < |ops| && ops[k].source == name
    ensures trace[|ops|].snapshot.Some? && trace[|ops|].snapshot.value.byDigest == trace[0].snapshot.value.byDigest
  {
    ServiceRunKeepsContributions(trace, ops);
    assert ServiceStep(trace[0], ops[0], trace[1]);
    EvaluateKeepsInv(trace[0], ops[0].now, trace[1]);
    forall name | name in trace[0].order
      ensures trace[|ops|].states[name].excluded == trace[0].states[name].excluded
    {
      ConfirmedFlag(trace[1..], ops[1..], name);
      if exists k :: 1 <= k < |ops| && ops[k].source == name {
        var k :| 1 <= k < |ops| && ops[k].source == name;
        assert ops[1..][k - 1].source == name;
      }
    }
    SameFlagsSameMap(trace, ops);
  }

  /** After a run of confirmations a source is excluded iff it was before and none named it. */
  lemma {:induction false} ConfirmedFlag(trace: seq<StoreState>, ops: seq<ServiceOp>, name: string)
    requires ServiceRun(trace, ops) && StoreInv(trace[0]) && !trace[0].booting && name in trace[0].states
    requires forall k :: 0 <= k < |ops| ==> ops[k].Touch?
    ensures name in trace[|ops|].states
    ensures trace[|ops|].states[name].excluded <==>
              trace[0].states[name].excluded && forall k :: 0 <= k < |ops| ==> ops[k].source != name
  {
    if ops != [] {
      assert ServiceStep(trace[0], ops[0], trace[1]);
      TouchFlags(trace[0], ops[0].source, ops[0].at, trace[1]);
      ConfirmedFlag(trace[1..], ops[1..], name);
      assert forall k :: 1 <= k < |ops| ==> ops[k] == ops[1..][k - 1];
    }
  }

  lemma TouchFlags(m: StoreState, source: string, at: Instant, m': StoreState)
    requires StoreInv(m) && !m.booting && ServiceStep(m, Touch(source, at), m')
    ensures StoreInv(m') && !m'.booting && m'.states.Keys == m.states.Keys
    ensures forall name :: name in m.states ==>
              (m'.states[name].excluded <==> m.states[name].excluded && source != name)
  {
    var ok :| Touches(m, source, at, m', ok);
    TouchKeepsInv(m, source, at, m', ok);
  }
}
