/**
 The key store as an object.  Each method is one critical section; its contract
 says which transition of `KeyModel` it makes, and that the store's invariant survives.
 */
module KeyStore {
  import opened Basics
  import opened KeyModel

  lemma WinnerOfPrefix(order: seq<string>, states: States, i: nat, d: Digest)
    requires i < |order| && forall name :: name in order ==> name in states
    ensures Winner(order[..i + 1], states, d)
         == if Winner(order[..i], states, d).Some? then Winner(order[..i], states, d)
            else if Holds(Held(states[order[i]]), d) then Some(order[i]) else None
  {
    assert order[..i + 1][..i] == order[..i];
  }

  /** A winner found in a prefix of the order stays the winner. */
  lemma {:induction false} WinnerIsStable(order: seq<string>, states: States, i: nat, d: Digest)
    requires i <= |order| && forall name :: name in order ==> name in states
    requires Winner(order[..i], states, d).Some?
    ensures Winner(order, states, d) == Winner(order[..i], states, d)
    decreases |order| - i
  {
    if i == |order| {
      assert order[..i] == order;
    } else {
      WinnerOfPrefix(order, states, i, d);
      WinnerIsStable(order, states, i + 1, d);
    }
  }

  lemma HoldsOfPrefix(records: seq<Record>, j: nat, d: Digest)
    requires j < |records|
    ensures Holds(records[..j + 1], d) <==> Holds(records[..j], d) || records[j].digest == d
    ensures Holds(records[..j + 1], d) ==>
              LastRecord(records[..j + 1], d)
                == if records[j].digest == d then records[j] else LastRecord(records[..j], d)
  {
    assert records[..j + 1][..j] == records[..j];
    if Holds(records[..j], d) {
      var k :| 0 <= k < j && records[..j][k].digest == d;
      assert records[..j + 1][k].digest == d;
    }
    if records[j].digest == d {
      assert records[..j + 1][j].digest == d;
    }
  }

  lemma WinnerOfExtension(order: seq<string>, states: States, name: string, d: Digest)
    requires forall n :: n in order + [name] ==> n in states
    requires Held(states[name]) == []
    ensures Winner(order + [name], states, d) == Winner(order, states, d)
  {
    assert (order + [name])[..|order|] == order;
    assert (order + [name])[|order|] == name;
  }

  lemma DigestsOfExtension(order: seq<string>, states: States, name: string)
    requires forall n :: n in order + [name] ==> n in states
    requires Held(states[name]) == []
    ensures DigestsOf(order + [name], states) == DigestsOf(order, states)
  {
    assert forall n :: n in order + [name] <==> n in order || n == name;
  }

  lemma ComposedOfExtension(order: seq<string>, states: States, name: string)
    requires forall n :: n in order + [name] ==> n in states
    requires Held(states[name]) == []
    ensures Composed(order + [name], states) == Composed(order, states)
  {
    forall d ensures Winner(order + [name], states, d) == Winner(order, states, d) {
      WinnerOfExtension(order, states, name, d);
    }
    DigestsOfExtension(order, states, name);
  }

  /** A source that holds nothing yet changes no composition. */
  lemma NewSourceServesNothing(order: seq<string>, states: States, name: string, state: SourceState)
    requires Registered(order, states) && name !in states && state.contribution.None?
    ensures Registered(order + [name], states[name := state])
    ensures Composed(order + [name], states[name := state]) == Composed(order, states)
  {
    assert forall n :: n in order + [name] <==> n in order || n == name;
    ComposedOfExtension(order, states[name := state], name);
    SameServiceSameComposition(order, states[name := state], states);
  }

  ghost function WithSource(m: StoreState, name: string, reloadable: bool): StoreState {
    m.(order := m.order + [name], states := m.states[name := SourceState(None, 0, false, reloadable)])
  }

  lemma NewSourceKeepsDeadline(m: StoreState, name: string, reloadable: bool)
    requires Registered(m.order, m.states) && name !in m.states && DeadlineIsCurrent(m)
    ensures Registered(WithSource(m, name, reloadable).order, WithSource(m, name, reloadable).states)
    ensures DeadlineIsCurrent(WithSource(m, name, reloadable))
  {
    var states := m.states[name := SourceState(None, 0, false, reloadable)];
    assert forall n :: n in m.order + [name] <==> n in m.order || n == name;
    assert forall n :: n in m.order ==> states[n] == m.states[n];
    assert !Watched(states[name]);
  }

  lemma RegisteringKeepsInv(m: StoreState, name: string, reloadable: bool)
    requires StoreInv(m) && name !in m.states
    ensures StoreInv(WithSource(m, name, reloadable))
  {
    NewSourceServesNothing(m.order, m.states, name, SourceState(None, 0, false, reloadable));
    if !m.booting && m.maxStaleness > 0 {
      NewSourceKeepsDeadline(m, name, reloadable);
    }
  }

  /** After some records of `name`, `before` has grown by exactly those it is the winner for. */
  ghost predicate EmittedSoFar(order: seq<string>, states: States, name: string, records: seq<Record>,
                               before: map<Digest, Record>, next: map<Digest, Record>)
    requires forall n :: n in order ==> n in states
  {
    && (forall d :: d in next <==> d in before || (Holds(records, d) && Winner(order, states, d) == Some(name)))
    && (forall d :: d in next && d !in before ==> next[d] == LastRecord(records, d))
    && (forall d :: d in before ==> next[d] == before[d])
  }

  lemma EmissionStarts(order: seq<string>, states: States, name: string, before: map<Digest, Record>)
    requires forall n :: n in order ==> n in states
    ensures EmittedSoFar(order, states, name, [], before, before)
  {
  }

  lemma EmitOne(order: seq<string>, states: States, i: nat, j: nat, before: map<Digest, Record>,
                next: map<Digest, Record>)
    requires i < |order| && forall n :: n in order ==> n in states
    requires j < |Held(states[order[i]])|
    requires EmittedSoFar(order, states, order[i], Held(states[order[i]])[..j], before, next)
    requires forall d :: d in before ==> Winner(order, states, d) != Some(order[i])
    ensures var record := Held(states[order[i]])[j];
            && Winner(order, states, record.digest).Some?
            && EmittedSoFar(order, states, order[i], Held(states[order[i]])[..j + 1], before,
                            if Winner(order, states, record.digest).value == order[i]
                            then next[record.digest := record] else next)
  {
    var records := Held(states[order[i]]);
    assert Holds(records, records[j].digest);
    HeldIsWon(order, states, i, records[j].digest);
    forall d
      ensures Holds(records[..j + 1], d) <==> Holds(records[..j], d) || records[j].digest == d
      ensures Holds(records[..j + 1], d) ==>
                LastRecord(records[..j + 1], d)
                == if records[j].digest == d then records[j] else LastRecord(records[..j], d)
    {
      HoldsOfPrefix(records, j, d);
    }
  }

  class Store {
    var order: seq<string>
    var states: States
    var snapshot: Option<Snapshot>
    const maxStaleness: int
    var booting: bool
    var deadlineAt: Instant
    var deadlineArmed: bool
    var deadlineVersion: nat
    var deadlineSignal: bool

    ghost function State(): StoreState
      reads this
    {
      StoreState(order, states, snapshot, maxStaleness, booting, deadlineAt, deadlineArmed, deadlineVersion,
                 deadlineSignal)
    }

    ghost predicate Valid()
      reads this
    {
      StoreInv(State())
    }

    constructor (maxStaleness: int)
      ensures Valid()
      ensures State() == StoreState([], map[], None, maxStaleness, true, 0, false, 0, false)
    {
      this.maxStaleness := maxStaleness;
      order, states, snapshot, booting := [], map[], None, true;
      deadlineAt, deadlineArmed, deadlineVersion, deadlineSignal := 0, false, 0, false;
    }

    method RegisterSource(name: string, interval: int) returns (ok: bool)
      requires Valid()
      modifies this`order, this`states
      ensures Valid()
      ensures ok == (name !in old(states))
      ensures ok ==> order == old(order) + [name]
      ensures ok ==> states == old(states)[name := SourceState(None, 0, false, interval > 0)]
      ensures !ok ==> order == old(order) && states == old(states)
    {
      if name in states {
        return false;
      }
      RegisteringKeepsInv(State(), name, interval > 0);
      order := order + [name];
      states := states[name := SourceState(None, 0, false, interval > 0)];
      ok := true;
    }

    method FinishBoot()
      requires Valid()
      modifies this`booting, this`snapshot, this`deadlineAt, this`deadlineArmed, this`deadlineVersion,
               this`deadlineSignal
      ensures Valid() && !booting
      ensures Publishes(old(State()).(booting := false), State())
    {
      booting := false;
      Recompose();
    }

    method Install(source: string, contribution: Option<Contribution>, at: Instant) returns (ok: bool)
      requires Valid()
      modifies this`states, this`snapshot, this`deadlineAt, this`deadlineArmed, this`deadlineVersion,
               this`deadlineSignal
      ensures Valid()
      ensures Installs(old(State()), source, contribution, at, State(), ok)
    {
      if contribution.None? {
        return false;
      }
      if contribution.value.schemaVersion != 1 {
        return false;
      }
      var records := contribution.value.records;
      for i := 0 to |records|
        invariant forall j :: 0 <= j < i ==> records[j].Some?
      {
        if records[i].None? {
          return false;
        }
      }
      if source !in states {
        return false;
      }
      states := states[source := states[source].(
        contribution := Some(Owned(records, source)), loadedAt := at, excluded := false)];
      Recompose();
      ok := true;
    }

    method Touch(source: string, at: Instant) returns (ok: bool)
      requires Valid()
      modifies this`states, this`snapshot, this`deadlineAt, this`deadlineArmed, this`deadlineVersion,
               this`deadlineSignal
      ensures Valid()
      ensures Touches(old(State()), source, at, State(), ok)
    {
      if source !in states {
        return false;
      }
      if states[source].contribution.None? {
        return false;
      }
      var wasExcluded := states[source].excluded;
      states := states[source := states[source].(loadedAt := at, excluded := false)];
      if wasExcluded {
        Recompose();
      } else {
        ConfirmingInService(old(State()), source, at);
        ArmDeadline();
      }
      ok := true;
    }

    /** Composes the contributions and, outside boot, publishes them and rearms the deadline. */
    method Recompose()
      requires Consistent(State())
      modifies this`snapshot, this`deadlineAt, this`deadlineArmed, this`deadlineVersion, this`deadlineSignal
      ensures Valid()
      ensures Publishes(old(State()), State())
    {
      var winners := FindWinners();
      var next := EmitWinners(winners);
      if booting {
        return;
      }
      var generation := 1;
      if snapshot.Some? {
        generation := snapshot.value.generation + 1;
      }
      snapshot := Some(Snapshot(1, generation, next));
      ArmDeadline();
    }

    /** Second pass of a recomposition: the in-service winners' records. */
    method EmitWinners(winners: map<Digest, string>) returns (next: map<Digest, Record>)
      requires Registered(order, states) && AreWinners(winners)
      ensures next == Composed(order, states)
    {
      next := map[];
      for i := 0 to |order|
        invariant EmittedFor(order[..i], next)
      {
        var state := states[order[i]];
        if !state.excluded && state.contribution.Some? {
          next := EmitSource(i, winners, next);
        } else {
          NothingToEmit(i, next);
        }
      }
      assert order[..|order|] == order;
      ServedIsComposed(next);
    }

    ghost predicate AreWinners(winners: map<Digest, string>)
      requires forall name :: name in order ==> name in states
      reads this`order, this`states
    {
      && (forall d :: d in winners <==> Winner(order, states, d).Some?)
      && (forall d :: d in winners ==> winners[d] == Winner(order, states, d).value)
    }

    /** `next` has exactly what the sources `names` win and serve. */
    ghost predicate EmittedFor(names: seq<string>, next: map<Digest, Record>)
      requires forall name :: name in order ==> name in states
      reads this`order, this`states
    {
      && (forall d :: d in next <==> ServedBy(names, d))
      && (forall d :: d in next && Winner(order, states, d).Some? ==> next[d] == Emitted(d))
    }

    lemma NothingToEmit(i: nat, next: map<Digest, Record>)
      requires Registered(order, states) && i < |order|
      requires states[order[i]].excluded || states[order[i]].contribution.None?
      requires EmittedFor(order[..i], next)
      ensures EmittedFor(order[..i + 1], next)
    {
      assert forall name :: name in order[..i + 1] <==> name in order[..i] || name == order[i];
    }

    lemma ServedIsComposed(next: map<Digest, Record>)
      requires Registered(order, states)
      requires EmittedFor(order, next)
      ensures next == Composed(order, states)
    {
      forall d
        ensures d in next <==> d in Composed(order, states)
        ensures d in next ==> next[d] == Composed(order, states)[d]
      {
        if Winner(order, states, d).Some? {
          assert Emitted(d) in Held(states[Winner(order, states, d).value]);
        }
      }
    }

    /** The winner of `d` is one of `names` and is in service. */
    ghost predicate ServedBy(names: seq<string>, d: Digest)
      requires forall name :: name in order ==> name in states
      reads this`order, this`states
    {
      && Winner(order, states, d).Some?
      && Winner(order, states, d).value in names
      && !states[Winner(order, states, d).value].excluded
    }

    ghost function Emitted(d: Digest): Record
      requires forall name :: name in order ==> name in states
      requires Winner(order, states, d).Some?
      reads this`order, this`states
    {
      LastRecord(Held(states[Winner(order, states, d).value]), d)
    }

    /** First pass of a recomposition: which source wins each digest. */
    method FindWinners() returns (winners: map<Digest, string>)
      requires Registered(order, states)
      ensures AreWinners(winners)
    {
      winners := map[];
      for i := 0 to |order|
        invariant forall d :: d in winners <==> Winner(order[..i], states, d).Some?
        invariant forall d :: d in winners ==> winners[d] == Winner(order[..i], states, d).value
      {
        var records := Held(states[order[i]]);
        ghost var before := winners;
        for j := 0 to |records|
          invariant forall d :: d in winners <==> d in before || Holds(records[..j], d)
          invariant forall d :: d in winners ==> winners[d] == if d in before then before[d] else order[i]
        {
          forall d ensures Holds(records[..j + 1], d) <==> Holds(records[..j], d) || records[j].digest == d {
            HoldsOfPrefix(records, j, d);
          }
          if records[j].digest !in winners {
            winners := winners[records[j].digest := order[i]];
          }
        }
        assert records[..|records|] == records;
        forall d ensures Winner(order[..i + 1], states, d)
                      == if Winner(order[..i], states, d).Some? then Winner(order[..i], states, d)
                         else if Holds(records, d) then Some(order[i]) else None {
          WinnerOfPrefix(order, states, i, d);
        }
      }
      assert order[..|order|] == order;
    }

    /** The second pass for one in-service source. */
    method EmitSource(i: nat, winners: map<Digest, string>, before: map<Digest, Record>)
      returns (next: map<Digest, Record>)
      requires Registered(order, states) && i < |order| && !states[order[i]].excluded
      requires AreWinners(winners) && EmittedFor(order[..i], before)
      ensures EmittedFor(order[..i + 1], next)
    {
      var records := Held(states[order[i]]);
      next := before;
      ServedEarlier(i);
      EmissionStarts(order, states, order[i], before);
      assert records[..0] == [];
      for j := 0 to |records|
        invariant EmittedSoFar(order, states, order[i], records[..j], before, next)
      {
        EmitOne(order, states, i, j, before, next);
        var record := records[j];
        if winners[record.digest] == order[i] {
          next := next[record.digest := record];
        }
      }
      assert records[..|records|] == records;
      EmissionEnds(i, before, next);
    }

    lemma ServedEarlier(i: nat)
      requires Registered(order, states) && i < |order|
      ensures forall d :: ServedBy(order[..i], d) ==> Winner(order, states, d) != Some(order[i])
    {
      assert order[i] !in order[..i];
    }

    lemma EmissionEnds(i: nat, before: map<Digest, Record>, next: map<Digest, Record>)
      requires Registered(order, states) && i < |order| && !states[order[i]].excluded
      requires EmittedSoFar(order, states, order[i], Held(states[order[i]]), before, next)
      requires EmittedFor(order[..i], before)
      ensures EmittedFor(order[..i + 1], next)
    {
      assert forall name :: name in order[..i + 1] <==> name in order[..i] || name == order[i];
    }

    /** Publishes the earliest deadline of a watched source and signals the evaluator. */
    method ArmDeadline()
      requires Registered(order, states)
      modifies this`deadlineAt, this`deadlineArmed, this`deadlineVersion, this`deadlineSignal
      ensures Arms(old(State()), State())
    {
      if maxStaleness <= 0 || booting {
        return;
      }
      var earliest := 0;
      for i := 0 to |order|
        invariant earliest == 0 ==> NoneWatched(order[..i], states)
        invariant earliest != 0 ==> earliest > 0 && IsEarliest(order[..i], states, maxStaleness, earliest)
      {
        var state := states[order[i]];
        assert forall name :: name in order[..i + 1] <==> name in order[..i] || name == order[i];
        if !state.reloadable || state.excluded || state.contribution.None? || state.loadedAt == 0 {
          continue;
        }
        var deadline := state.loadedAt + maxStaleness;
        if earliest == 0 || deadline < earliest {
          earliest := deadline;
        }
      }
      assert order[..|order|] == order;
      deadlineAt := earliest;
      deadlineArmed := earliest != 0;
      deadlineVersion := deadlineVersion + 1;
      deadlineSignal := true;
    }

    /** The loop of `EvaluateStaleness`: marks every overdue source. */
    method ExcludeOverdue(now: Instant) returns (excluded: bool)
      requires Registered(order, states)
      modifies this`states
      ensures states == Lapsed(old(states), maxStaleness, now)
      ensures excluded == exists name :: name in old(states) && Overdue(old(states)[name], maxStaleness, now)
      ensures forall name :: name in old(states) && !old(states)[name].reloadable ==>
                name in states && states[name] == old(states)[name]
    {
      ghost var was := states;
      excluded := false;
      for i := 0 to |order|
        invariant states.Keys == was.Keys
        invariant forall k :: i <= k < |order| ==> states[order[k]] == was[order[k]]
        invariant forall k :: 0 <= k < i ==> states[order[k]] == LapsedState(was[order[k]], maxStaleness, now)
        invariant excluded == exists k :: 0 <= k < i && Overdue(was[order[k]], maxStaleness, now)
      {
        var name := order[i];
        var state := states[name];
        if !state.reloadable || state.excluded || state.contribution.None? || state.loadedAt == 0 {
          continue;
        }
        if now < state.loadedAt + maxStaleness {
          continue;
        }
        states := states[name := state.(excluded := true)];
        excluded := true;
      }
      assert states == Lapsed(was, maxStaleness, now);
    }

    method EvaluateStaleness(now: Instant)
      requires Valid()
      modifies this`states, this`snapshot, this`deadlineAt, this`deadlineArmed, this`deadlineVersion,
               this`deadlineSignal
      ensures Valid()
      ensures Evaluates(old(State()), now, State())
    {
      var excluded := ExcludeOverdue(now);
      if excluded {
        Recompose();
        return;
      }
      assert states == old(states);
      ArmDeadline();
    }

    /** The record a digest authenticates as at `now`: served, and not expired.  A served record is refused
        exactly when it has an expiry and `now` has reached it. */
    method Lookup(digest: Digest, now: Instant) returns (found: Option<Record>)
      requires Valid()
      ensures found.Some? ==>
                && ServedBy(order, digest) && !booting
                && found.value == Emitted(digest)
                && (found.value.expiresAt.None? || now < found.value.expiresAt.value)
      ensures found.None? && !booting && ServedBy(order, digest) ==>
                Emitted(digest).expiresAt.Some? && Emitted(digest).expiresAt.value <= now
    {
      if snapshot.None? {
        return None;
      }
      if digest !in snapshot.value.byDigest || Expired(snapshot.value.byDigest[digest], now) {
        assert Winner(order, states, digest).Some? ==>
            Emitted(digest) in Held(states[Winner(order, states, digest).value]);
        return None;
      }
      found := Some(snapshot.value.byDigest[digest]);
    }
  }

  predicate Expired(record: Record, now: Instant) {
    record.expiresAt.Some? && now >= record.expiresAt.value
  }

  /** A record lives up to the instant before its expiry, forever without one, and never again after. */
  lemma ExpiryIsFinal(record: Record, now: Instant, later: Instant)
    requires now <= later
    ensures record.expiresAt.None? ==> !Expired(record, now)
    ensures record.expiresAt == Some(now) ==> Expired(record, later)
    ensures record.expiresAt.Some? && later < record.expiresAt.value ==> !Expired(record, now)
    ensures Expired(record, now) ==> Expired(record, later)
  {
  }

  lemma {:induction false} HeldIsWon(order: seq<string>, states: States, i: nat, d: Digest)
    requires i < |order| && forall name :: name in order ==> name in states
    requires Holds(Held(states[order[i]]), d)
    ensures Winner(order, states, d).Some?
  {
    WinnerOfPrefix(order, states, i, d);
    WinnerIsStable(order, states, i + 1, d);
  }

  /** Composition looks at contributions and service only, never at load times. */
  lemma SameServiceSameComposition(order: seq<string>, a: States, b: States)
    requires forall name :: name in order ==> name in a && name in b
    requires forall name :: name in order ==>
               a[name].contribution == b[name].contribution && a[name].excluded == b[name].excluded
    ensures Composed(order, a) == Composed(order, b)
  {
    forall d ensures Winner(order, a, d) == Winner(order, b, d) {
      SameContributionsSameWinner(order, a, b, d);
    }
    assert DigestsOf(order, a) == DigestsOf(order, b);
  }

  /** Confirming a source in service changes no composition, only its age. */
  lemma ConfirmingInService(m: StoreState, source: string, at: Instant)
    requires Consistent(m) && source in m.states && m.states[source].contribution.Some? && !m.states[source].excluded
    ensures Consistent(Confirmed(m, source, at))
    ensures Composed(m.order, Confirmed(m, source, at).states) == Composed(m.order, m.states)
  {
    SameServiceSameComposition(m.order, m.states, Confirmed(m, source, at).states);
  }

  lemma {:induction false} SameContributionsSameWinner(order: seq<string>, a: States, b: States, d: Digest)
    requires forall name :: name in order ==> name in a && name in b
    requires forall name :: name in order ==> a[name].contribution == b[name].contribution
    ensures Winner(order, a, d) == Winner(order, b, d)
  {
    if order != [] {
      SameContributionsSameWinner(order[..|order| - 1], a, b, d);
    }
  }
}
