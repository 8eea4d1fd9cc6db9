/**
 The key store as a value: source states, the composed snapshot, and what each
 critical section of the store does to them.  `KeyStore` proves its methods
 against these definitions and `StalenessProtocol` runs them concurrently.
 */
module KeyModel {
  import opened Basics

  /** A clock reading in nanoseconds; 0 is Go's zero time, "never". */
  type Instant = nat

  /** A SHA-256 digest, read as a number. */
  type Digest = int

  datatype Record = Record(
    name: string,
    digest: Digest,
    allowedModels: seq<string>,
    allowedRoutes: seq<string>,
    expiresAt: Option<Instant>,
    source: string)

  /** A contribution as a source hands it over: a record pointer may be nil. */
  datatype Contribution = Contribution(schemaVersion: int, records: seq<Option<Record>>)

  /** `contribution` holds the records the store owns; the store never keeps a nil one. */
  datatype SourceState = SourceState(
    contribution: Option<seq<Record>>,
    loadedAt: Instant,
    excluded: bool,
    reloadable: bool)

  type States = map<string, SourceState>

  datatype Snapshot = Snapshot(schemaVersion: int, generation: nat, byDigest: map<Digest, Record>)

  /** `signal` is the capacity-1 channel that wakes the staleness evaluator. */
  datatype StoreState = StoreState(
    order: seq<string>,
    states: States,
    snapshot: Option<Snapshot>,
    maxStaleness: int,
    booting: bool,
    deadlineAt: Instant,
    deadlineArmed: bool,
    deadlineVersion: nat,
    signal: bool)

  // ---------------------------------------------------------------- composition

  function Held(state: SourceState): seq<Record> {
    if state.contribution.Some? then state.contribution.value else []
  }

  ghost predicate Holds(records: seq<Record>, d: Digest) {
    exists j :: 0 <= j < |records| && records[j].digest == d
  }

  /** The last record with digest `d`: a later duplicate overwrites an earlier one. */
  function LastRecord(records: seq<Record>, d: Digest): (r: Record)
    requires Holds(records, d)
    ensures r in records && r.digest == d
  {
    var last := |records| - 1;
    if records[last].digest == d then records[last] else LastRecord(records[..last], d)
  }

  ghost predicate Registered(order: seq<string>, states: States) {
    && Distinct(order)
    && forall name :: name in order <==> name in states
  }

  /** The source whose record for `d` wins: the first one in `order` that holds `d`. */
  ghost function Winner(order: seq<string>, states: States, d: Digest): (w: Option<string>)
    requires forall name :: name in order ==> name in states
    ensures w.Some? ==> w.value in order && Holds(Held(states[w.value]), d)
  {
    if order == [] then None
    else
      var last := |order| - 1;
      var earlier := Winner(order[..last], states, d);
      if earlier.Some? then earlier
      else if Holds(Held(states[order[last]]), d) then Some(order[last])
      else None
  }

  ghost function DigestsOf(order: seq<string>, states: States): set<Digest>
    requires forall name :: name in order ==> name in states
  {
    set name, r | name in order && r in Held(states[name]) :: r.digest
  }

  /** The published map: each digest goes to its winner's record, if the winner is in service. */
  ghost function Composed(order: seq<string>, states: States): map<Digest, Record>
    requires forall name :: name in order ==> name in states
  {
    map d | d in DigestsOf(order, states)
         && Winner(order, states, d).Some?
         && !states[Winner(order, states, d).value].excluded
      :: LastRecord(Held(states[Winner(order, states, d).value]), d)
  }

  // ---------------------------------------------------------------- deadlines

  /** A source the staleness policy applies to right now. */
  predicate Watched(state: SourceState) {
    state.reloadable && !state.excluded && state.contribution.Some? && state.loadedAt != 0
  }

  ghost predicate Overdue(state: SourceState, maxStaleness: int, now: Instant) {
    Watched(state) && state.loadedAt + maxStaleness <= now
  }

  /** `t` is the earliest deadline of a watched source. */
  ghost predicate IsEarliest(order: seq<string>, states: States, maxStaleness: int, t: int)
    requires forall name :: name in order ==> name in states
  {
    && (exists name :: name in order && Watched(states[name]) && t == states[name].loadedAt + maxStaleness)
    && (forall name :: name in order && Watched(states[name]) ==> t <= states[name].loadedAt + maxStaleness)
  }

  ghost predicate NoneWatched(order: seq<string>, states: States)
    requires forall name :: name in order ==> name in states
  {
    forall name :: name in order ==> !Watched(states[name])
  }

  /** What `deadlineAt` and `deadlineArmed` say is what the source states say. */
  ghost predicate DeadlineIsCurrent(m: StoreState)
    requires forall name :: name in m.order ==> name in m.states
  {
    if m.deadlineArmed then IsEarliest(m.order, m.states, m.maxStaleness, m.deadlineAt)
    else m.deadlineAt == 0 && NoneWatched(m.order, m.states)
  }

  // ---------------------------------------------------------------- the store's invariant

  /** What holds even in the middle of a critical section, while the map is out of date. */
  ghost predicate Consistent(m: StoreState) {
    && Registered(m.order, m.states)
    && (forall name :: name in m.states && m.states[name].excluded ==> m.states[name].contribution.Some?)
    && (m.booting ==> m.snapshot.None?)
    && (m.snapshot.Some? ==> m.snapshot.value.generation >= 1)
    && (m.booting || m.maxStaleness <= 0 ==>
          m.deadlineVersion == 0 && !m.signal && !m.deadlineArmed && m.deadlineAt == 0)
  }

  /** Between critical sections: nothing is published during boot, and exactly the
      composition and its earliest deadline afterwards. */
  ghost predicate StoreInv(m: StoreState) {
    && Consistent(m)
    && (!m.booting ==> m.snapshot.Some? && m.snapshot.value.schemaVersion == 1
                       && m.snapshot.value.byDigest == Composed(m.order, m.states))
    && (!m.booting && m.maxStaleness > 0 ==> m.deadlineVersion >= 1 && DeadlineIsCurrent(m))
  }

  // ---------------------------------------------------------------- critical sections

  /** One arming of the deadline leads from `m` to `m'`. */
  ghost predicate Arms(m: StoreState, m': StoreState)
    requires forall name :: name in m.order ==> name in m.states
  {
    if m.maxStaleness <= 0 || m.booting then m' == m
    else
      && m' == m.(deadlineAt := m'.deadlineAt, deadlineArmed := m'.deadlineArmed,
                  deadlineVersion := m.deadlineVersion + 1, signal := true)
      && DeadlineIsCurrent(m')
  }

  /** One recomposition leads from `m` to `m'`. */
  ghost predicate Publishes(m: StoreState, m': StoreState)
    requires forall name :: name in m.order ==> name in m.states
  {
    if m.booting then m' == m
    else Arms(m.(snapshot := Some(NextSnapshot(m))), m')
  }

  ghost function NextSnapshot(m: StoreState): Snapshot
    requires forall name :: name in m.order ==> name in m.states
  {
    Snapshot(1,
             if m.snapshot.Some? then m.snapshot.value.generation + 1 else 1,
             Composed(m.order, m.states))
  }

  ghost predicate Installable(c: Option<Contribution>) {
    && c.Some?
    && c.value.schemaVersion == 1
    && forall j :: 0 <= j < |c.value.records| ==> c.value.records[j].Some?
  }

  /** The store's own copy of a contribution, stamped with its source. */
  function Owned(records: seq<Option<Record>>, source: string): (owned: seq<Record>)
    requires forall j :: 0 <= j < |records| ==> records[j].Some?
    ensures |owned| == |records|
    ensures forall j :: 0 <= j < |records| ==> owned[j] == records[j].value.(source := source)
  {
    seq(|records|, j requires 0 <= j < |records| => records[j].value.(source := source))
  }

  ghost function WithContribution(m: StoreState, source: string, c: Contribution, at: Instant): StoreState
    requires source in m.states && Installable(Some(c))
  {
    m.(states := m.states[source := m.states[source].(
         contribution := Some(Owned(c.records, source)), loadedAt := at, excluded := false)])
  }

  /** `Install` succeeds or fails without effect. */
  ghost predicate Installs(m: StoreState, source: string, c: Option<Contribution>, at: Instant,
                           m': StoreState, ok: bool)
    requires Registered(m.order, m.states)
  {
    && ok == (Installable(c) && source in m.states)
    && if ok then Publishes(WithContribution(m, source, c.value, at), m') else m' == m
  }

  ghost function Confirmed(m: StoreState, source: string, at: Instant): StoreState
    requires source in m.states
  {
    m.(states := m.states[source := m.states[source].(loadedAt := at, excluded := false)])
  }

  /** `Touch` recomposes only when it reinstates an excluded source. */
  ghost predicate Touches(m: StoreState, source: string, at: Instant, m': StoreState, ok: bool)
    requires Registered(m.order, m.states)
  {
    && ok == (source in m.states && m.states[source].contribution.Some?)
    && if !ok then m' == m
       else if m.states[source].excluded then Publishes(Confirmed(m, source, at), m')
       else Arms(Confirmed(m, source, at), m')
  }

  /** The states after every overdue source is excluded. */
  ghost function Lapsed(states: States, maxStaleness: int, now: Instant): States {
    map name | name in states :: LapsedState(states[name], maxStaleness, now)
  }

  ghost function LapsedState(state: SourceState, maxStaleness: int, now: Instant): SourceState {
    if Overdue(state, maxStaleness, now) then state.(excluded := true) else state
  }

  /** One staleness evaluation leads from `m` to `m'`. */
  ghost predicate Evaluates(m: StoreState, now: Instant, m': StoreState)
    requires Registered(m.order, m.states)
  {
    var lapsed := m.(states := Lapsed(m.states, m.maxStaleness, now));
    if exists name :: name in m.states && Overdue(m.states[name], m.maxStaleness, now)
    then Publishes(lapsed, m') else Arms(lapsed, m')
  }
}
