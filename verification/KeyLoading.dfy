/**
 How records enter: the wire envelope and the inline entries are accepted only when no
 two records of a source share a digest, so a served digest names one record.
 */
module KeyLoading {
  import opened Basics
  import opened KeyModel
  import opened KeyComposition
  import opened StalenessProtocol
  import KeyStore

  /** Library calls: `hash` is None outside the bearer-token grammar, `parse` outside 64 hex digits. */
  datatype Digests = Digests(hash: string -> Option<Digest>, parse: string -> Option<Digest>, pattern: string -> bool)

  datatype WireRecord = WireRecord(
    name: string,
    key: Option<string>,
    keySHA256: Option<string>,
    allowedModels: seq<string>,
    allowedRoutes: seq<string>,
    expiresAt: Option<Instant>)

  datatype CountField = Absent | Null | Count(n: int)

  /** A strictly bound envelope. */
  datatype Envelope = Envelope(version: int, count: CountField, keys: seq<WireRecord>)

  datatype EntryConfig = EntryConfig(name: string, key: string, allowedModels: seq<string>, allowedRoutes: seq<string>)

  /** Exactly one of the two key forms, non-empty and well formed, gives the digest. */
  function WireDigest(lib: Digests, wire: WireRecord): Option<Digest> {
    match (wire.key, wire.keySHA256)
    case (Some(key), None) => if key == "" then None else lib.hash(key)
    case (None, Some(hex)) => if hex == "" then None else lib.parse(hex)
    case _ => None
  }

  ghost predicate GrantsOk(lib: Digests, models: seq<string>, routes: seq<string>) {
    && (forall j :: 0 <= j < |models| ==> lib.pattern(models[j]))
    && (forall j :: 0 <= j < |routes| ==> routes[j] != "")
  }

  ghost predicate WireOk(lib: Digests, wire: WireRecord) {
    wire.name != "" && WireDigest(lib, wire).Some? && GrantsOk(lib, wire.allowedModels, wire.allowedRoutes)
  }

  ghost predicate Mappable(lib: Digests, version: int, keys: seq<WireRecord>) {
    && version == 1
    && (forall i :: 0 <= i < |keys| ==> WireOk(lib, keys[i]))
    && (forall i, j :: 0 <= i < j < |keys| ==> WireDigest(lib, keys[i]) != WireDigest(lib, keys[j]))
  }

  function WireToRecord(lib: Digests, wire: WireRecord): Record
    requires WireDigest(lib, wire).Some?
  {
    Record(wire.name, WireDigest(lib, wire).value, wire.allowedModels, wire.allowedRoutes, wire.expiresAt, "")
  }

  /** The contribution an envelope stands for: all its records in order, or nothing. */
  ghost function Mapped(lib: Digests, version: int, keys: seq<WireRecord>): Option<Contribution> {
    if Mappable(lib, version, keys)
    then Some(Contribution(version, seq(|keys|, i requires 0 <= i < |keys| && WireDigest(lib, keys[i]).Some? =>
                                          Some(WireToRecord(lib, keys[i])))))
    else None
  }

  /** The JSON form must also count its records, and count them right. */
  ghost function Decoded(lib: Digests, doc: Envelope): Option<Contribution> {
    if doc.count == Count(|doc.keys|) then Mapped(lib, doc.version, doc.keys) else None
  }

  ghost function DecodedFile(lib: Digests, doc: Envelope): Option<Contribution> {
    if doc.count == Absent then Mapped(lib, doc.version, doc.keys) else None
  }

  /** A contribution whose records are all there, each with its own digest. */
  ghost predicate OneRecordPerDigest(c: Contribution) {
    && Installable(Some(c))
    && forall i, j :: 0 <= i < j < |c.records| ==> c.records[i].value.digest != c.records[j].value.digest
  }

  method CheckGrants(lib: Digests, models: seq<string>, routes: seq<string>) returns (ok: bool)
    ensures ok == GrantsOk(lib, models, routes)
  {
    for j := 0 to |models|
      invariant forall k :: 0 <= k < j ==> lib.pattern(models[k])
    {
      if !lib.pattern(models[j]) {
        return false;
      }
    }
    for j := 0 to |routes|
      invariant forall k :: 0 <= k < j ==> routes[k] != ""
    {
      if routes[j] == "" {
        return false;
      }
    }
    ok := true;
  }

  /** Accepts exactly the mappable envelopes and keeps every record, in order, under its digest. */
  method MapWireEnvelope(lib: Digests, version: int, keys: seq<WireRecord>) returns (r: Option<Contribution>)
    ensures r == Mapped(lib, version, keys)
    ensures r.Some? ==> OneRecordPerDigest(r.value)
  {
    if version != 1 {
      return None;
    }
    var records: seq<Option<Record>> := [];
    var byDigest: set<Digest> := {};
    for i := 0 to |keys|
      invariant |records| == i
      invariant forall k :: 0 <= k < i ==> WireOk(lib, keys[k])
      invariant forall k :: 0 <= k < i ==> records[k] == Some(WireToRecord(lib, keys[k]))
      invariant forall d :: d in byDigest <==> exists k :: 0 <= k < i && d == records[k].value.digest
      invariant forall j, k :: 0 <= j < k < i ==> records[j].value.digest != records[k].value.digest
    {
      var wire := keys[i];
      var digest := WireDigest(lib, wire);
      if wire.name == "" || digest.None? {
        return None;
      }
      var granted := CheckGrants(lib, wire.allowedModels, wire.allowedRoutes);
      if !granted {
        return None;
      }
      if digest.value in byDigest {
        ghost var k :| 0 <= k < i && digest.value == records[k].value.digest;
        assert WireDigest(lib, keys[k]) == WireDigest(lib, keys[i]);
        return None;
      }
      byDigest := byDigest + {digest.value};
      records := records + [Some(Record(wire.name, digest.value, wire.allowedModels, wire.allowedRoutes,
                                        wire.expiresAt, ""))];
    }
    r := Some(Contribution(version, records));
    assert records == Mapped(lib, version, keys).value.records;
  }

  method DecodeJson(lib: Digests, doc: Envelope) returns (r: Option<Contribution>)
    ensures r == Decoded(lib, doc)
    ensures r.Some? ==> OneRecordPerDigest(r.value)
  {
    if doc.version != 1 {
      return None;
    }
    if !doc.count.Count? || doc.count.n != |doc.keys| {
      return None;
    }
    r := MapWireEnvelope(lib, doc.version, doc.keys);
  }

  /** The file form must not carry a count at all, not even a null one. */
  method DecodeYaml(lib: Digests, doc: Envelope) returns (r: Option<Contribution>)
    ensures r == DecodedFile(lib, doc)
    ensures r.Some? ==> OneRecordPerDigest(r.value)
  {
    if doc.count != Absent {
      return None;
    }
    r := MapWireEnvelope(lib, doc.version, doc.keys);
  }

  ghost predicate EntryOk(lib: Digests, entry: EntryConfig) {
    entry.name != "" && lib.hash(entry.key).Some? && GrantsOk(lib, entry.allowedModels, entry.allowedRoutes)
  }

  /** The contribution the inline entries stand for. */
  ghost function Inline(lib: Digests, entries: seq<EntryConfig>): Option<Contribution> {
    if (forall i :: 0 <= i < |entries| ==> EntryOk(lib, entries[i]))
       && (forall i, j :: 0 <= i < j < |entries| ==> lib.hash(entries[i].key) != lib.hash(entries[j].key))
    then Some(Contribution(1, seq(|entries|, i requires 0 <= i < |entries| && EntryOk(lib, entries[i]) =>
                                    Some(EntryToRecord(lib, entries[i])))))
    else None
  }

  function EntryToRecord(lib: Digests, entry: EntryConfig): Record
    requires lib.hash(entry.key).Some?
  {
    Record(entry.name, lib.hash(entry.key).value, entry.allowedModels, entry.allowedRoutes, None, "config")
  }

  /** Inline entries load exactly when each is well formed and no two share a key value. */
  method LoadConfigSource(lib: Digests, entries: seq<EntryConfig>) returns (r: Option<Contribution>)
    ensures r == Inline(lib, entries)
    ensures r.Some? <==>
              && (forall i :: 0 <= i < |entries| ==> EntryOk(lib, entries[i]))
              && (forall i, j :: 0 <= i < j < |entries| ==> lib.hash(entries[i].key) != lib.hash(entries[j].key))
    ensures r.Some? ==> OneRecordPerDigest(r.value) && |r.value.records| == |entries|
    ensures r.Some? ==> forall i :: 0 <= i < |entries| ==>
              r.value.records[i] == Some(Record(entries[i].name, lib.hash(entries[i].key).value,
                                                entries[i].allowedModels, entries[i].allowedRoutes, None, "config"))
  {
    var records: seq<Option<Record>> := [];
    var byDigest: set<Digest> := {};
    for i := 0 to |entries|
      invariant |records| == i
      invariant forall k :: 0 <= k < i ==> EntryOk(lib, entries[k])
      invariant forall k :: 0 <= k < i ==>
                  records[k] == Some(Record(entries[k].name, lib.hash(entries[k].key).value,
                                            entries[k].allowedModels, entries[k].allowedRoutes, None, "config"))
      invariant forall d :: d in byDigest <==> exists k :: 0 <= k < i && d == records[k].value.digest
      invariant forall j, k :: 0 <= j < k < i ==> records[j].value.digest != records[k].value.digest
    {
      var entry := entries[i];
      if entry.name == "" || lib.hash(entry.key).None? {
        return None;
      }
      var digest := lib.hash(entry.key).value;
      var granted := CheckGrants(lib, entry.allowedModels, entry.allowedRoutes);
      if !granted {
        return None;
      }
      if digest in byDigest {
        ghost var k :| 0 <= k < i && digest == records[k].value.digest;
        assert lib.hash(entries[k].key) == lib.hash(entries[i].key);
        return None;
      }
      byDigest := byDigest + {digest};
      records := records + [Some(Record(entry.name, digest, entry.allowedModels, entry.allowedRoutes, None, "config"))];
    }
    r := Some(Contribution(1, records));
    assert records == Inline(lib, entries).value.records;
  }

  // ---------------------------------------------------------------- what loaders hand over

  /** What a source reads: an HTTP answer, a key file or the inline entries. */
  datatype Document = Json(doc: Envelope) | Yaml(doc: Envelope) | Entries(entries: seq<EntryConfig>)

  ghost function Contents(lib: Digests, document: Document): Option<Contribution> {
    match document
    case Json(doc) => Decoded(lib, doc)
    case Yaml(doc) => DecodedFile(lib, doc)
    case Entries(entries) => Inline(lib, entries)
  }

  /** Some loader made `c` of some document. */
  ghost predicate LoaderMade(lib: Digests, c: Contribution) {
    exists document :: Contents(lib, document) == Some(c)
  }

  lemma MappedIsUnique(lib: Digests, version: int, keys: seq<WireRecord>)
    ensures Mapped(lib, version, keys).Some? ==> OneRecordPerDigest(Mapped(lib, version, keys).value)
  {
    if Mappable(lib, version, keys) {
      var records := Mapped(lib, version, keys).value.records;
      forall i | 0 <= i < |keys| ensures records[i] == Some(WireToRecord(lib, keys[i])) {
        assert WireOk(lib, keys[i]);
      }
    }
  }

  /** Whatever a loader accepts has one record per digest. */
  lemma LoadedIsUnique(lib: Digests, c: Contribution)
    requires LoaderMade(lib, c)
    ensures OneRecordPerDigest(c)
  {
    var document :| Contents(lib, document) == Some(c);
    match document
    case Json(doc) => MappedIsUnique(lib, doc.version, doc.keys);
    case Yaml(doc) => MappedIsUnique(lib, doc.version, doc.keys);
    case Entries(entries) =>
      forall i | 0 <= i < |entries| ensures c.records[i] == Some(EntryToRecord(lib, entries[i])) {
        assert EntryOk(lib, entries[i]);
      }
  }

  // ---------------------------------------------------------------- field by field

  /** The record's one key form, the token or its hex digest, stands for `d`. */
  ghost predicate StatesDigest(lib: Digests, wire: WireRecord, d: Digest) {
    || (wire.keySHA256.None? && wire.key.Some? && wire.key.value != "" && lib.hash(wire.key.value) == Some(d))
    || (wire.key.None? && wire.keySHA256.Some? && wire.keySHA256.value != ""
        && lib.parse(wire.keySHA256.value) == Some(d))
  }

  /** `record` says what `wire` says: the same name, grants and expiry, under the digest of its key. */
  ghost predicate Transcribes(lib: Digests, wire: WireRecord, record: Option<Record>) {
    && record.Some? && record.value.name == wire.name != ""
    && StatesDigest(lib, wire, record.value.digest)
    && record.value.allowedModels == wire.allowedModels && record.value.allowedRoutes == wire.allowedRoutes
    && record.value.expiresAt == wire.expiresAt
    && (forall model :: model in wire.allowedModels ==> lib.pattern(model))
    && "" !in wire.allowedRoutes
  }

  /** The records are a transcript of `keys`, in order, and no two have one digest. */
  ghost predicate Transcript(lib: Digests, keys: seq<WireRecord>, records: seq<Option<Record>>) {
    && |records| == |keys|
    && (forall i :: 0 <= i < |keys| ==> Transcribes(lib, keys[i], records[i]))
    && (forall i, j :: 0 <= i < j < |keys| && records[i].Some? && records[j].Some? ==>
          records[i].value.digest != records[j].value.digest)
  }

  lemma WireOnFields(lib: Digests, wire: WireRecord, d: Digest)
    ensures StatesDigest(lib, wire, d) <==> WireDigest(lib, wire) == Some(d)
    ensures WireOk(lib, wire) ==> Transcribes(lib, wire, Some(WireToRecord(lib, wire)))
    ensures forall record :: Transcribes(lib, wire, record) ==>
              WireOk(lib, wire) && WireDigest(lib, wire) == Some(record.value.digest)
  {
    assert WireDigest(lib, wire).Some? ==> StatesDigest(lib, wire, WireDigest(lib, wire).value);
    forall record | Transcribes(lib, wire, record) ensures WireOk(lib, wire) {
      assert forall j :: 0 <= j < |wire.allowedModels| ==> wire.allowedModels[j] in wire.allowedModels;
      assert forall j :: 0 <= j < |wire.allowedRoutes| ==> wire.allowedRoutes[j] in wire.allowedRoutes;
    }
  }

  /** A mapped envelope of version 1 holds a transcript of its records, and an envelope with a transcript
      is mapped. */
  lemma MappedIsTranscript(lib: Digests, version: int, keys: seq<WireRecord>)
    ensures var m := Mapped(lib, version, keys);
            m.Some? ==> version == 1 && m.value.schemaVersion == 1 && Transcript(lib, keys, m.value.records)
    ensures version == 1 && (exists records :: Transcript(lib, keys, records)) ==> Mapped(lib, version, keys).Some?
  {
    forall i | 0 <= i < |keys|
      ensures WireOk(lib, keys[i]) ==> Transcribes(lib, keys[i], Some(WireToRecord(lib, keys[i])))
      ensures forall record :: Transcribes(lib, keys[i], record) ==>
                WireOk(lib, keys[i]) && WireDigest(lib, keys[i]) == Some(record.value.digest)
    {
      WireOnFields(lib, keys[i], 0);
    }
    if version == 1 && exists records :: Transcript(lib, keys, records) {
      var records: seq<Option<Record>> :| Transcript(lib, keys, records);
      forall i | 0 <= i < |keys|
        ensures WireOk(lib, keys[i]) && WireDigest(lib, keys[i]) == Some(records[i].value.digest)
      {
        assert Transcribes(lib, keys[i], records[i]);
      }
      assert Mappable(lib, version, keys);
    }
  }

  /** A document is accepted over HTTP exactly when it is of version 1, counts its records right and has a
      transcript, and as a file when it has no count; what is accepted is that transcript. */
  lemma AcceptedIsTranscript(lib: Digests, doc: Envelope)
    ensures Decoded(lib, doc).Some? <==>
              && doc.version == 1 && doc.count == Count(|doc.keys|)
              && exists records :: Transcript(lib, doc.keys, records)
    ensures DecodedFile(lib, doc).Some? <==>
              doc.version == 1 && doc.count.Absent? && exists records :: Transcript(lib, doc.keys, records)
    ensures Decoded(lib, doc).Some? ==> Transcript(lib, doc.keys, Decoded(lib, doc).value.records)
    ensures DecodedFile(lib, doc).Some? ==> Transcript(lib, doc.keys, DecodedFile(lib, doc).value.records)
  {
    MappedIsTranscript(lib, doc.version, doc.keys);
  }

  /** An inline entry's record: its name and grants under its key's digest, and never an expiry. */
  ghost predicate EntryTranscribes(lib: Digests, entry: EntryConfig, record: Option<Record>) {
    && record.Some? && record.value.name == entry.name != ""
    && lib.hash(entry.key) == Some(record.value.digest)
    && record.value.allowedModels == entry.allowedModels && record.value.allowedRoutes == entry.allowedRoutes
    && record.value.expiresAt == None
    && (forall model :: model in entry.allowedModels ==> lib.pattern(model))
    && "" !in entry.allowedRoutes
  }

  ghost predicate EntryTranscript(lib: Digests, entries: seq<EntryConfig>, records: seq<Option<Record>>) {
    && |records| == |entries|
    && (forall i :: 0 <= i < |entries| ==> EntryTranscribes(lib, entries[i], records[i]))
    && (forall i, j :: 0 <= i < j < |entries| && records[i].Some? && records[j].Some? ==>
          records[i].value.digest != records[j].value.digest)
  }

  lemma EntryOnFields(lib: Digests, entry: EntryConfig)
    ensures EntryOk(lib, entry) ==> EntryTranscribes(lib, entry, Some(EntryToRecord(lib, entry)))
    ensures forall record :: EntryTranscribes(lib, entry, record) ==> EntryOk(lib, entry)
  {
    forall record | EntryTranscribes(lib, entry, record) ensures EntryOk(lib, entry) {
      assert forall j :: 0 <= j < |entry.allowedModels| ==> entry.allowedModels[j] in entry.allowedModels;
      assert forall j :: 0 <= j < |entry.allowedRoutes| ==> entry.allowedRoutes[j] in entry.allowedRoutes;
    }
  }

  /** Inline entries load exactly when they have a transcript, as that transcript. */
  lemma InlineIsTranscript(lib: Digests, entries: seq<EntryConfig>)
    ensures Inline(lib, entries).Some? <==> exists records :: EntryTranscript(lib, entries, records)
    ensures Inline(lib, entries).Some? ==> EntryTranscript(lib, entries, Inline(lib, entries).value.records)
  {
    forall i | 0 <= i < |entries|
      ensures EntryOk(lib, entries[i]) ==> EntryTranscribes(lib, entries[i], Some(EntryToRecord(lib, entries[i])))
      ensures forall record :: EntryTranscribes(lib, entries[i], record) ==> EntryOk(lib, entries[i])
    {
      EntryOnFields(lib, entries[i]);
    }
    if Inline(lib, entries).Some? {
      var records := Inline(lib, entries).value.records;
      forall i | 0 <= i < |entries| ensures records[i] == Some(EntryToRecord(lib, entries[i])) {
        assert EntryOk(lib, entries[i]);
      }
      assert EntryTranscript(lib, entries, records);
    }
    if exists records :: EntryTranscript(lib, entries, records) {
      var records: seq<Option<Record>> :| EntryTranscript(lib, entries, records);
      forall i | 0 <= i < |entries|
        ensures EntryOk(lib, entries[i]) && lib.hash(entries[i].key) == Some(records[i].value.digest)
      {
        assert EntryTranscribes(lib, entries[i], records[i]);
      }
    }
  }

  // ---------------------------------------------------------------- boot

  /** A registration, or a load that the booting store installs or refuses. */
  ghost predicate BootStep(lib: Digests, m: StoreState, m': StoreState) {
    || (exists name, reloadable :: name !in m.states && m' == KeyStore.WithSource(m, name, reloadable))
    || (exists name, c, at, ok :: LoaderMade(lib, c) && Registered(m.order, m.states)
                                  && Installs(m, name, Some(c), at, m', ok))
  }

  /** The store as `trace` takes it from its constructor through boot. */
  ghost predicate BootRun(lib: Digests, maxStaleness: int, trace: seq<StoreState>) {
    && trace != []
    && trace[0] == StoreState([], map[], None, maxStaleness, true, 0, false, 0, false)
    && forall k :: 0 <= k < |trace| - 1 ==> BootStep(lib, trace[k], trace[k + 1])
  }

  /** Every contribution the store holds has one record per digest. */
  ghost predicate UniqueInside(states: States) {
    forall name :: name in states ==> UniqueDigests(Held(states[name]))
  }

  lemma BootStepKeepsUnique(lib: Digests, m: StoreState, m': StoreState)
    requires StoreInv(m) && m.booting && UniqueInside(m.states) && BootStep(lib, m, m')
    ensures StoreInv(m') && m'.booting && UniqueInside(m'.states) && m'.maxStaleness == m.maxStaleness
  {
    if name, reloadable :| name !in m.states && m' == KeyStore.WithSource(m, name, reloadable) {
      KeyStore.RegisteringKeepsInv(m, name, reloadable);
    } else {
      var name, c, at, ok :| LoaderMade(lib, c) && Registered(m.order, m.states)
                             && Installs(m, name, Some(c), at, m', ok);
      LoadedIsUnique(lib, c);
      InstallKeepsInv(m, name, Some(c), at, m', ok);
    }
  }

  lemma {:induction false} BootKeepsUnique(lib: Digests, maxStaleness: int, trace: seq<StoreState>)
    requires BootRun(lib, maxStaleness, trace)
    ensures var m := trace[|trace| - 1];
            StoreInv(m) && m.booting && UniqueInside(m.states) && m.maxStaleness == maxStaleness
    decreases |trace|
  {
    if |trace| > 1 {
      BootKeepsUnique(lib, maxStaleness, trace[..|trace| - 1]);
      assert BootStep(lib, trace[|trace| - 2], trace[|trace| - 2 + 1]);
      BootStepKeepsUnique(lib, trace[|trace| - 2], trace[|trace| - 1]);
    }
  }

  /** The store at the end of some boot, opened by `FinishBoot`. */
  ghost predicate Booted(lib: Digests, m: StoreState) {
    exists trace :: BootRun(lib, m.maxStaleness, trace) && Opens(trace[|trace| - 1], m)
  }

  ghost predicate Opens(m: StoreState, m': StoreState) {
    Registered(m.order, m.states) && Publishes(m.(booting := false), m')
  }

  /** However sources are registered and loaded at boot, the store goes into service consistent and with
      one record per digest in every source. */
  lemma BootedIsUnique(lib: Digests, m: StoreState)
    requires Booted(lib, m)
    ensures StoreInv(m) && !m.booting && UniqueInside(m.states)
  {
    var trace: seq<StoreState> :| BootRun(lib, m.maxStaleness, trace) && Opens(trace[|trace| - 1], m);
    BootKeepsUnique(lib, m.maxStaleness, trace);
    PublishKeepsInv(trace[|trace| - 1].(booting := false), m);
  }

  // ---------------------------------------------------------------- uniqueness over whole runs

  /** Every contribution the store holds or is about to install has one record per digest. */
  ghost predicate UniqueEverywhere(s: System) {
    && UniqueInside(s.store.states)
    && (forall name :: name in s.runners && s.runners[name].pc.Loaded? && s.runners[name].pc.outcome.Fetched? ==>
          OneRecordPerDigest(s.runners[name].pc.outcome.contribution))
  }

  /** A load that succeeds hands over what some loader made. */
  ghost predicate LoadsDocuments(lib: Digests, a: Action) {
    a.LoadDone? && a.outcome.Fetched? ==> LoaderMade(lib, a.outcome.contribution)
  }

  /** A run of the program: booted from documents, then fed with documents. */
  ghost predicate ProgramRun(lib: Digests, config: map<string, RunnerConfig>, trace: seq<System>,
                             actions: seq<Action>)
  {
    && Run(config, trace, actions)
    && Booted(lib, trace[0].store)
    && forall k :: 0 <= k < |actions| ==> LoadsDocuments(lib, actions[k])
  }

  lemma StepKeepsUnique(lib: Digests, config: map<string, RunnerConfig>, s: System, a: Action, s': System)
    requires Inv(s) && UniqueEverywhere(s) && Next(config, s, a, s') && LoadsDocuments(lib, a)
    ensures UniqueEverywhere(s')
  {
    match a
    case Commit(name) =>
      var ok :| Commits(s, name, s.runners[name], s', ok);
      CommitKeepsUnique(s, name, s', ok);
    case Evaluate => EvaluationKeepsUnique(s, s');
    case LoadDone(_, _) => LoadKeepsUnique(lib, config, s, a, s');
    case Kick(_) => RunnerKeepsUnique(config, s, a, s');
    case WakeByTimer(_) => RunnerKeepsUnique(config, s, a, s');
    case WakeByTrigger(_) => RunnerKeepsUnique(config, s, a, s');
    case ResetTimer(_) => RunnerKeepsUnique(config, s, a, s');
    case _ =>
  }

  lemma LoadKeepsUnique(lib: Digests, config: map<string, RunnerConfig>, s: System, a: Action, s': System)
    requires Inv(s) && UniqueEverywhere(s) && a.LoadDone? && RunnerNext(config, s, a, s') && LoadsDocuments(lib, a)
    ensures UniqueEverywhere(s')
  {
    if a.outcome.Fetched? {
      LoadedIsUnique(lib, a.outcome.contribution);
    }
  }

  lemma RunnerKeepsUnique(config: map<string, RunnerConfig>, s: System, a: Action, s': System)
    requires Inv(s) && UniqueEverywhere(s) && (a.Kick? || a.WakeByTimer? || a.WakeByTrigger? || a.ResetTimer?)
    requires RunnerNext(config, s, a, s')
    ensures UniqueEverywhere(s')
  {
  }

  lemma EvaluationKeepsUnique(s: System, s': System)
    requires Inv(s) && UniqueEverywhere(s) && s.pc.Fired? && EvaluatorNext(s, Action.Evaluate, s')
    ensures UniqueEverywhere(s')
  {
    EvaluateKeepsInv(s.store, s.now, s'.store);
  }

  lemma CommitKeepsUnique(s: System, name: string, s': System, ok: bool)
    requires Inv(s) && UniqueEverywhere(s) && name in s.runners && s.runners[name].pc.Loaded?
    requires Commits(s, name, s.runners[name], s', ok)
    ensures UniqueEverywhere(s')
  {
    match s.runners[name].pc.outcome
    case Failed =>
    case Unchanged => TouchKeepsInv(s.store, name, s.runners[name].pc.at, s'.store, ok);
    case Fetched(c) => InstallKeepsInv(s.store, name, Some(c), s.runners[name].pc.at, s'.store, ok);
  }

  lemma ShorterRun(lib: Digests, config: map<string, RunnerConfig>, trace: seq<System>, actions: seq<Action>)
    requires ProgramRun(lib, config, trace, actions) && actions != []
    ensures ProgramRun(lib, config, trace[..|actions|], actions[..|actions| - 1])
    ensures Next(config, trace[|actions| - 1], actions[|actions| - 1], trace[|actions|])
    ensures LoadsDocuments(lib, actions[|actions| - 1])
  {
    var k := |actions| - 1;
    assert trace[..|actions|][0] == trace[0];
    assert Next(config, trace[k], actions[k], trace[k + 1]);
  }

  /** Over every run of the program each contribution, held or about to be installed, has one record per
      digest. */
  lemma {:induction false} RunKeepsUnique(lib: Digests, config: map<string, RunnerConfig>, trace: seq<System>,
                                          actions: seq<Action>)
    requires ProgramRun(lib, config, trace, actions)
    ensures UniqueEverywhere(trace[|actions|])
  {
    if actions == [] {
      BootedIsUnique(lib, trace[0].store);
    } else {
      var k := |actions| - 1;
      ShorterRun(lib, config, trace, actions);
      RunKeepsUnique(lib, config, trace[..k + 1], actions[..k]);
      RunKeepsInv(config, trace[..k + 1], actions[..k]);
      StepKeepsUnique(lib, config, trace[k], actions[k], trace[k + 1]);
    }
  }

  /** `byDigest` serves `d` iff the first registered source holding it is in service, and then with
      the one record that source has for it. */
  ghost predicate ServesByPrecedence(m: StoreState, byDigest: map<Digest, Record>, d: Digest)
    requires forall name :: name in m.order ==> name in m.states
  {
    && (d in byDigest <==> exists i :: FirstHolder(m.order, m.states, d, i) && !m.states[m.order[i]].excluded)
    && (forall i, r ::
          d in byDigest && FirstHolder(m.order, m.states, d, i) && r in Held(m.states[m.order[i]]) && r.digest == d
          ==> byDigest[d] == r)
  }

  /** In every reachable state of every run of the program the published map serves every digest by
      precedence. */
  lemma SnapshotRefinesPrecedence(lib: Digests, config: map<string, RunnerConfig>, trace: seq<System>,
                                  actions: seq<Action>, d: Digest)
    requires ProgramRun(lib, config, trace, actions)
    ensures var m := trace[|actions|].store;
            Registered(m.order, m.states) && m.snapshot.Some?
            && ServesByPrecedence(m, m.snapshot.value.byDigest, d)
  {
    RunKeepsInv(config, trace, actions);
    RunKeepsUnique(lib, config, trace, actions);
    PrecedenceOfComposition(trace[|actions|].store, d);
  }

  lemma PrecedenceOfComposition(m: StoreState, d: Digest)
    requires Registered(m.order, m.states)
    requires forall name :: name in m.states ==> UniqueDigests(Held(m.states[name]))
    ensures ServesByPrecedence(m, Composed(m.order, m.states), d)
  {
    ServedExactlyByFirstHolder(m.order, m.states, d);
  }
}
