/**
 Conditional polling: the ETag the HTTP source keeps, the contribution the store keeps
 and the representation the server keeps stay coherent across 200, 304 and failure.
 */
module KeyPolling {
  import opened Basics
  import opened KeyModel
  import opened KeyLoading
  import opened StalenessProtocol
  import opened Pagination
  import KeyComposition
  import KeyStore

  const OK := 200
  const NOT_MODIFIED := 304

  /** `body` is None when the body cannot be read, is over the cap or does not bind to the envelope. */
  datatype Response =
    | NoResponse
    | Response(status: int, header: Header, etag: string, body: Option<Envelope>)

  /** What one load makes of the response to a request that carried `etag`: its outcome, and the
      validator held for the next request. */
  ghost function Load(lib: Digests, etag: string, response: Response): (LoadOutcome, string) {
    if response.NoResponse? || Paginated(response.header) then (Failed, etag)
    else if response.status == NOT_MODIFIED then (if etag == "" then Failed else Unchanged, etag)
    else if response.status != OK || response.body.None? || Decoded(lib, response.body.value).None? then (Failed, etag)
    else (Fetched(Decoded(lib, response.body.value).value), response.etag)
  }

  class HttpSource {
    const name: string
    var etag: string

    constructor (name: string)
      ensures this.name == name && etag == ""
    {
      this.name := name;
      etag := "";
    }

    method LoadFrom(lib: Digests, response: Response) returns (outcome: LoadOutcome)
      modifies this`etag
      ensures (outcome, etag) == Load(lib, old(etag), response)
    {
      var requestedETag := etag;
      if response.NoResponse? {
        return Failed;
      }
      var paginated := HasPagination(response.header);
      if paginated {
        return Failed;
      }
      if response.status == NOT_MODIFIED {
        if requestedETag == "" {
          return Failed;
        }
        return Unchanged;
      }
      if response.status != OK || response.body.None? {
        return Failed;
      }
      var contribution := DecodeJson(lib, response.body.value);
      if contribution.None? {
        return Failed;
      }
      etag := response.etag;
      outcome := Fetched(contribution.value);
    }

    /** One refresh of this source into the store. */
    method Refresh(lib: Digests, store: KeyStore.Store, response: Response, now: Instant) returns (ok: bool)
      requires store.Valid()
      modifies this`etag, store
      ensures store.Valid()
      ensures Refreshes(lib, name, Client(old(etag), old(store.State()), None), response, now,
                        Client(etag, store.State(), None), ok)
    {
      var outcome := LoadFrom(lib, response);
      match outcome {
        case Failed => ok := false;
        case Unchanged => ok := store.Touch(name, now);
        case Fetched(contribution) => ok := store.Install(name, Some(contribution), now);
      }
    }
  }

  // ---------------------------------------------------------------- one refresh

  /** What must agree: the source's validator, the store, and a load not yet delivered to the store. */
  datatype Client = Client(etag: string, store: StoreState, pending: Option<LoadOutcome>)

  /** The client right after a load: the validator has moved, the store has not. */
  ghost function AfterLoad(lib: Digests, c: Client, response: Response): Client {
    var (outcome, etag) := Load(lib, c.etag, response);
    Client(etag, c.store, if outcome.Failed? then None else Some(outcome))
  }

  /** The store call that ends a refresh whose load succeeded. */
  ghost predicate Delivers(name: string, c: Client, at: Instant, c': Client, ok: bool) {
    && Registered(c.store.order, c.store.states)
    && c.pending.Some? && c' == Client(c.etag, c'.store, None)
    && match c.pending.value
       case Failed => false
       case Unchanged => Touches(c.store, name, at, c'.store, ok)
       case Fetched(contribution) => Installs(c.store, name, Some(contribution), at, c'.store, ok)
  }

  /** A refresh with nothing between its load and its store call. */
  ghost predicate Refreshes(lib: Digests, name: string, c: Client, response: Response, at: Instant,
                            c': Client, ok: bool)
  {
    var loaded := AfterLoad(lib, c, response);
    if loaded.pending.None? then c' == loaded && !ok else Delivers(name, loaded, at, c', ok)
  }

  // ---------------------------------------------------------------- every server

  /** What the store has or is about to get suffices for the next answer, whatever it is. */
  ghost predicate Backed(name: string, c: Client) {
    && StoreInv(c.store) && name in c.store.states
    && match c.pending
       case None => c.etag != "" ==> c.store.states[name].contribution.Some?
       case Some(outcome) =>
         match outcome
         case Failed => false
         case Unchanged => c.store.states[name].contribution.Some?
         case Fetched(contribution) => Installable(Some(contribution))
  }

  /** What everybody else may do to the store, boot's registrations and its end included. */
  ghost predicate Elsewhere(name: string, m: StoreState, m': StoreState) {
    && Registered(m.order, m.states)
    && ((exists other, c, at, ok :: other != name && Installs(m, other, c, at, m', ok))
        || (exists other, at, ok :: other != name && Touches(m, other, at, m', ok))
        || (exists other, reloadable :: other !in m.states && m' == KeyStore.WithSource(m, other, reloadable))
        || (exists now :: Evaluates(m, now, m'))
        || (m.booting && Publishes(m.(booting := false), m'))
        || m' == m.(signal := false))
  }

  lemma MappedIsInstallable(lib: Digests, response: Response)
    ensures response.Response? && response.body.Some? && Decoded(lib, response.body.value).Some? ==>
              Installable(Decoded(lib, response.body.value))
  {
  }

  lemma LoadKeepsBacked(lib: Digests, name: string, c: Client, response: Response)
    requires Backed(name, c) && c.pending.None?
    ensures Backed(name, AfterLoad(lib, c, response))
  {
    MappedIsInstallable(lib, response);
  }

  /** A delivery always succeeds, so the validator never stays past what the store holds. */
  lemma DeliverySucceeds(name: string, c: Client, at: Instant, c': Client, ok: bool)
    requires Backed(name, c) && Delivers(name, c, at, c', ok)
    ensures ok && Backed(name, c') && c'.store.states[name].contribution.Some?
    ensures !c'.store.states[name].excluded && c'.store.states[name].loadedAt == at
    ensures c'.store.states[name].contribution
            == if c.pending.value.Unchanged? then c.store.states[name].contribution
               else Some(Owned(c.pending.value.contribution.records, name))
  {
    match c.pending.value
    case Unchanged => KeyComposition.TouchKeepsInv(c.store, name, at, c'.store, ok);
    case Fetched(contribution) =>
      KeyComposition.InstallKeepsInv(c.store, name, Some(contribution), at, c'.store, ok);
  }

  /** Load never moves the validator past what the store accepts: a load that succeeds is always
      followed by a successful store call, for every response whatsoever. */
  lemma StoreCannotRefuseALoad(lib: Digests, name: string, c: Client, response: Response, at: Instant,
                               c': Client, ok: bool)
    requires Backed(name, c) && c.pending.None? && Refreshes(lib, name, c, response, at, c', ok)
    ensures ok <==> !Load(lib, c.etag, response).0.Failed?
    ensures c'.etag != c.etag ==> ok
    ensures !ok ==> c' == c
  {
    LoadKeepsBacked(lib, name, c, response);
    if AfterLoad(lib, c, response).pending.Some? {
      DeliverySucceeds(name, AfterLoad(lib, c, response), at, c', ok);
    }
  }

  /** Nobody else removes or changes this source's records. */
  lemma ElsewhereKeepsRecords(name: string, m: StoreState, m': StoreState)
    requires StoreInv(m) && name in m.states && Elsewhere(name, m, m')
    ensures StoreInv(m') && name in m'.states && m'.states[name].contribution == m.states[name].contribution
  {
    if now :| Evaluates(m, now, m') {
      EvaluationKeepsRecords(name, m, now, m');
    } else if other, at, ok :| other != name && Touches(m, other, at, m', ok) {
      TouchKeepsRecords(name, m, other, at, m', ok);
    } else if other, k, at, ok :| other != name && Installs(m, other, k, at, m', ok) {
      InstallKeepsRecords(name, m, other, k, at, m', ok);
    } else if other, reloadable :| other !in m.states && m' == KeyStore.WithSource(m, other, reloadable) {
      KeyStore.RegisteringKeepsInv(m, other, reloadable);
    } else if m.booting && Publishes(m.(booting := false), m') {
      KeyComposition.PublishKeepsInv(m.(booting := false), m');
    }
  }

  lemma EvaluationKeepsRecords(name: string, m: StoreState, now: Instant, m': StoreState)
    requires StoreInv(m) && name in m.states && Evaluates(m, now, m')
    ensures StoreInv(m') && name in m'.states && m'.states[name].contribution == m.states[name].contribution
  {
    KeyComposition.EvaluateKeepsInv(m, now, m');
  }

  lemma TouchKeepsRecords(name: string, m: StoreState, other: string, at: Instant, m': StoreState, ok: bool)
    requires StoreInv(m) && name in m.states && Touches(m, other, at, m', ok)
    ensures StoreInv(m') && name in m'.states && m'.states[name].contribution == m.states[name].contribution
  {
    KeyComposition.TouchKeepsInv(m, other, at, m', ok);
  }

  lemma InstallKeepsRecords(name: string, m: StoreState, other: string, k: Option<Contribution>, at: Instant,
                            m': StoreState, ok: bool)
    requires StoreInv(m) && name in m.states && other != name && Installs(m, other, k, at, m', ok)
    ensures StoreInv(m') && name in m'.states && m'.states[name].contribution == m.states[name].contribution
  {
    KeyComposition.InstallKeepsInv(m, other, k, at, m', ok);
  }

  // ---------------------------------------------------------------- the server

  /** One poll of the server: its current tag and document, the other headers it sends, and how it
      behaves this time.  An honest server answers 304 exactly when the request's validator matches
      (RFC 9110, section 13.1.2). */
  datatype Poll = Poll(tag: string, doc: Envelope, header: Header, behaviour: Behaviour)

  datatype Behaviour =
    | Honest(sendsTag: bool)
    | Refuses(status: int, etag: string, body: Option<Envelope>)
    | Unreadable(etag: string)
    | Fails

  function Answer(poll: Poll, ifNoneMatch: string): Response {
    match poll.behaviour
    case Honest(sendsTag) =>
      if ifNoneMatch != "" && ifNoneMatch == poll.tag then Response(NOT_MODIFIED, poll.header, poll.tag, None)
      else Response(OK, poll.header, if sendsTag then poll.tag else "", Some(poll.doc))
    case Refuses(status, etag, body) =>
      Response(if status == OK || status == NOT_MODIFIED then 500 else status, poll.header, etag, body)
    case Unreadable(etag) => Response(OK, poll.header, etag, None)
    case Fails => NoResponse
  }

  /** The tag determines the document, over the whole history of the server. */
  ghost predicate TagDetermines(rep: string -> Envelope, poll: Poll) {
    poll.tag != "" ==> poll.doc == rep(poll.tag)
  }

  // ---------------------------------------------------------------- coherence

  ghost predicate Resident(lib: Digests, name: string, store: StoreState, doc: Envelope) {
    && Decoded(lib, doc).Some?
    && Installable(Decoded(lib, doc))
    && name in store.states
    && store.states[name].contribution == Some(Owned(Decoded(lib, doc).value.records, name))
  }

  /** A held validator stands for the document the store has from this source, or is about to get: `doc`
      is the server's document at the last poll. */
  ghost predicate Coherent(lib: Digests, rep: string -> Envelope, name: string, c: Client, doc: Envelope) {
    && Backed(name, c)
    && match c.pending
       case None => c.etag != "" ==> Resident(lib, name, c.store, rep(c.etag))
       case Some(outcome) =>
         match outcome
         case Failed => false
         case Unchanged => c.etag != "" && rep(c.etag) == doc && Resident(lib, name, c.store, doc)
         case Fetched(contribution) =>
           Decoded(lib, doc) == Some(contribution) && (c.etag != "" ==> rep(c.etag) == doc)
  }

  /** A load of this server's answer fails exactly when the server misbehaves, pages or has a bad
      document, and a confirmation means that the held validator is the current one. */
  lemma AnswerDecides(lib: Digests, poll: Poll, etag: string)
    ensures var (outcome, etag') := Load(lib, etag, Answer(poll, etag));
            && (outcome.Unchanged? ==> poll.behaviour.Honest? && etag == poll.tag && etag' == etag != "")
            && (outcome.Fetched? ==> poll.behaviour.Honest? && outcome == Fetched(Decoded(lib, poll.doc).value)
                                     && Decoded(lib, poll.doc).Some? && (etag' == "" || etag' == poll.tag))
            && (!outcome.Failed? ==> !Paginated(poll.header))
            && (outcome.Failed? ==>
                  etag' == etag
                  && (!poll.behaviour.Honest? || Paginated(poll.header) || Decoded(lib, poll.doc).None?))
  {
  }

  /** A poll of a server whose tag determines its document keeps coherence while the store still waits. */
  lemma LoadKeepsCoherence(lib: Digests, rep: string -> Envelope, name: string, c: Client, doc: Envelope, poll: Poll)
    requires Coherent(lib, rep, name, c, doc) && c.pending.None? && TagDetermines(rep, poll)
    ensures var loaded := AfterLoad(lib, c, Answer(poll, c.etag));
            && Coherent(lib, rep, name, loaded, poll.doc)
            && (loaded.pending.Some? <==>
                  poll.behaviour.Honest? && !Paginated(poll.header) && Decoded(lib, poll.doc).Some?)
  {
    LoadKeepsBacked(lib, name, c, Answer(poll, c.etag));
    AnswerDecides(lib, poll, c.etag);
  }

  /** The delivery leaves the store with exactly the document of the poll, in service as of `at`. */
  lemma DeliveryKeepsCoherence(lib: Digests, rep: string -> Envelope, name: string, c: Client, doc: Envelope,
                               at: Instant, c': Client, ok: bool)
    requires Coherent(lib, rep, name, c, doc) && Delivers(name, c, at, c', ok)
    ensures ok && Coherent(lib, rep, name, c', doc) && Resident(lib, name, c'.store, doc)
    ensures !c'.store.states[name].excluded && c'.store.states[name].loadedAt == at
  {
    DeliverySucceeds(name, c, at, c', ok);
  }

  /** One undivided refresh: coherence survives, and it succeeds exactly for an honest unpaged answer with
      a decodable document, leaving the store with that document, in service as of `at`. */
  lemma PollKeepsCoherence(lib: Digests, rep: string -> Envelope, name: string, c: Client, doc: Envelope, poll: Poll,
                           at: Instant, c': Client, ok: bool)
    requires Coherent(lib, rep, name, c, doc) && c.pending.None? && TagDetermines(rep, poll)
    requires Refreshes(lib, name, c, Answer(poll, c.etag), at, c', ok)
    ensures Coherent(lib, rep, name, c', poll.doc) && c'.pending.None?
    ensures ok ==> Resident(lib, name, c'.store, poll.doc)
    ensures ok ==> !c'.store.states[name].excluded && c'.store.states[name].loadedAt == at
    ensures ok <==> poll.behaviour.Honest? && !Paginated(poll.header) && Decoded(lib, poll.doc).Some?
  {
    LoadKeepsCoherence(lib, rep, name, c, doc, poll);
    var loaded := AfterLoad(lib, c, Answer(poll, c.etag));
    if loaded.pending.Some? {
      DeliveryKeepsCoherence(lib, rep, name, loaded, poll.doc, at, c', ok);
    }
  }

  /** Steps of others keep coherence, also between a load and its delivery. */
  lemma ElsewhereKeepsCoherence(lib: Digests, rep: string -> Envelope, name: string, c: Client, doc: Envelope,
                                c': Client)
    requires Coherent(lib, rep, name, c, doc)
    requires Elsewhere(name, c.store, c'.store) && c' == c.(store := c'.store)
    ensures Coherent(lib, rep, name, c', doc)
    ensures c'.store.states[name].contribution == c.store.states[name].contribution
  {
    ElsewhereKeepsRecords(name, c.store, c'.store);
  }

  // ---------------------------------------------------------------- whole runs

  /** `doc` is history: the server's document at the last poll. */
  datatype Session = Session(client: Client, doc: Envelope)

  /** A load of some response, taken while the server had `poll`; its delivery; or a step of others. */
  datatype Event = Loads(response: Response, poll: Poll) | Delivery(at: Instant, ok: bool) | Other

  ghost predicate PollingStep(lib: Digests, name: string, s: Session, event: Event, s': Session) {
    match event
    case Loads(response, poll) =>
      s.client.pending.None? && s' == Session(AfterLoad(lib, s.client, response), poll.doc)
    case Delivery(at, ok) => Delivers(name, s.client, at, s'.client, ok) && s'.doc == s.doc
    case Other =>
      && Elsewhere(name, s.client.store, s'.client.store)
      && s' == Session(s.client.(store := s'.client.store), s.doc)
  }

  ghost predicate PollingRun(lib: Digests, name: string, trace: seq<Session>, events: seq<Event>) {
    && |trace| == |events| + 1
    && forall k :: 0 <= k < |events| ==> PollingStep(lib, name, trace[k], events[k], trace[k + 1])
  }

  /** The loads are answered by a server whose tag determines its document. */
  ghost predicate Served(rep: string -> Envelope, trace: seq<Session>, events: seq<Event>) {
    forall k :: 0 <= k < |events| && k < |trace| && events[k].Loads? ==>
      TagDetermines(rep, events[k].poll) && events[k].response == Answer(events[k].poll, trace[k].client.etag)
  }

  lemma StepKeepsBacked(lib: Digests, name: string, s: Session, event: Event, s': Session)
    requires Backed(name, s.client) && PollingStep(lib, name, s, event, s')
    ensures Backed(name, s'.client)
    ensures event.Delivery? ==> event.ok
  {
    match event
    case Loads(response, _) => LoadKeepsBacked(lib, name, s.client, response);
    case Delivery(at, ok) => DeliverySucceeds(name, s.client, at, s'.client, ok);
    case Other => ElsewhereKeepsRecords(name, s.client.store, s'.client.store);
  }

  lemma {:induction false} RunKeepsBacked(lib: Digests, name: string, trace: seq<Session>, events: seq<Event>, n: nat)
    requires PollingRun(lib, name, trace, events) && n <= |events| && Backed(name, trace[0].client)
    ensures Backed(name, trace[n].client)
  {
    if n > 0 {
      RunKeepsBacked(lib, name, trace, events, n - 1);
      assert PollingStep(lib, name, trace[n - 1], events[n - 1], trace[n - 1 + 1]);
      StepKeepsBacked(lib, name, trace[n - 1], events[n - 1], trace[n]);
    }
  }

  /** Against every server whatsoever, in every run, whatever others do between a load and its delivery:
      no delivery is ever refused by the store. */
  lemma EveryDeliverySucceeds(lib: Digests, name: string, trace: seq<Session>, events: seq<Event>, k: nat)
    requires PollingRun(lib, name, trace, events) && Backed(name, trace[0].client)
    requires k < |events| && events[k].Delivery?
    ensures events[k].ok
  {
    RunKeepsBacked(lib, name, trace, events, k);
    assert PollingStep(lib, name, trace[k], events[k], trace[k + 1]);
    StepKeepsBacked(lib, name, trace[k], events[k], trace[k + 1]);
  }

  lemma StepKeepsCoherence(lib: Digests, rep: string -> Envelope, name: string, s: Session, event: Event, s': Session)
    requires Coherent(lib, rep, name, s.client, s.doc) && PollingStep(lib, name, s, event, s')
    requires event.Loads? ==> TagDetermines(rep, event.poll) && event.response == Answer(event.poll, s.client.etag)
    ensures Coherent(lib, rep, name, s'.client, s'.doc)
    ensures event.Delivery? ==> event.ok && Resident(lib, name, s'.client.store, s.doc)
  {
    match event
    case Loads(_, poll) => LoadKeepsCoherence(lib, rep, name, s.client, s.doc, poll);
    case Delivery(at, ok) => DeliveryKeepsCoherence(lib, rep, name, s.client, s.doc, at, s'.client, ok);
    case Other => ElsewhereKeepsCoherence(lib, rep, name, s.client, s.doc, s'.client);
  }

  lemma {:induction false} RunKeepsCoherence(lib: Digests, rep: string -> Envelope, name: string, trace: seq<Session>,
                                             events: seq<Event>, n: nat)
    requires PollingRun(lib, name, trace, events) && Served(rep, trace, events) && n <= |events|
    requires Coherent(lib, rep, name, trace[0].client, trace[0].doc)
    ensures Coherent(lib, rep, name, trace[n].client, trace[n].doc)
  {
    if n > 0 {
      RunKeepsCoherence(lib, rep, name, trace, events, n - 1);
      assert PollingStep(lib, name, trace[n - 1], events[n - 1], trace[n - 1 + 1]);
      StepKeepsCoherence(lib, rep, name, trace[n - 1], events[n - 1], trace[n]);
    }
  }

  /** From every coherent start, in every run of loads answered 200, 304, without a tag, refused or with
      garbage, of their deliveries, and of registrations, the end of boot, other sources' refreshes and
      staleness evaluations anywhere in between: every delivery leaves the store holding exactly the
      document the server had at the poll it delivers, whatever came between the two. */
  lemma PollingIsCoherent(lib: Digests, rep: string -> Envelope, name: string, trace: seq<Session>,
                          events: seq<Event>, k: nat)
    requires PollingRun(lib, name, trace, events) && Served(rep, trace, events) && k < |events|
    requires Coherent(lib, rep, name, trace[0].client, trace[0].doc)
    ensures Coherent(lib, rep, name, trace[k + 1].client, trace[k + 1].doc)
    ensures events[k].Delivery? ==> events[k].ok && Resident(lib, name, trace[k + 1].client.store, trace[k].doc)
  {
    RunKeepsCoherence(lib, rep, name, trace, events, k);
    assert PollingStep(lib, name, trace[k], events[k], trace[k + 1]);
    StepKeepsCoherence(lib, rep, name, trace[k], events[k], trace[k + 1]);
  }

  /** In particular from registration on: a source that has not loaded yet is coherent, so the theorem
      covers its boot load, the end of boot and everything after. */
  lemma PollingIsCoherentFromRegistration(lib: Digests, rep: string -> Envelope, name: string, trace: seq<Session>,
                                          events: seq<Event>, k: nat)
    requires PollingRun(lib, name, trace, events) && Served(rep, trace, events) && k < |events|
    requires StoreInv(trace[0].client.store) && name in trace[0].client.store.states
    requires trace[0].client.etag == "" && trace[0].client.pending.None?
    ensures Coherent(lib, rep, name, trace[k + 1].client, trace[k + 1].doc)
    ensures events[k].Delivery? ==> events[k].ok && Resident(lib, name, trace[k + 1].client.store, trace[k].doc)
  {
    PollingIsCoherent(lib, rep, name, trace, events, k);
  }
}
