/** Asking a deterministic backend through the cache. */
module Memo {
  import opened Basics
  import opened RecencySpec

  /** A question, with the clock at the lookup and at the store. */
  datatype Call = Call(text: string, getAt: int, putAt: int)

  /** A backend, the hash its cache is keyed by, and which cached values may be used. */
  datatype Service<!V, !E> = Service(
    backend: string -> Result<V, E>, hash: string -> string, usable: V -> bool, capacity: int, ttl: int)

  /** A lookup; failing that the backend, whose successes are stored and whose failures are not. */
  function Ask<V, E>(s: Service<V, E>, items: seq<Item<V>>, call: Call): (seq<Item<V>>, Result<V, E>) {
    var (looked, hit) := AfterGet(items, s.hash(call.text), call.getAt);
    if hit.Some? && s.usable(hit.value) then (looked, Success(hit.value))
    else Answered(s, looked, call.text, call.putAt)
  }

  function Answered<V, E>(s: Service<V, E>, looked: seq<Item<V>>, text: string, now: int)
    : (seq<Item<V>>, Result<V, E>)
  {
    var r := s.backend(text);
    if r.Success? then (AfterPut(looked, s.capacity, s.ttl, s.hash(text), r.value, now), r) else (looked, r)
  }

  ghost predicate Injective(hash: string -> string) {
    forall p, q :: hash(p) == hash(q) ==> p == q
  }

  /** Whatever is cached under a text's key is the backend's answer to that text. */
  ghost predicate Sound<V, E>(s: Service<V, E>, items: seq<Item<V>>) {
    && DistinctKeys(items)
    && forall item, text | item in items && s.hash(text) == item.key :: s.backend(text) == Success(item.value)
  }

  lemma GetKeepsSound<V, E>(s: Service<V, E>, items: seq<Item<V>>, text: string, now: int)
    requires Sound(s, items)
    ensures var (looked, hit) := AfterGet(items, s.hash(text), now);
            Sound(s, looked) && (hit.Some? ==> s.backend(text) == Success(hit.value))
  {
    StepIsSound(items, s.capacity, s.ttl, Get(s.hash(text), now));
    var i := Find(items, s.hash(text));
    assert i < |items| ==> items[i] in items;
  }

  lemma PutKeepsSound<V, E>(s: Service<V, E>, items: seq<Item<V>>, text: string, value: V, now: int)
    requires Injective(s.hash) && Sound(s, items) && s.backend(text) == Success(value)
    ensures Sound(s, AfterPut(items, s.capacity, s.ttl, s.hash(text), value, now))
  {
    StepIsSound(items, s.capacity, s.ttl, Put(s.hash(text), value, now));
  }

  /** One question through the cache is answered as the backend answers it. */
  lemma AskIsTransparent<V, E>(s: Service<V, E>, items: seq<Item<V>>, call: Call)
    requires Injective(s.hash) && Sound(s, items)
    ensures Ask(s, items, call).1 == s.backend(call.text) && Sound(s, Ask(s, items, call).0)
  {
    GetKeepsSound(s, items, call.text, call.getAt);
    var (looked, hit) := AfterGet(items, s.hash(call.text), call.getAt);
    var r := s.backend(call.text);
    if r.Success? {
      PutKeepsSound(s, looked, call.text, r.value, call.putAt);
    }
  }

  /** An answer that went into the cache is what the next question about the text finds until it expires: asking
      again changes nothing there, so nothing is stored twice and no lifetime is extended. */
  lemma AnswerIsRemembered<V, E>(s: Service<V, E>, items: seq<Item<V>>, first: Call, second: Call)
    requires first.text == second.text && AfterGet(items, s.hash(first.text), first.getAt).1.None?
    requires s.backend(first.text).Success? && s.usable(s.backend(first.text).value)
    requires second.getAt <= first.putAt + s.ttl
    ensures Ask(s, Ask(s, items, first).0, second) == (Ask(s, items, first).0, s.backend(first.text))
  {
    var key := s.hash(first.text);
    JustPut(AfterGet(items, key, first.getAt).0, s.capacity, s.ttl, key, s.backend(first.text).value, first.putAt,
            second.getAt);
  }

  lemma JustPut<V>(items: seq<Item<V>>, capacity: int, ttl: int, key: string, value: V, putAt: int, getAt: int)
    requires getAt <= putAt + ttl
    ensures var put := AfterPut(items, capacity, ttl, key, value, putAt);
            AfterGet(put, key, getAt) == (put, Some(value))
  {
    var put := AfterPut(items, capacity, ttl, key, value, putAt);
    assert put[0].key == key && Find(put, key) == 0;
    assert [put[0]] + Without(put, 0) == put;
  }

  /** The cache and the answers after a sequence of questions. */
  function Answers<V, E>(s: Service<V, E>, calls: seq<Call>): (r: (seq<Item<V>>, seq<Result<V, E>>))
    ensures |r.1| == |calls|
  {
    if calls == [] then ([], [])
    else
      var (items, answers) := Answers(s, calls[..|calls| - 1]);
      var (items', answer) := Ask(s, items, calls[|calls| - 1]);
      (items', answers + [answer])
  }

  /** Every run of questions is answered as without a cache, whatever expires or is evicted on the way. */
  lemma {:induction false} RunIsTransparent<V, E>(s: Service<V, E>, calls: seq<Call>)
    requires Injective(s.hash)
    ensures Sound(s, Answers(s, calls).0)
    ensures forall i :: 0 <= i < |calls| ==> Answers(s, calls).1[i] == s.backend(calls[i].text)
  {
    if calls != [] {
      var before := calls[..|calls| - 1];
      RunIsTransparent(s, before);
      AskIsTransparent(s, Answers(s, before).0, calls[|calls| - 1]);
    }
  }

  // ---------------------------------------------------------------- concurrent questions

  /** Questions in progress: `asking` have missed the cache and not yet stored or failed; `asked` and
      `answers` are history, by question. */
  datatype Desk<V, E> = Desk(
    items: seq<Item<V>>, asking: map<nat, string>, asked: map<nat, string>, answers: map<nat, Result<V, E>>)

  /** The cache is locked for a lookup and again for a store, and anything may come in between. */
  datatype Turn = Begin(id: nat, text: string, now: int) | Finish(id: nat, now: int)

  function EmptyDesk<V, E>(): Desk<V, E> {
    Desk([], map[], map[], map[])
  }

  /** A new question looks up and is answered or goes to the backend; one at the backend gets its answer
      and stores it if it is a success. */
  function AfterTurn<V, E>(s: Service<V, E>, d: Desk<V, E>, turn: Turn): Desk<V, E> {
    match turn
    case Begin(id, text, now) =>
      if id in d.asked then d
      else
        var (looked, hit) := AfterGet(d.items, s.hash(text), now);
        if hit.Some? && s.usable(hit.value)
        then Desk(looked, d.asking, d.asked[id := text], d.answers[id := Success(hit.value)])
        else Desk(looked, d.asking[id := text], d.asked[id := text], d.answers)
    case Finish(id, now) =>
      if id !in d.asking then d
      else
        var (items, answer) := Answered(s, d.items, d.asking[id], now);
        Desk(items, d.asking - {id}, d.asked, d.answers[id := answer])
  }

  function AfterTurns<V, E>(s: Service<V, E>, turns: seq<Turn>): Desk<V, E> {
    if turns == [] then EmptyDesk()
    else AfterTurn(s, AfterTurns(s, turns[..|turns| - 1]), turns[|turns| - 1])
  }

  /** Every question asked has the backend's answer or is still at the backend. */
  ghost predicate Truthful<V, E>(s: Service<V, E>, d: Desk<V, E>) {
    && (forall id :: id in d.asked <==> id in d.asking || id in d.answers)
    && (forall id :: id in d.asking ==> id in d.asked && d.asking[id] == d.asked[id])
    && (forall id :: id in d.answers ==> id in d.asked && d.answers[id] == s.backend(d.asked[id]))
  }

  lemma TurnKeepsTruth<V, E>(s: Service<V, E>, d: Desk<V, E>, turn: Turn)
    requires Injective(s.hash) && Sound(s, d.items) && Truthful(s, d)
    ensures Sound(s, AfterTurn(s, d, turn).items) && Truthful(s, AfterTurn(s, d, turn))
  {
    match turn
    case Begin(id, text, now) => GetKeepsSound(s, d.items, text, now);
    case Finish(id, now) =>
      if id in d.asking && s.backend(d.asking[id]).Success? {
        PutKeepsSound(s, d.items, d.asking[id], s.backend(d.asking[id]).value, now);
      }
  }

  /** However lookups and stores of any number of questions interleave, and whatever expires or is evicted
      on the way: every question answered has the backend's answer. */
  lemma {:induction false} InterleavingIsTransparent<V, E>(s: Service<V, E>, turns: seq<Turn>)
    requires Injective(s.hash)
    ensures Sound(s, AfterTurns(s, turns).items) && Truthful(s, AfterTurns(s, turns))
  {
    if turns != [] {
      InterleavingIsTransparent(s, turns[..|turns| - 1]);
      TurnKeepsTruth(s, AfterTurns(s, turns[..|turns| - 1]), turns[|turns| - 1]);
    }
  }

  /** Injectivity is needed: two texts with one key and different answers are told apart by no cache
      that keeps the first answer. */
  lemma CollisionIsVisible<V, E>(s: Service<V, E>, p: string, q: string, value: V, now: int)
    requires s.hash(p) == s.hash(q) && s.backend(p) == Success(value) && s.usable(value) && s.ttl >= 0
    requires s.backend(q) != Success(value)
    ensures Answers(s, [Call(p, now, now), Call(q, now, now)]).1[1] != s.backend(q)
  {
    var first, second := Call(p, now, now), Call(q, now, now);
    assert [first, second][..1] == [first] && [first][..0] == [];
    assert Answers(s, [first]).0 == Ask(s, [], first).0;
    assert Ask(s, [], first).0 == [Item(s.hash(p), value, now + s.ttl)];
  }
}
