/**
 The weighted endpoint pool: shared mutable health flags, the rotating counter, the two
 failover loops and the health checks with backoff.
 */
module Pool {
  import opened Basics
  import opened Rotation

  const MAX_BACKOFF_MULTIPLIER := 10

  /** Health data of an endpoint; `nextCheck` None is Go's zero time. */
  datatype Condition = Condition(healthy: bool, consecutiveFails: nat, nextCheck: Option<int>)

  /** Whether a check at `now` probes the endpoint rather than skipping it. */
  predicate Due(h: Condition, now: int) {
    h.nextCheck.None? || now >= h.nextCheck.value
  }

  function AfterProbe(h: Condition, now: int, interval: nat, ok: bool): Condition {
    if ok then Condition(true, 0, None)
    else
      var fails := h.consecutiveFails + 1;
      Condition(false, fails,
                Some(now + (if fails < MAX_BACKOFF_MULTIPLIER then fails else MAX_BACKOFF_MULTIPLIER) * interval))
  }

  /** A check skips an endpoint that is not due, and otherwise records its probe. */
  function AfterCheck(h: Condition, now: int, interval: nat, ok: bool): Condition {
    if Due(h, now) then AfterProbe(h, now, interval, ok) else h
  }

  /** How one attempt at an endpoint ends. */
  datatype Outcome = Reply | NetworkError | ApplicationError

  /** `Unreachable` hands the caller the network error of the one attempt made. */
  datatype CallResult = Replied | AllFailed | Rejected | Unreachable

  /** A request body can be sent once, unless the request knows how to recreate it. */
  datatype Request = Request(hasBody: bool, canRecreate: bool)

  class Endpoint {
    var healthy: bool
    var consecutiveFails: nat
    var nextCheck: Option<int>

    ghost function State(): Condition
      reads this
    {
      Condition(healthy, consecutiveFails, nextCheck)
    }

    method SetHealthy(h: bool)
      modifies this`healthy
      ensures healthy == h
    {
      healthy := h;
    }

    /** The part of a check round that concerns this endpoint. */
    method Check(now: int, interval: nat, probe: bool)
      modifies this
      ensures State() == AfterCheck(old(State()), now, interval, probe)
    {
      if nextCheck.Some? && now < nextCheck.value {
        return;
      }
      healthy := probe;
      if probe {
        consecutiveFails := 0;
        nextCheck := None;
      } else {
        consecutiveFails := consecutiveFails + 1;
        var backoff := if consecutiveFails < MAX_BACKOFF_MULTIPLIER then consecutiveFails else MAX_BACKOFF_MULTIPLIER;
        nextCheck := Some(now + backoff * interval);
      }
    }

    constructor ()
      ensures healthy && consecutiveFails == 0 && nextCheck == None
    {
      healthy, consecutiveFails, nextCheck := true, 0, None;
    }
  }

  function EffectiveWeight(weight: int): nat {
    if weight <= 0 then 1 else weight
  }

  class MultiLocal {
    const endpoints: seq<Endpoint>
    const uniqueEndpoints: seq<Endpoint>
    var counter: nat
    const interval: nat
    var lastCheckAt: Option<int>

    /** The endpoints are each once in `uniqueEndpoints`, and the weighted list has no others. */
    ghost predicate Valid() {
      && Distinct(uniqueEndpoints)
      && (forall e :: e in endpoints ==> e in uniqueEndpoints)
      && (forall e :: e in uniqueEndpoints ==> e in endpoints)
    }

    /** The counter is far enough from 63-bit overflow for one more call. */
    ghost predicate InRange(calls: nat)
      reads this`counter
    {
      counter + calls + |endpoints| < TWO_63
    }

    ghost function Healthy(): set<Endpoint>
      reads uniqueEndpoints`healthy
    {
      set e | e in uniqueEndpoints && e.healthy
    }

    /** Lists each endpoint as often as its effective weight. */
    constructor (weights: seq<int>, interval: nat)
      ensures Valid() && counter == 0 && fresh(uniqueEndpoints) && |uniqueEndpoints| == |weights|
      ensures forall i :: 0 <= i < |weights| ==>
                multiset(endpoints)[uniqueEndpoints[i]] == EffectiveWeight(weights[i])
      ensures forall i :: 0 <= i < |weights| && weights[i] > 0 ==>
                multiset(endpoints)[uniqueEndpoints[i]] == weights[i]
      ensures forall i :: 0 <= i < |weights| && weights[i] <= 0 ==>
                multiset(endpoints)[uniqueEndpoints[i]] == 1
      ensures Healthy() == set e | e in uniqueEndpoints
    {
      var unique: seq<Endpoint> := [];
      var weighted: seq<Endpoint> := [];
      for i := 0 to |weights|
        invariant |unique| == i && Distinct(unique) && fresh(unique)
        invariant forall e :: e in weighted <==> e in unique
        invariant forall k :: 0 <= k < i ==> multiset(weighted)[unique[k]] == EffectiveWeight(weights[k])
        invariant forall e :: e in unique ==> e.healthy
      {
        var ep := new Endpoint();
        ghost var before := weighted;
        assert ep !in before && multiset(before)[ep] == 0;
        var weight := weights[i];
        if weight <= 0 {
          weight := 1;
        }
        for j := 0 to weight
          invariant forall e :: e in weighted <==> e in before || (e == ep && j > 0)
          invariant multiset(weighted)[ep] == j
          invariant forall e :: e != ep ==> multiset(weighted)[e] == multiset(before)[e]
        {
          weighted := weighted + [ep];
        }
        unique := unique + [ep];
      }
      endpoints, uniqueEndpoints := weighted, unique;
      counter := 0;
      this.interval := interval;
      lastCheckAt := None;
    }

    /** The first in-service endpoint in rotation order, or the first endpoint when none is. */
    method Next() returns (ep: Endpoint)
      requires Valid() && InRange(0) && uniqueEndpoints != []
      modifies this`counter
      ensures counter == old(counter) + 1
      ensures ep in uniqueEndpoints
      ensures endpoints != [] && IsNext(endpoints, Healthy(), uniqueEndpoints[0], old(counter), ep)
      ensures Healthy() != {} ==> ep in Healthy()
    {
      assert uniqueEndpoints[0] in endpoints;
      var start := counter;
      counter := counter + 1;
      ep := Scan(start);
    }

    /** The scanning loop of `Next`. */
    method Scan(start: nat) returns (ep: Endpoint)
      requires Valid() && uniqueEndpoints != [] && endpoints != [] && start + |endpoints| < TWO_63
      ensures ep in uniqueEndpoints
      ensures IsNext(endpoints, Healthy(), uniqueEndpoints[0], start, ep)
      ensures Healthy() != {} ==> ep in Healthy()
    {
      var n := |endpoints|;
      ghost var healthy := Healthy();
      for i := 0 to n
        invariant forall j :: 0 <= j < i ==> Rotated(endpoints, start)[j] !in healthy
      {
        MachineReadsRotation(endpoints, start, i);
        ep := endpoints[MachineIndex(start, i, n)];
        if ep.healthy {
          FoundIsNext(endpoints, healthy, uniqueEndpoints[0], start, i);
          return;
        }
      }
      ep := uniqueEndpoints[0];
      FallbackIsNext(endpoints, healthy, ep, start);
      assert forall e :: e in uniqueEndpoints ==> e in endpoints;
    }

    /** A network failure takes an endpoint out of service, for all its entries at once. */
    method TakeOut(ep: Endpoint)
      requires ep in uniqueEndpoints
      modifies ep`healthy
      ensures Healthy() == old(Healthy()) - {ep}
    {
      ep.SetHealthy(false);
    }

    /** One round of the failover loop: a network failure takes the chosen endpoint out of service. */
    method Attempt(outcome: Outcome) returns (ep: Endpoint)
      requires Valid() && InRange(0) && uniqueEndpoints != []
      modifies this`counter, uniqueEndpoints`healthy
      ensures counter == old(counter) + 1
      ensures ep in uniqueEndpoints && (old(Healthy()) != {} ==> ep in old(Healthy()))
      ensures Healthy() == if outcome.NetworkError? then old(Healthy()) - {ep} else old(Healthy())
    {
      ep := Next();
      if outcome.NetworkError? {
        TakeOut(ep);
      }
    }

    /** One non-streaming (or, with the same loop, one streaming) call, undisturbed by others.
        `outcome(k)` is how its k-th attempt ends. */
    method ChatCompletion(outcome: nat -> Outcome) returns (result: CallResult, attempts: seq<Endpoint>)
      requires Valid() && InRange(|uniqueEndpoints|)
      modifies this`counter, uniqueEndpoints`healthy
      ensures counter == old(counter) + |attempts| && |attempts| <= |uniqueEndpoints|
      ensures if uniqueEndpoints == [] then result == AllFailed && attempts == []
              else FailsOver(old(Healthy()), Healthy(), attempts, outcome, result)
    {
      attempts := [];
      ghost var entry := Healthy();
      EntrySize(entry);
      for i := 0 to |uniqueEndpoints|
        invariant |attempts| == i && counter == old(counter) + i
        invariant Failing(entry, Healthy(), attempts, outcome)
      {
        ghost var before := Healthy();
        var ep := Attempt(outcome(i));
        AttemptEnds(entry, before, attempts, ep, outcome);
        attempts := attempts + [ep];
        match outcome(i) {
          case Reply =>
            return Replied, attempts;
          case NetworkError =>
          case ApplicationError =>
            return Rejected, attempts;
        }
      }
      if uniqueEndpoints != [] {
        GivingUp(entry, Healthy(), attempts, outcome);
      }
      result := AllFailed;
    }

    /** One call of the round-robin transport, undisturbed by others.  `sentDrained` says whether some
        attempt sent a body an earlier attempt had already read from. */
    method RoundTrip(request: Request, outcome: nat -> Outcome)
      returns (result: CallResult, attempts: seq<Endpoint>, sentDrained: bool)
      requires Valid() && InRange(0) && uniqueEndpoints != []
      modifies this`counter, uniqueEndpoints`healthy
      ensures counter == old(counter) + 1 && !sentDrained && endpoints != []
      ensures var order := InOrder(Rotated(endpoints, old(counter)), old(Healthy()));
              if order == [] then BestEffort(endpoints[0], attempts, outcome, result) && Healthy() == old(Healthy())
              else TriesInOrder(order, request, attempts, outcome, result)
                   && Healthy() == old(Healthy()) - Lost(attempts, result)
    {
      assert uniqueEndpoints[0] in endpoints;
      var start := counter;
      counter := counter + 1;
      result, attempts, sentDrained := TryRotation(start, request, outcome);
      if attempts == [] {
        attempts := [endpoints[0]];
        result := match outcome(0)
          case Reply => Replied
          case NetworkError => Unreachable
          case ApplicationError => Rejected;
      }
    }

    /** The retry loop of `RoundTrip`: no attempts means that nothing was in service. */
    method TryRotation(start: nat, request: Request, outcome: nat -> Outcome)
      returns (result: CallResult, attempts: seq<Endpoint>, sentDrained: bool)
      requires Valid() && endpoints != [] && start + |endpoints| < TWO_63
      modifies uniqueEndpoints`healthy
      ensures !sentDrained
      ensures var order := InOrder(Rotated(endpoints, start), old(Healthy()));
              if attempts == [] then order == [] && Healthy() == old(Healthy())
              else TriesInOrder(order, request, attempts, outcome, result)
                   && Healthy() == old(Healthy()) - Lost(attempts, result)
    {
      var n := |endpoints|;
      attempts, sentDrained := [], false;
      var consumed := false;
      ghost var rotation := Rotated(endpoints, start);
      ghost var entry := Healthy();
      ghost var order := InOrder(rotation, entry);
      assert rotation[0..] == rotation;
      for i := 0 to n
        invariant Trying(order, rotation[i..], entry, Healthy(), attempts, outcome)
        invariant !sentDrained && (consumed ==> attempts != [])
        invariant attempts != [] ==> !request.hasBody || request.canRecreate
      {
        MachineReadsRotation(endpoints, start, i);
        var ep := endpoints[MachineIndex(start, i, n)];
        assert rotation[i..][0] == ep && rotation[i..][1..] == rotation[i + 1..];
        if !ep.healthy {
          continue;
        }
        TryNext(order, rotation[i..], entry, Healthy(), request, attempts, outcome);
        sentDrained := sentDrained || (consumed && request.hasBody && !request.canRecreate);
        consumed := true;
        var answer := outcome(|attempts|);
        attempts := attempts + [ep];
        match answer {
          case Reply =>
            return Replied, attempts, sentDrained;
          case NetworkError =>
            TakeOut(ep);
            if request.hasBody && !request.canRecreate {
              return Unreachable, attempts, sentDrained;
            }
          case ApplicationError =>
            return Rejected, attempts, sentDrained;
        }
      }
      assert rotation[n..] == [];
      AllTried(order, entry, Healthy(), request, attempts, outcome);
      result := AllFailed;
    }

    /** One round of health checks: `probes[i]` is how a probe of the i-th endpoint would go.  All
        next-check times count from the start of the round; `staggered` reports a round that comes
        after more than two intervals. */
    method CheckAll(now: int, probes: seq<bool>) returns (staggered: bool)
      requires Valid() && |probes| == |uniqueEndpoints|
      modifies this`lastCheckAt, uniqueEndpoints
      ensures lastCheckAt == Some(now)
      ensures staggered <==> old(lastCheckAt).Some? && now - old(lastCheckAt).value > 2 * interval
      ensures forall i :: 0 <= i < |uniqueEndpoints| ==>
                uniqueEndpoints[i].State() == AfterCheck(old(uniqueEndpoints[i].State()), now, interval, probes[i])
    {
      staggered := lastCheckAt.Some? && now - lastCheckAt.value > 2 * interval;
      lastCheckAt := Some(now);
      for i := 0 to |uniqueEndpoints|
        invariant lastCheckAt == Some(now)
        invariant forall k :: 0 <= k < i ==>
                    uniqueEndpoints[k].State() == AfterCheck(old(uniqueEndpoints[k].State()), now, interval, probes[k])
        invariant forall k :: i <= k < |uniqueEndpoints| ==>
                    uniqueEndpoints[k].State() == old(uniqueEndpoints[k].State())
      {
        uniqueEndpoints[i].Check(now, interval, probes[i]);
      }
    }

    lemma EntrySize(entry: set<Endpoint>)
      requires Valid() && forall e :: e in entry ==> e in uniqueEndpoints
      ensures |entry| <= |uniqueEndpoints|
    {
      SubsetSize(entry, uniqueEndpoints);
    }
  }

  lemma {:induction false} SubsetSize(s: set<Endpoint>, all: seq<Endpoint>)
    requires forall e :: e in s ==> e in all
    ensures |s| <= |all|
    decreases |all|
  {
    if all != [] {
      SubsetSize(s - {all[0]}, all[1..]);
    }
  }

  ghost function Tried(attempts: seq<Endpoint>, k: int): set<Endpoint> {
    set j | 0 <= j < k && j < |attempts| :: attempts[j]
  }

  /** While an endpoint of `entry` is untried, the k-th attempt goes to one of those. */
  ghost predicate PrefersUntried(entry: set<Endpoint>, attempts: seq<Endpoint>, k: nat)
    requires k < |attempts|
  {
    entry <= Tried(attempts, k) || (attempts[k] in entry && attempts[k] !in Tried(attempts, k))
  }

  /** The endpoints that leave service in a call with these attempts. */
  ghost function Lost(attempts: seq<Endpoint>, result: CallResult): set<Endpoint> {
    Tried(attempts, if result.AllFailed? || result.Unreachable? then |attempts| else |attempts| - 1)
  }

  /** With nothing in service the first entry is tried once, and its answer is the answer. */
  ghost predicate BestEffort(first: Endpoint, attempts: seq<Endpoint>, outcome: nat -> Outcome, result: CallResult) {
    && attempts == [first]
    && (result.Replied? <==> outcome(0).Reply?)
    && (result.Rejected? <==> outcome(0).ApplicationError?)
    && (result.Unreachable? <==> outcome(0).NetworkError?)
  }

  /** The endpoints of `order` are tried in that order, each at most once, up to the first answer that
      is not a network failure; a body that cannot be recreated allows one attempt only. */
  ghost predicate TriesInOrder(order: seq<Endpoint>, request: Request, attempts: seq<Endpoint>,
                               outcome: nat -> Outcome, result: CallResult)
  {
    var last := |attempts| - 1;
    var once := request.hasBody && !request.canRecreate;
    && attempts != [] && attempts <= order
    && (forall k :: 0 <= k < last ==> outcome(k).NetworkError?)
    && (result.Replied? <==> outcome(last).Reply?)
    && (result.Rejected? <==> outcome(last).ApplicationError?)
    && (result.Unreachable? <==> outcome(last).NetworkError? && once)
    && (result.AllFailed? <==> outcome(last).NetworkError? && !once)
    && (result.AllFailed? ==> attempts == order)
    && (once ==> |attempts| == 1)
  }

  /** So far every attempt failed on the network; `ahead` is the unscanned part of the rotation. */
  ghost predicate Trying(order: seq<Endpoint>, ahead: seq<Endpoint>, entry: set<Endpoint>, healthy: set<Endpoint>,
                         attempts: seq<Endpoint>, outcome: nat -> Outcome)
  {
    && order == attempts + InOrder(ahead, healthy)
    && healthy == entry - Tried(attempts, |attempts|)
    && (forall k :: 0 <= k < |attempts| ==> outcome(k).NetworkError?)
  }

  lemma TryNext(order: seq<Endpoint>, ahead: seq<Endpoint>, entry: set<Endpoint>, healthy: set<Endpoint>,
                request: Request, attempts: seq<Endpoint>, outcome: nat -> Outcome)
    requires Trying(order, ahead, entry, healthy, attempts, outcome) && ahead != [] && ahead[0] in healthy
    requires attempts != [] ==> !request.hasBody || request.canRecreate
    ensures var more := attempts + [ahead[0]];
            match outcome(|attempts|)
            case Reply =>
              TriesInOrder(order, request, more, outcome, Replied) && healthy == entry - Lost(more, Replied)
            case ApplicationError =>
              TriesInOrder(order, request, more, outcome, Rejected) && healthy == entry - Lost(more, Rejected)
            case NetworkError =>
              && Trying(order, ahead[1..], entry, healthy - {ahead[0]}, more, outcome)
              && (request.hasBody && !request.canRecreate ==>
                    TriesInOrder(order, request, more, outcome, Unreachable)
                    && healthy - {ahead[0]} == entry - Lost(more, Unreachable))
  {
    var rest := InOrder(ahead[1..], healthy - {ahead[0]});
    assert attempts + ([ahead[0]] + rest) == attempts + [ahead[0]] + rest;
    TriedOfPrefix(attempts, ahead[0], |attempts|);
  }

  lemma AllTried(order: seq<Endpoint>, entry: set<Endpoint>, healthy: set<Endpoint>, request: Request,
                 attempts: seq<Endpoint>, outcome: nat -> Outcome)
    requires Trying(order, [], entry, healthy, attempts, outcome)
    requires attempts != [] ==> !request.hasBody || request.canRecreate
    ensures attempts == order
    ensures attempts != [] ==> TriesInOrder(order, request, attempts, outcome, AllFailed)
    ensures healthy == entry - Lost(attempts, AllFailed)
  {
    assert attempts + [] == attempts;
  }

  /** What a failover call may do: `entry` and `after` are the endpoints in service before and after. */
  ghost predicate FailsOver(entry: set<Endpoint>, after: set<Endpoint>, attempts: seq<Endpoint>,
                            outcome: nat -> Outcome, result: CallResult)
  {
    var last := |attempts| - 1;
    && attempts != []
    // each attempt goes to an endpoint in service at entry and not yet tried, as long as there is one
    && (forall k :: 0 <= k < |attempts| ==> PrefersUntried(entry, attempts, k))
    // the call goes on exactly while attempts fail on the network
    && (forall k :: 0 <= k < last ==> outcome(k).NetworkError?)
    && (result.Replied? <==> outcome(last).Reply?)
    && (result.Rejected? <==> outcome(last).ApplicationError?)
    && (result.AllFailed? <==> outcome(last).NetworkError?)
    // giving up means that every endpoint in service at entry was tried, and failed
    && (result.AllFailed? ==> entry <= Tried(attempts, |attempts|))
    // exactly the endpoints that failed on the network leave service
    && after == entry - Tried(attempts, if result.AllFailed? then |attempts| else last)
  }

  lemma GivingUp(entry: set<Endpoint>, healthy: set<Endpoint>, attempts: seq<Endpoint>, outcome: nat -> Outcome)
    requires Failing(entry, healthy, attempts, outcome) && attempts != [] && |entry| <= |attempts|
    ensures FailsOver(entry, healthy, attempts, outcome, AllFailed)
  {
    NothingLeft(entry, Tried(attempts, |attempts|));
    assert healthy != {} ==> |healthy| > 0;
  }

  lemma NothingLeft(entry: set<Endpoint>, tried: set<Endpoint>)
    ensures entry - tried == {} ==> entry <= tried
  {
    forall e | e in entry && entry - tried == {} ensures e in tried {
      assert e in tried || e in entry - tried;
    }
  }

  /** How a call stands after one more attempt. */
  lemma AttemptEnds(entry: set<Endpoint>, healthy: set<Endpoint>, tried: seq<Endpoint>, ep: Endpoint,
                    outcome: nat -> Outcome)
    requires Failing(entry, healthy, tried, outcome) && (healthy != {} ==> ep in healthy)
    ensures match outcome(|tried|)
            case Reply => FailsOver(entry, healthy, tried + [ep], outcome, Replied)
            case NetworkError => Failing(entry, healthy - {ep}, tried + [ep], outcome)
            case ApplicationError => FailsOver(entry, healthy, tried + [ep], outcome, Rejected)
  {
    OneMoreAttempt(entry, healthy, tried, ep, outcome);
    Answered(entry, healthy, tried, ep, outcome);
  }

  lemma Answered(entry: set<Endpoint>, healthy: set<Endpoint>, tried: seq<Endpoint>, ep: Endpoint,
                 outcome: nat -> Outcome)
    requires Failing(entry, healthy, tried, outcome) && (healthy != {} ==> ep in healthy)
    ensures outcome(|tried|).Reply? ==> FailsOver(entry, healthy, tried + [ep], outcome, Replied)
    ensures outcome(|tried|).ApplicationError? ==> FailsOver(entry, healthy, tried + [ep], outcome, Rejected)
  {
    OneMoreAttempt(entry, healthy, tried, ep, outcome);
  }

  /** Every attempt so far failed on the network, and `healthy` is what is left of `entry`. */
  ghost predicate Failing(entry: set<Endpoint>, healthy: set<Endpoint>, attempts: seq<Endpoint>,
                          outcome: nat -> Outcome)
  {
    && (forall k :: 0 <= k < |attempts| ==> outcome(k).NetworkError? && PrefersUntried(entry, attempts, k))
    && healthy == entry - Tried(attempts, |attempts|)
    && (healthy != {} ==> |healthy| + |attempts| <= |entry|)
  }

  lemma OneMoreAttempt(entry: set<Endpoint>, healthy: set<Endpoint>, tried: seq<Endpoint>, ep: Endpoint,
                       outcome: nat -> Outcome)
    requires Failing(entry, healthy, tried, outcome) && (healthy != {} ==> ep in healthy)
    ensures forall k :: 0 <= k <= |tried| ==> PrefersUntried(entry, tried + [ep], k)
    ensures healthy == entry - Tried(tried + [ep], |tried|)
    ensures outcome(|tried|).NetworkError? ==> Failing(entry, healthy - {ep}, tried + [ep], outcome)
  {
    var attempts := tried + [ep];
    forall k | 0 <= k <= |tried| ensures Tried(attempts, k) == Tried(tried, k) {
      TriedOfPrefix(tried, ep, k);
    }
    assert Tried(attempts, |tried| + 1) == Tried(tried, |tried|) + {ep} by {
      TriedOfPrefix(tried, ep, |tried|);
    }
    forall k | 0 <= k <= |tried| ensures PrefersUntried(entry, attempts, k) {
      if k < |tried| {
        assert PrefersUntried(entry, tried, k) && attempts[k] == tried[k];
      } else {
        NothingLeft(entry, Tried(tried, k));
      }
    }
  }

  lemma TriedOfPrefix(tried: seq<Endpoint>, ep: Endpoint, k: nat)
    requires k <= |tried|
    ensures Tried(tried + [ep], k) == Tried(tried, k)
    ensures Tried(tried + [ep], |tried| + 1) == Tried(tried, |tried|) + {ep}
  {
    var attempts := tried + [ep];
    assert attempts[|tried|] == ep;
    assert forall j :: 0 <= j < |tried| ==> attempts[j] == tried[j];
  }
}
