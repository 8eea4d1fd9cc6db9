/**
 Health checks and passive failures of one endpoint, interleaved: the checker's two
 critical sections are separate steps and requests may fail in between.
 */
module Backoff {
  import opened Basics
  import opened Pool

  /** Where the checker stands: outside, waiting for its probe, or between the section that sets
      `healthy` and the one that records the backoff. */
  datatype CheckerPc = Outside | Probing(now: int) | Marked(now: int, ok: bool)

  /** `lastFailedProbe` is history: the start of the last round whose probe failed. */
  datatype EndpointSystem = EndpointSystem(h: Condition, pc: CheckerPc, lastFailedProbe: Option<int>)

  datatype Step =
    | BeginCheck(now: int)
    | SkipCheck(now: int)
    | MarkHealth(ok: bool)
    | RecordBackoff
    | PassiveFailure

  predicate Enabled(s: EndpointSystem, step: Step) {
    match step
    case BeginCheck(now) => s.pc.Outside? && Due(s.h, now)
    case SkipCheck(now) => s.pc.Outside? && !Due(s.h, now)
    case MarkHealth(_) => s.pc.Probing?
    case RecordBackoff => s.pc.Marked?
    case PassiveFailure => true
  }

  function Next(s: EndpointSystem, interval: nat, step: Step): EndpointSystem
    requires Enabled(s, step)
  {
    match step
    case BeginCheck(now) => s.(pc := Probing(now))
    case SkipCheck(_) => s
    case MarkHealth(ok) => s.(h := s.h.(healthy := ok), pc := Marked(s.pc.now, ok))
    case RecordBackoff =>
      var recorded := AfterProbe(s.h, s.pc.now, interval, s.pc.ok);
      EndpointSystem(s.h.(consecutiveFails := recorded.consecutiveFails, nextCheck := recorded.nextCheck),
                     Outside, if s.pc.ok then s.lastFailedProbe else Some(s.pc.now))
    case PassiveFailure => s.(h := s.h.(healthy := false))
  }

  const FRESH := EndpointSystem(Condition(true, 0, None), Outside, None)

  ghost predicate Run(interval: nat, trace: seq<EndpointSystem>, steps: seq<Step>) {
    && |trace| == |steps| + 1 && trace[0] == FRESH
    && forall k :: 0 <= k < |steps| ==>
         Enabled(trace[k], steps[k]) && trace[k + 1] == Next(trace[k], interval, steps[k])
  }

  function Multiplier(fails: nat): nat {
    if fails < MAX_BACKOFF_MULTIPLIER then fails else MAX_BACKOFF_MULTIPLIER
  }

  ghost predicate Inv(s: EndpointSystem, interval: nat) {
    && (s.h.consecutiveFails == 0 <==> s.h.nextCheck.None?)
    && (s.h.nextCheck.Some? ==>
          s.lastFailedProbe.Some?
          && s.h.nextCheck.value == s.lastFailedProbe.value + Multiplier(s.h.consecutiveFails) * interval)
    && (s.h.healthy ==> s.h.nextCheck.None? || (s.pc.Marked? && s.pc.ok))
    && (s.pc.Marked? && !s.pc.ok ==> !s.h.healthy)
  }

  lemma NextKeepsInv(s: EndpointSystem, interval: nat, step: Step)
    requires Inv(s, interval) && Enabled(s, step)
    ensures Inv(Next(s, interval, step), interval)
  {
  }

  /** In every run of checks and passive failures: no failures counted iff no next check is set; the
      next check is the last failed probe plus its multiple of the interval, ten at most; and an endpoint
      in service has a next check only between the two sections that record its good probe. */
  lemma {:induction false} BackoffInvariant(interval: nat, trace: seq<EndpointSystem>, steps: seq<Step>)
    requires Run(interval, trace, steps)
    ensures Inv(trace[|steps|], interval)
    ensures var s := trace[|steps|];
            && (s.h.consecutiveFails == 0 <==> s.h.nextCheck.None?)
            && (s.h.healthy && s.h.nextCheck.Some? ==> s.pc.Marked? && s.pc.ok)
            && (s.h.nextCheck.Some? ==>
                  && s.lastFailedProbe.Some?
                  && s.h.nextCheck.value - s.lastFailedProbe.value
                     == (if s.h.consecutiveFails < 10 then s.h.consecutiveFails else 10) * interval
                  && s.h.nextCheck.value <= s.lastFailedProbe.value + 10 * interval)
  {
    if steps != [] {
      var k := |steps| - 1;
      BackoffInvariant(interval, trace[..k + 1], steps[..k]);
      NextKeepsInv(trace[k], interval, steps[k]);
    }
    var s := trace[|steps|];
    AtMostTen(s.h.consecutiveFails, interval);
  }

  /** That window is there: an endpoint that recovers is in service with its old next check until the
      second section has run. */
  lemma RecoveryHasAWindow() returns (trace: seq<EndpointSystem>, steps: seq<Step>)
    ensures Run(7, trace, steps)
    ensures trace[|steps|].h == Condition(true, 1, Some(7)) && trace[|steps|].pc == Marked(7, true)
  {
    steps := [BeginCheck(0), MarkHealth(false), RecordBackoff, BeginCheck(7), MarkHealth(true)];
    var failed := Condition(false, 1, Some(7));
    trace := [FRESH,
              EndpointSystem(Condition(true, 0, None), Probing(0), None),
              EndpointSystem(Condition(false, 0, None), Marked(0, false), None),
              EndpointSystem(failed, Outside, Some(0)),
              EndpointSystem(failed, Probing(7), Some(0)),
              EndpointSystem(Condition(true, 1, Some(7)), Marked(7, true), Some(0))];
  }

  /** The condition after checks at these times, whose probes all fail. */
  function Outage(interval: nat, checks: seq<int>): Condition {
    if checks == [] then FRESH.h
    else AfterCheck(Outage(interval, checks[..|checks| - 1]), checks[|checks| - 1], interval, false)
  }

  /** An outage in which no check comes too early: after `k` failed probes the next one waits `k` intervals,
      from the tenth on ten; a check before then leaves everything as it is, and a good probe ends it. */
  lemma {:induction false} OutageBacksOff(interval: nat, checks: seq<int>)
    requires checks != []
    requires forall i :: 0 < i < |checks| ==> checks[i] >= checks[i - 1] + (if i < 10 then i else 10) * interval
    ensures var k, last, down := |checks|, checks[|checks| - 1], Outage(interval, checks);
            && down == Condition(false, k, Some(last + (if k < 10 then k else 10) * interval))
            && (forall now, ok :: now < last + (if k < 10 then k else 10) * interval ==>
                  AfterCheck(down, now, interval, ok) == down)
            && (forall now :: now >= last + (if k < 10 then k else 10) * interval ==>
                  AfterCheck(down, now, interval, true) == Condition(true, 0, None))
    decreases |checks|
  {
    if |checks| > 1 {
      OutageBacksOff(interval, checks[..|checks| - 1]);
    } else {
      assert checks[..0] == [];
    }
  }

  lemma AtMostTen(fails: nat, interval: nat)
    ensures Multiplier(fails) * interval <= 10 * interval
  {
  }

  /** An endpoint that fails passively while in service is probed by the very next check, whenever
      that comes; and one out of service is probed by every check from ten intervals after its last
      failed probe on, and a good probe brings it back at once. */
  lemma FailedEndpointIsProbedInTime(interval: nat, trace: seq<EndpointSystem>, steps: seq<Step>, now: int)
    requires Run(interval, trace, steps) && trace[|steps|].pc.Outside?
    ensures var s := trace[|steps|];
            && (s.h.healthy ==> Enabled(Next(s, interval, PassiveFailure), BeginCheck(now)))
            && (s.lastFailedProbe.Some? && s.lastFailedProbe.value + 10 * interval <= now ==> Due(s.h, now))
            && (Due(s.h, now) ==>
                  AfterCheck(s.h, now, interval, true) == Condition(true, 0, None)
                  && (var marked := Next(Next(s, interval, BeginCheck(now)), interval, MarkHealth(true));
                      Next(marked, interval, RecordBackoff).h == Condition(true, 0, None)))
  {
    BackoffInvariant(interval, trace, steps);
  }
}
