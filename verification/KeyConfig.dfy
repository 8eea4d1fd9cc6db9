/**
 Validation of the key configuration, in 64-bit durations, and the timing guarantee
 that its staleness rule buys.
 */
module KeyConfig {
  import opened Basics
  import opened Text
  import opened KeyModel
  import opened StalenessProtocol
  import StalenessTheorems

  /** `time.Duration`: every operation on it is proved not to overflow. */
  newtype Duration = x: int | -0x8000_0000_0000_0000 <= x < 0x8000_0000_0000_0000

  const MAX_DURATION: Duration := 0x7fff_ffff_ffff_ffff

  const CONFIG_SOURCE := "config"

  /** `absolute` says whether the base URL parses as an absolute HTTP(S) URL. */
  datatype SourceConfig =
    | File(name: string, pollInterval: Duration, path: string)
    | Http(name: string, pollInterval: Duration, timeout: Duration, absolute: bool)
    | Unsupported

  function TimeoutOf(source: SourceConfig): Duration {
    if source.Http? then source.timeout else 0
  }

  /** The name a source goes by: its own, trimmed, or its type and position. */
  function ResolvedName(source: SourceConfig, i: nat): string
    requires !source.Unsupported?
  {
    var trimmed := Trim(GoSpace, source.name);
    if trimmed != "" then trimmed
    else (if source.File? then "file" else "http") + "[" + Decimal(i) + "]"
  }

  function Resolved(source: SourceConfig, i: nat): SourceConfig {
    if source.Unsupported? then source else source.(name := ResolvedName(source, i))
  }

  /** Everything source `i` must satisfy on its own. */
  ghost predicate SourceAcceptable(source: SourceConfig, maxStaleness: Option<Duration>) {
    && !source.Unsupported?
    && source.pollInterval > 0
    && (source.File? ==> Trim(GoSpace, source.path) != "")
    && (source.Http? ==> source.timeout > 0 && source.absolute)
    && source.pollInterval as int + TimeoutOf(source) as int <= MAX_DURATION as int
    && (maxStaleness.Some? && maxStaleness.value > 0 ==>
          source.pollInterval as int + TimeoutOf(source) as int < maxStaleness.value as int)
  }

  /** Source `k` goes by `name`. */
  ghost predicate Named(sources: seq<SourceConfig>, k: int, name: string) {
    0 <= k < |sources| && !sources[k].Unsupported? && ResolvedName(sources[k], k) == name
  }

  /** No two sources share a resolved name, and none is called "config". */
  ghost predicate NamesAcceptable(sources: seq<SourceConfig>) {
    && (forall k :: !Named(sources, k, CONFIG_SOURCE))
    && (forall j, k, name :: Named(sources, j, name) && Named(sources, k, name) ==> j == k)
  }

  ghost predicate Accepted(enabled: bool, keyCount: nat, sources: seq<SourceConfig>, maxStaleness: Option<Duration>) {
    && (maxStaleness.Some? ==> maxStaleness.value >= 0)
    && if !enabled then sources == []
       else
         && (keyCount > 0 || sources != [])
         && AllAcceptable(sources, maxStaleness)
  }

  ghost predicate AllAcceptable(sources: seq<SourceConfig>, maxStaleness: Option<Duration>) {
    NamesAcceptable(sources) && forall i :: 0 <= i < |sources| ==> SourceAcceptable(sources[i], maxStaleness)
  }

  /** Accepts exactly the configurations `Accepted` describes, without overflowing on any input,
      and leaves every source of an accepted configuration under its resolved name. */
  method Validate(enabled: bool, keyCount: nat, sources: array<SourceConfig>, maxStaleness: Option<Duration>)
    returns (ok: bool)
    modifies sources
    ensures ok == Accepted(enabled, keyCount, old(sources[..]), maxStaleness)
    ensures ok ==> forall i :: 0 <= i < sources.Length ==> sources[i] == Resolved(old(sources[i]), i)
    ensures ok ==> NamesApart(sources[..])
  {
    if maxStaleness.Some? && maxStaleness.value < 0 {
      return false;
    }
    if !enabled {
      return sources.Length == 0;
    }
    if keyCount == 0 && sources.Length == 0 {
      return false;
    }
    PassingIsAcceptable(sources[..], maxStaleness);
    ghost var was := sources[..];
    ok := ValidateSources(sources, maxStaleness);
    if ok {
      ResolvedApart(was, maxStaleness);
    }
  }

  /** Every source has a name, its own alone, and none is called "config". */
  ghost predicate NamesApart(sources: seq<SourceConfig>) {
    && (forall i :: 0 <= i < |sources| ==> !sources[i].Unsupported? && sources[i].name !in {"", "config"})
    && (forall i, j :: 0 <= i < j < |sources| && !sources[i].Unsupported? && !sources[j].Unsupported? ==>
          sources[i].name != sources[j].name)
  }

  lemma ResolvedApart(sources: seq<SourceConfig>, maxStaleness: Option<Duration>)
    requires AllAcceptable(sources, maxStaleness)
    ensures NamesApart(ResolvedTo(sources, |sources|))
  {
    var resolved := ResolvedTo(sources, |sources|);
    forall i | 0 <= i < |sources|
      ensures !resolved[i].Unsupported? && Named(sources, i, resolved[i].name)
      ensures resolved[i].name !in {"", "config"}
    {
      assert SourceAcceptable(sources[i], maxStaleness);
      assert Named(sources, i, ResolvedName(sources[i], i));
    }
  }

  /** The names taken once the loop has gone through `sources`. */
  function NamesTaken(sources: seq<SourceConfig>): set<string> {
    if sources == [] then {CONFIG_SOURCE}
    else
      var i := |sources| - 1;
      NamesTaken(sources[..i]) + if sources[i].Unsupported? then {} else {ResolvedName(sources[i], i)}
  }

  /** The loop has gone through `sources` without rejecting any. */
  ghost predicate Passing(sources: seq<SourceConfig>, maxStaleness: Option<Duration>)
    decreases |sources|
  {
    sources == [] ||
    var i := |sources| - 1;
    && Passing(sources[..i], maxStaleness)
    && SourceAcceptable(sources[i], maxStaleness)
    && ResolvedName(sources[i], i) !in NamesTaken(sources[..i])
  }

  lemma {:induction false} PassingPrefix(sources: seq<SourceConfig>, maxStaleness: Option<Duration>, i: nat)
    requires i <= |sources| && Passing(sources, maxStaleness)
    ensures Passing(sources[..i], maxStaleness)
    decreases |sources|
  {
    if i < |sources| {
      PassingPrefix(sources[..|sources| - 1], maxStaleness, i);
      assert sources[..|sources| - 1][..i] == sources[..i];
    } else {
      assert sources[..i] == sources;
    }
  }

  /** The loop of `Validate`. */
  method ValidateSources(sources: array<SourceConfig>, maxStaleness: Option<Duration>) returns (ok: bool)
    modifies sources
    ensures ok <==> Passing(old(sources[..]), maxStaleness)
    ensures ok ==> sources[..] == ResolvedTo(old(sources[..]), sources.Length)
  {
    var names := {CONFIG_SOURCE};
    ghost var was := sources[..];
    for i := 0 to sources.Length
      invariant sources[..] == ResolvedTo(was, i)
      invariant Passing(was[..i], maxStaleness) && names == NamesTaken(was[..i])
    {
      var source := sources[i];
      Round(was, maxStaleness, i);
      ResolveNext(was, i);
      assert source == sources[..][i] == was[i];
      if source.Unsupported? {
        return false;
      }
      var name := ResolvedName(source, i);
      if name in names {
        return false;
      }
      names := names + {name};
      ghost var before := sources[..];
      sources[i] := source.(name := name);
      assert sources[..] == before[i := source.(name := name)];
      var accepted := ValidateSource(source, maxStaleness);
      if !accepted {
        return false;
      }
    }
    assert was[..sources.Length] == was;
    ok := true;
  }

  /** The sources with the first `i` under their resolved names. */
  function ResolvedTo(sources: seq<SourceConfig>, i: nat): (r: seq<SourceConfig>)
    ensures |r| == |sources|
    ensures forall k :: 0 <= k < |sources| ==> r[k] == if k < i then Resolved(sources[k], k) else sources[k]
  {
    seq(|sources|, k requires 0 <= k < |sources| => if k < i then Resolved(sources[k], k) else sources[k])
  }

  lemma ResolveNext(sources: seq<SourceConfig>, i: nat)
    requires i < |sources|
    ensures ResolvedTo(sources, 0) == sources && ResolvedTo(sources, i)[i] == sources[i]
    ensures ResolvedTo(sources, i)[i := Resolved(sources[i], i)] == ResolvedTo(sources, i + 1)
  {
  }

  /** What one round of the loop decides. */
  lemma Round(sources: seq<SourceConfig>, maxStaleness: Option<Duration>, i: nat)
    requires i < |sources| && Passing(sources[..i], maxStaleness)
    ensures Passing(sources[..i + 1], maxStaleness) <==>
              SourceAcceptable(sources[i], maxStaleness)
              && ResolvedName(sources[i], i) !in NamesTaken(sources[..i])
    ensures Passing(sources, maxStaleness) ==> Passing(sources[..i + 1], maxStaleness)
    ensures NamesTaken(sources[..i + 1]) == NamesTaken(sources[..i])
                                            + if sources[i].Unsupported? then {} else {ResolvedName(sources[i], i)}
  {
    assert sources[..i + 1][..i] == sources[..i] && sources[..i + 1][i] == sources[i];
    if Passing(sources, maxStaleness) {
      PassingPrefix(sources, maxStaleness, i + 1);
    }
  }

  /** `names` holds the reserved name and the resolved names of `sources`. */
  ghost predicate NamesOf(sources: seq<SourceConfig>, names: set<string>) {
    && CONFIG_SOURCE in names
    && (forall k, n :: Named(sources, k, n) ==> n in names)
    && (forall n :: n in names && n != CONFIG_SOURCE ==> exists k :: Named(sources, k, n))
  }

  lemma NamedInPrefix(sources: seq<SourceConfig>, i: nat, k: int, n: string)
    requires i < |sources|
    ensures Named(sources[..i + 1], k, n) <==> Named(sources[..i], k, n) || (k == i && Named(sources, i, n))
    ensures Named(sources[..i], k, n) ==> Named(sources, k, n) && k < i
  {
  }

  lemma NameTaken(sources: seq<SourceConfig>, i: nat, names: set<string>, name: string)
    requires i < |sources| && Named(sources, i, name) && NamesOf(sources[..i], names) && name in names
    ensures !NamesAcceptable(sources)
  {
    if name != CONFIG_SOURCE {
      var k :| Named(sources[..i], k, name);
      NamedInPrefix(sources, i, k, name);
    }
  }

  lemma NameAdded(sources: seq<SourceConfig>, i: nat, names: set<string>, name: string)
    requires i < |sources| && Named(sources, i, name) && name !in names
    requires NamesAcceptable(sources[..i]) && NamesOf(sources[..i], names)
    ensures NamesAcceptable(sources[..i + 1]) && NamesOf(sources[..i + 1], names + {name})
  {
    var before, longer := sources[..i], sources[..i + 1];
    forall k, n | Named(longer, k, n) ensures if k == i then n == name else Named(before, k, n) {
      NamedInPrefix(sources, i, k, n);
    }
    forall k, n | Named(before, k, n) ensures Named(longer, k, n) && n in names {
      NamedInPrefix(sources, i, k, n);
    }
    assert Named(longer, i, name);
  }

  lemma NextSource(sources: seq<SourceConfig>, i: nat, names: set<string>, maxStaleness: Option<Duration>)
    requires i == |sources| - 1 && AllAcceptable(sources[..i], maxStaleness) && NamesOf(sources[..i], names)
    ensures SourceAcceptable(sources[i], maxStaleness) && ResolvedName(sources[i], i) !in names <==>
              AllAcceptable(sources, maxStaleness)
    ensures SourceAcceptable(sources[i], maxStaleness) && ResolvedName(sources[i], i) !in names ==>
              NamesOf(sources, names + {ResolvedName(sources[i], i)})
  {
    if !sources[i].Unsupported? {
      NextName(sources, i, names);
    }
    assert sources[..i + 1] == sources;
    assert forall k :: 0 <= k < i ==> sources[..i][k] == sources[k];
  }

  lemma AcceptablePrefix(sources: seq<SourceConfig>, i: nat, maxStaleness: Option<Duration>)
    requires i < |sources| && AllAcceptable(sources, maxStaleness)
    ensures AllAcceptable(sources[..i], maxStaleness)
  {
    forall k, n ensures Named(sources[..i], k, n) ==> Named(sources, k, n) {
      NamedInPrefix(sources, i, k, n);
    }
  }

  /** Going through the sources one by one rejects none exactly when all are acceptable together. */
  lemma {:induction false} PassingIsAcceptable(sources: seq<SourceConfig>, maxStaleness: Option<Duration>)
    ensures Passing(sources, maxStaleness) <==> AllAcceptable(sources, maxStaleness)
    ensures Passing(sources, maxStaleness) ==> NamesOf(sources, NamesTaken(sources))
    decreases |sources|
  {
    if sources != [] {
      var i := |sources| - 1;
      PassingIsAcceptable(sources[..i], maxStaleness);
      if Passing(sources[..i], maxStaleness) {
        NextSource(sources, i, NamesTaken(sources[..i]), maxStaleness);
      } else if AllAcceptable(sources, maxStaleness) {
        AcceptablePrefix(sources, i, maxStaleness);
      }
    }
  }

  lemma NextName(sources: seq<SourceConfig>, i: nat, names: set<string>)
    requires i < |sources| && !sources[i].Unsupported?
    requires NamesAcceptable(sources[..i]) && NamesOf(sources[..i], names)
    ensures ResolvedName(sources[i], i) !in names ==>
              NamesAcceptable(sources[..i + 1]) && NamesOf(sources[..i + 1], names + {ResolvedName(sources[i], i)})
    ensures ResolvedName(sources[i], i) in names ==> !NamesAcceptable(sources)
  {
    if ResolvedName(sources[i], i) in names {
      NameTaken(sources, i, names, ResolvedName(sources[i], i));
    } else {
      NameAdded(sources, i, names, ResolvedName(sources[i], i));
    }
  }

  /** A source's name is its own without the blanks around it, or, when that leaves nothing, its type and its
      position in decimal. */
  lemma NamesOfSources(source: SourceConfig, left: string, name: string, right: string, i: nat)
    requires !source.Unsupported?
    requires Blank(GoSpace, left) && Blank(GoSpace, right)
    requires name != "" ==> !GoSpace(name[0]) && !GoSpace(name[|name| - 1])
    requires source.name == left + name + right
    ensures name != "" ==> ResolvedName(source, i) == name
    ensures name == "" && source.File? ==> ResolvedName(source, i) == "file[" + Decimal(i) + "]"
    ensures name == "" && source.Http? ==> ResolvedName(source, i) == "http[" + Decimal(i) + "]"
  {
    if name != "" {
      TrimDrops(GoSpace, left, name, right);
    } else {
      assert forall c | c in source.name :: c in left || c in right;
      TrimIsEmpty(GoSpace, source.name);
    }
  }

  /** What acceptance of a source amounts to, by type. */
  lemma AcceptableSources(source: SourceConfig, limit: Duration)
    requires limit > 0
    ensures match source
            case File(_, poll, path) =>
              SourceAcceptable(source, Some(limit)) <==>
                poll > 0 && poll < limit && exists c :: c in path && !GoSpace(c)
            case Http(_, poll, timeout, absolute) =>
              SourceAcceptable(source, Some(limit)) <==>
                poll > 0 && timeout > 0 && absolute && poll as int + timeout as int < limit as int
            case Unsupported => !SourceAcceptable(source, Some(limit))
    ensures SourceAcceptable(source, Some(limit)) ==>
              SourceAcceptable(source, None) && SourceAcceptable(source, Some(0))
  {
    if source.File? {
      TrimIsEmpty(GoSpace, source.path);
    }
  }

  /** The checks on one source, in 64-bit arithmetic. */
  method ValidateSource(source: SourceConfig, maxStaleness: Option<Duration>) returns (ok: bool)
    requires !source.Unsupported?
    ensures ok == SourceAcceptable(source, maxStaleness)
  {
    if source.pollInterval <= 0 {
      return false;
    }
    if source.File? && Trim(GoSpace, source.path) == "" {
      return false;
    }
    if source.Http? && (source.timeout <= 0 || !source.absolute) {
      return false;
    }
    var timeout := TimeoutOf(source);
    if timeout > 0 && source.pollInterval > MAX_DURATION - timeout {
      return false;
    }
    var accommodation := source.pollInterval + timeout;
    if maxStaleness.Some? && maxStaleness.value > 0 && maxStaleness.value <= accommodation {
      return false;
    }
    ok := true;
  }

  /** A runner configuration for these sources: their intervals, and for an HTTP source its request
      timeout as the bound of a load.  Nothing in the configuration bounds how long reading a file takes. */
  ghost predicate Configures(sources: seq<SourceConfig>, config: map<string, RunnerConfig>) {
    forall i :: 0 <= i < |sources| && !sources[i].Unsupported? ==>
      && ResolvedName(sources[i], i) in config
      && config[ResolvedName(sources[i], i)].interval == sources[i].pollInterval as int
      && (sources[i].Http? ==> config[ResolvedName(sources[i], i)].timeout == sources[i].timeout as int)
  }

  /** For every accepted configuration: a source that is scheduled promptly, whose loads end within their
      bound and are all accepted, is in service in every state from its first refresh on, and younger
      than the limit if there is one, whatever the other sources and the evaluator do.  What acceptance
      checks is enough for an HTTP source; a file's reads must leave the limit above interval plus bound. */
  lemma HealthySourceNeverExcluded(keyCount: nat, sources: seq<SourceConfig>, maxStaleness: Duration, i: nat,
                                   config: map<string, RunnerConfig>, trace: seq<System>, actions: seq<Action>)
    requires Accepted(true, keyCount, sources, Some(maxStaleness)) && i < |sources|
    requires Configures(sources, config) && Run(config, trace, actions)
    requires trace[0].store.maxStaleness == maxStaleness as int
    requires var h := ResolvedName(sources[i], i);
             sources[i].File? && maxStaleness > 0 ==>
               config[h].interval + config[h].timeout < maxStaleness as int
    requires forall k :: 0 <= k < |actions| ==>
               StalenessTheorems.Ideal(config, ResolvedName(sources[i], i), trace[k], actions[k])
    ensures var h, s := ResolvedName(sources[i], i), trace[|actions|];
            && h in s.runners && h in s.store.states
            && (s.runners[h].refreshed ==>
                  !s.store.states[h].excluded && (maxStaleness > 0 ==> StalenessTheorems.Fresh(s, h)))
  {
    if maxStaleness > 0 {
      StalenessTheorems.HealthyRun(config, ResolvedName(sources[i], i), trace, actions);
    } else {
      StalenessTheorems.UnlimitedRun(config, trace, actions, ResolvedName(sources[i], i));
    }
  }

  const WITNESS := [Http("s", 5, 1, true)]

  /** The run that reaches the lag is one of an accepted configuration: an HTTP source polled every 5
      with timeout 1 under a limit of 10. */
  lemma LagIsReachedWhenAccepted(lag: nat) returns (config: map<string, RunnerConfig>, trace: seq<System>,
                                                    actions: seq<Action>)
    requires lag > 0
    ensures Accepted(true, 0, WITNESS, Some(10)) && Configures(WITNESS, config) && Run(config, trace, actions)
    ensures trace[0].store.maxStaleness == 10
    ensures var s := trace[|actions|];
            StalenessTheorems.Quiet(s) && StalenessTheorems.Lag(s) == lag
            && StalenessTheorems.OverdueBy(s, "s", lag - 1)
  {
    config := map["s" := RunnerConfig(5, 1)];
    trace, actions := StalenessTheorems.LagIsReached(lag);
    WitnessIsAccepted();
  }

  lemma WitnessIsAccepted()
    ensures ResolvedName(WITNESS[0], 0) == "s" && Accepted(true, 0, WITNESS, Some(10))
  {
    assert Trim(GoSpace, "s") == "s";
  }
}
