/** Routing by embedding similarity, with embeddings cached. */
module Embeddings {
  import opened Basics
  import opened Requests
  import opened RecencySpec
  import opened Memo
  import opened CachedBackend
  import opened Vector
  import LruCache

  datatype Comparison = ByCentroid | ByMax | ByAverage

  datatype RouteEmbeddings = RouteEmbeddings(name: string, centroid: Vec, exemplars: seq<Vec>)

  /** An embedder may return no vector at all without an error (`nil`). */
  type Embedding = Option<Vec>

  datatype Setup<!E> = Setup(
    embed: string -> Result<Embedding, E>, sqrt: real -> real, hash: string -> string,
    comparison: Comparison, routes: seq<RouteEmbeddings>, cacheSize: int, cacheTTL: int)

  function Components(e: Embedding): Vec {
    if e.Some? then e.value else []
  }

  // ---------------------------------------------------------------- scores

  function Max(x: real, y: real): real {
    if y > x then y else x
  }

  function MaxScore(sqrt: real -> real, v: Vec, exemplars: seq<Vec>): real {
    if exemplars == [] then 0.0
    else Max(MaxScore(sqrt, v, exemplars[..|exemplars| - 1]), CosineOf(sqrt, v, exemplars[|exemplars| - 1]))
  }

  function TotalScore(sqrt: real -> real, v: Vec, exemplars: seq<Vec>): real {
    if exemplars == [] then 0.0
    else TotalScore(sqrt, v, exemplars[..|exemplars| - 1]) + CosineOf(sqrt, v, exemplars[|exemplars| - 1])
  }

  function AverageScore(sqrt: real -> real, v: Vec, exemplars: seq<Vec>): real {
    if exemplars == [] then 0.0 else Quotient(TotalScore(sqrt, v, exemplars), |exemplars| as real)
  }

  function Score(sqrt: real -> real, comparison: Comparison, v: Vec, route: RouteEmbeddings): real {
    match comparison
    case ByMax => MaxScore(sqrt, v, route.exemplars)
    case ByAverage => AverageScore(sqrt, v, route.exemplars)
    case ByCentroid => CosineOf(sqrt, v, route.centroid)
  }

  lemma {:induction false} MaxScoreInRange(sqrt: real -> real, v: Vec, exemplars: seq<Vec>)
    requires IsSqrt(sqrt)
    ensures 0.0 <= MaxScore(sqrt, v, exemplars) <= 1.0
    decreases |exemplars|
  {
    if exemplars != [] {
      MaxScoreInRange(sqrt, v, exemplars[..|exemplars| - 1]);
      CosineInRange(sqrt, v, exemplars[|exemplars| - 1]);
    }
  }

  /** The maximum score is the highest cosine, or zero when that is higher. */
  lemma {:induction false} MaxScoreIsHighest(sqrt: real -> real, v: Vec, exemplars: seq<Vec>)
    ensures forall k :: 0 <= k < |exemplars| ==> CosineOf(sqrt, v, exemplars[k]) <= MaxScore(sqrt, v, exemplars)
    ensures MaxScore(sqrt, v, exemplars) == 0.0
            || exists k :: 0 <= k < |exemplars| && CosineOf(sqrt, v, exemplars[k]) == MaxScore(sqrt, v, exemplars)
    decreases |exemplars|
  {
    if exemplars != [] {
      var n := |exemplars| - 1;
      MaxScoreIsHighest(sqrt, v, exemplars[..n]);
      assert forall k :: 0 <= k < n ==> exemplars[..n][k] == exemplars[k];
      var before := MaxScore(sqrt, v, exemplars[..n]);
      if CosineOf(sqrt, v, exemplars[n]) <= before && before != 0.0 {
        var k :| 0 <= k < n && CosineOf(sqrt, v, exemplars[..n][k]) == MaxScore(sqrt, v, exemplars[..n]);
        assert CosineOf(sqrt, v, exemplars[k]) == MaxScore(sqrt, v, exemplars);
      }
    }
  }

  /** Each term of the sum is at most the maximum, which only grows. */
  lemma {:induction false} TotalIsBounded(sqrt: real -> real, v: Vec, exemplars: seq<Vec>, top: real)
    requires IsSqrt(sqrt) && MaxScore(sqrt, v, exemplars) <= top
    ensures Scale(-1.0, |exemplars|) <= TotalScore(sqrt, v, exemplars) <= Scale(top, |exemplars|)
    decreases |exemplars|
  {
    if exemplars != [] {
      TotalIsBounded(sqrt, v, exemplars[..|exemplars| - 1], top);
      CosineInRange(sqrt, v, exemplars[|exemplars| - 1]);
      ScaleStep(top, |exemplars| - 1);
      ScaleStep(-1.0, |exemplars| - 1);
    }
  }

  function Scale(x: real, n: nat): real {
    x * n as real
  }

  lemma ScaleStep(x: real, n: nat)
    ensures Scale(x, n + 1) == Scale(x, n) + x
  {
  }

  lemma QuotientBounds(total: real, low: real, high: real, n: nat)
    requires n > 0 && Scale(low, n) <= total <= Scale(high, n)
    ensures low <= Quotient(total, n as real) <= high
  {
  }

  /** The maximum score is never below the average. */
  lemma MaxAtLeastAverage(sqrt: real -> real, v: Vec, exemplars: seq<Vec>)
    requires IsSqrt(sqrt)
    ensures -1.0 <= AverageScore(sqrt, v, exemplars) <= MaxScore(sqrt, v, exemplars)
  {
    if exemplars != [] {
      var top := MaxScore(sqrt, v, exemplars);
      TotalIsBounded(sqrt, v, exemplars, top);
      QuotientBounds(TotalScore(sqrt, v, exemplars), -1.0, top, |exemplars|);
    }
  }

  /** In all three comparisons a score lies in [-1, 1]. */
  lemma ScoresInRange(sqrt: real -> real, comparison: Comparison, v: Vec, route: RouteEmbeddings)
    requires IsSqrt(sqrt)
    ensures -1.0 <= Score(sqrt, comparison, v, route) <= 1.0
  {
    MaxScoreInRange(sqrt, v, route.exemplars);
    MaxAtLeastAverage(sqrt, v, route.exemplars);
    CosineInRange(sqrt, v, route.centroid);
  }

  /** The average score is the mean of the cosines: times the number of exemplars it is their sum. */
  lemma AverageIsMean(sqrt: real -> real, v: Vec, exemplars: seq<Vec>)
    requires exemplars != []
    ensures Scale(AverageScore(sqrt, v, exemplars), |exemplars|) == SumOf(Cosines(sqrt, v, exemplars))
  {
    TotalIsSum(sqrt, v, exemplars);
    QuotientTimes(TotalScore(sqrt, v, exemplars), |exemplars|);
  }

  function Cosines(sqrt: real -> real, v: Vec, exemplars: seq<Vec>): (r: seq<real>)
    ensures |r| == |exemplars|
    ensures forall k :: 0 <= k < |exemplars| ==> r[k] == CosineOf(sqrt, v, exemplars[k])
  {
    seq(|exemplars|, k requires 0 <= k < |exemplars| => CosineOf(sqrt, v, exemplars[k]))
  }

  function SumOf(xs: seq<real>): real {
    if xs == [] then 0.0 else SumOf(xs[..|xs| - 1]) + xs[|xs| - 1]
  }

  lemma {:induction false} TotalIsSum(sqrt: real -> real, v: Vec, exemplars: seq<Vec>)
    ensures TotalScore(sqrt, v, exemplars) == SumOf(Cosines(sqrt, v, exemplars))
    decreases |exemplars|
  {
    if exemplars != [] {
      var n := |exemplars| - 1;
      TotalIsSum(sqrt, v, exemplars[..n]);
      assert Cosines(sqrt, v, exemplars)[..n] == Cosines(sqrt, v, exemplars[..n]);
    }
  }

  lemma QuotientTimes(total: real, n: nat)
    requires n > 0
    ensures Scale(Quotient(total, n as real), n) == total
  {
  }

  method Similarity(sqrt: real -> real, comparison: Comparison, v: Vec, route: RouteEmbeddings)
    returns (score: real)
    requires IsSqrt(sqrt)
    ensures score == Score(sqrt, comparison, v, route)
    ensures comparison.ByCentroid? ==> score == CosineOf(sqrt, v, route.centroid)
    ensures comparison.ByMax? ==> score == MaxScore(sqrt, v, route.exemplars)
    ensures comparison.ByAverage? ==> score == AverageScore(sqrt, v, route.exemplars)
    ensures -1.0 <= score <= 1.0
  {
    ScoresInRange(sqrt, comparison, v, route);
    match comparison {
      case ByMax =>
        score := MaxSimilarity(sqrt, v, route.exemplars);
      case ByAverage =>
        score := AverageSimilarity(sqrt, v, route.exemplars);
      case ByCentroid =>
        score := Cosine(sqrt, v, route.centroid);
    }
  }

  method MaxSimilarity(sqrt: real -> real, v: Vec, exemplars: seq<Vec>) returns (maxSim: real)
    requires IsSqrt(sqrt)
    ensures maxSim == MaxScore(sqrt, v, exemplars)
  {
    maxSim := 0.0;
    for i := 0 to |exemplars|
      invariant maxSim == MaxScore(sqrt, v, exemplars[..i])
    {
      assert exemplars[..i + 1][..i] == exemplars[..i];
      var s := Cosine(sqrt, v, exemplars[i]);
      if s > maxSim {
        maxSim := s;
      }
    }
    assert exemplars[..|exemplars|] == exemplars;
  }

  method AverageSimilarity(sqrt: real -> real, v: Vec, exemplars: seq<Vec>) returns (average: real)
    requires IsSqrt(sqrt)
    ensures average == AverageScore(sqrt, v, exemplars)
  {
    if |exemplars| == 0 {
      return 0.0;
    }
    var total := 0.0;
    for i := 0 to |exemplars|
      invariant total == TotalScore(sqrt, v, exemplars[..i])
    {
      assert exemplars[..i + 1][..i] == exemplars[..i];
      var s := Cosine(sqrt, v, exemplars[i]);
      total := total + s;
    }
    assert exemplars[..|exemplars|] == exemplars;
    average := Quotient(total, |exemplars| as real);
  }

  // ---------------------------------------------------------------- the best route

  datatype Match = Match(route: string, score: real)

  ghost function ScoreAt<E>(setup: Setup<E>, v: Vec, i: nat): real
    requires i < |setup.routes|
  {
    Score(setup.sqrt, setup.comparison, v, setup.routes[i])
  }

  /** `i` is the first of the first `n` routes to attain the highest score, and that is positive. */
  ghost predicate IsBest<E>(setup: Setup<E>, v: Vec, n: nat, i: nat)
    requires n <= |setup.routes|
  {
    && i < n
    && ScoreAt(setup, v, i) > 0.0
    && (forall j: nat :: j < n ==> ScoreAt(setup, v, j) <= ScoreAt(setup, v, i))
    && (forall j: nat :: j < i ==> ScoreAt(setup, v, j) < ScoreAt(setup, v, i))
  }

  /** The match is the best of the first `n` routes, or none when no score is positive. */
  ghost predicate BestOf<E>(setup: Setup<E>, v: Vec, n: nat, m: Match)
    requires n <= |setup.routes|
  {
    || (m == Match("", 0.0) && forall j: nat :: j < n ==> ScoreAt(setup, v, j) <= 0.0)
    || exists i: nat :: IsBest(setup, v, n, i) && m == Match(setup.routes[i].name, ScoreAt(setup, v, i))
  }

  /** No two matches are both best. */
  lemma BestIsUnique<E>(setup: Setup<E>, v: Vec, n: nat, m: Match, m': Match)
    requires n <= |setup.routes| && BestOf(setup, v, n, m) && BestOf(setup, v, n, m')
    ensures m == m'
  {
    if exists i: nat :: IsBest(setup, v, n, i) && m == Match(setup.routes[i].name, ScoreAt(setup, v, i)) {
      var i: nat :| IsBest(setup, v, n, i) && m == Match(setup.routes[i].name, ScoreAt(setup, v, i));
      var j: nat :| IsBest(setup, v, n, j) && m' == Match(setup.routes[j].name, ScoreAt(setup, v, j));
    }
  }

  lemma BestGrows<E>(setup: Setup<E>, v: Vec, n: nat, m: Match)
    requires n < |setup.routes| && BestOf(setup, v, n, m)
    ensures var s := ScoreAt(setup, v, n);
            BestOf(setup, v, n + 1, if s > m.score then Match(setup.routes[n].name, s) else m)
  {
    var s := ScoreAt(setup, v, n);
    if s > m.score {
      assert IsBest(setup, v, n + 1, n);
    } else if exists i: nat :: IsBest(setup, v, n, i) && m == Match(setup.routes[i].name, ScoreAt(setup, v, i)) {
      var i: nat :| IsBest(setup, v, n, i) && m == Match(setup.routes[i].name, ScoreAt(setup, v, i));
      assert IsBest(setup, v, n + 1, i);
    }
  }

  method BestRoute<E>(setup: Setup<E>, v: Vec) returns (m: Match)
    requires IsSqrt(setup.sqrt)
    ensures BestOf(setup, v, |setup.routes|, m)
  {
    var bestRoute, bestScore := "", 0.0;
    for i := 0 to |setup.routes|
      invariant BestOf(setup, v, i, Match(bestRoute, bestScore))
    {
      BestGrows(setup, v, i, Match(bestRoute, bestScore));
      var score := Similarity(setup.sqrt, setup.comparison, v, setup.routes[i]);
      if score > bestScore {
        bestScore := score;
        bestRoute := setup.routes[i].name;
      }
    }
    m := Match(bestRoute, bestScore);
  }

  // ---------------------------------------------------------------- the matcher

  const MAX_EMBED_CHARS := 2048

  function Truncated(text: string): string {
    if |text| > MAX_EMBED_CHARS then text[..MAX_EMBED_CHARS] else text
  }

  function Embedder<E>(setup: Setup<E>): Service<Embedding, E> {
    Service(setup.embed, setup.hash, (e: Embedding) => e.Some?, CacheSize(setup), CacheTTL(setup))
  }

  function CacheSize<E>(setup: Setup<E>): int {
    if setup.cacheSize <= 0 then 1000 else setup.cacheSize
  }

  function CacheTTL<E>(setup: Setup<E>): int {
    (if setup.cacheTTL <= 0 then 3600 else setup.cacheTTL) * 1_000_000_000
  }

  /** What is embedded is a prefix of the text: all of it up to 2048 characters, else exactly 2048. */
  lemma TruncatedIsPrefix(text: string)
    ensures Truncated(text) <= text
    ensures |text| <= 2048 ==> Truncated(text) == text
    ensures |text| > 2048 ==> |Truncated(text)| == 2048
  {
  }

  predicate Usable(cached: Option<Embedding>) {
    cached.Some? && cached.value.Some?
  }

  /** The cache after one question about `prompt`, and after the part of it that reaches the embedder. */
  function Asked<E>(setup: Setup<E>, items: seq<Item<Embedding>>, prompt: string, getAt: int, putAt: int)
    : (after: seq<Item<Embedding>>)
    ensures after == Ask(Embedder(setup), items, Call(prompt, getAt, putAt)).0
  {
    var (looked, hit) := AfterGet(items, setup.hash(prompt), getAt);
    if Usable(hit) then looked else Fetched(setup, looked, prompt, putAt)
  }

  function Fetched<E>(setup: Setup<E>, items: seq<Item<Embedding>>, prompt: string, putAt: int)
    : (after: seq<Item<Embedding>>)
    ensures after == Answered(Embedder(setup), items, prompt, putAt).0
  {
    match setup.embed(prompt)
    case Failure(_) => items
    case Success(e) => AfterPut(items, CacheSize(setup), CacheTTL(setup), setup.hash(prompt), e, putAt)
  }

  /** What a matcher without a cache answers to a request. */
  ghost predicate Matches<E>(setup: Setup<E>, text: string, r: Result<Match, E>) {
    if text == "" then r == Success(Match("", 0.0))
    else
      var embedded := setup.embed(Truncated(text));
      if embedded.Failure? then r == Failure(embedded.error)
      else r.Success? && BestOf(setup, Components(embedded.value), |setup.routes|, r.value)
  }

  /** That answer is unique. */
  lemma MatchIsDetermined<E>(setup: Setup<E>, text: string, r: Result<Match, E>, r': Result<Match, E>)
    requires Matches(setup, text, r) && Matches(setup, text, r')
    ensures r == r'
  {
    if text != "" && setup.embed(Truncated(text)).Success? {
      BestIsUnique(setup, Components(setup.embed(Truncated(text)).value), |setup.routes|, r.value, r'.value);
    }
  }

  class EmbeddingMatcher<E> {
    const setup: Setup<E>
    const cache: LruCache.Cache?<Embedding>

    ghost predicate Valid()
      reads cache, Entries(cache)
    {
      IsSqrt(setup.sqrt) && Injective(setup.hash) && Serves(Embedder(setup), cache)
    }

    constructor (setup: Setup<E>, cacheEmbeddings: bool)
      requires IsSqrt(setup.sqrt) && Injective(setup.hash)
      ensures Valid() && this.setup == setup && Cached(cache) == []
      ensures cache != null <==> cacheEmbeddings
      ensures cache != null ==> fresh(cache) && cache.order == []
      ensures cache != null ==>
                && cache.capacity == (if setup.cacheSize > 0 then setup.cacheSize else 1000)
                && cache.ttl == (if setup.cacheTTL > 0 then setup.cacheTTL else 60 * 60) * 1_000_000_000
    {
      this.setup := setup;
      if cacheEmbeddings {
        var c := new LruCache.Cache<Embedding>(CacheSize(setup), CacheTTL(setup));
        cache := c;
      } else {
        cache := null;
      }
    }

    /** The match is the one a matcher without a cache would give. */
    method FindMatch(messages: seq<Message>, getAt: int, putAt: int) returns (r: Result<Match, E>)
      requires Valid()
      modifies cache, Entries(cache)
      ensures Valid()
      ensures Matches(setup, LastUser(messages), r)
    {
      var prompt := LastUserMessage(messages);
      if prompt == "" {
        return Success(Match("", 0.0));
      }
      if |prompt| > MAX_EMBED_CHARS {
        prompt := prompt[..MAX_EMBED_CHARS];
      }
      var embedded := Embed(prompt, getAt, putAt);
      if embedded.Failure? {
        return Failure(embedded.error);
      }
      var m := BestRoute(setup, Components(embedded.value));
      r := Success(m);
    }

    /** The embedder's own answer; the cache moves as one question. A cached missing vector is asked for again. */
    method Embed(prompt: string, getAt: int, putAt: int) returns (r: Result<Embedding, E>)
      requires Valid()
      modifies cache, Entries(cache)
      ensures Valid()
      ensures r == setup.embed(prompt)
      ensures Cached(cache) == if cache == null then []
                               else Asked(setup, old(Cached(cache)), prompt, getAt, putAt)
    {
      var cached := Recall(prompt, getAt);
      r := Settle(prompt, cached, putAt);
    }

    /** A cached vector is the answer; otherwise the embedder is asked. */
    method Settle(prompt: string, cached: Option<Embedding>, putAt: int) returns (r: Result<Embedding, E>)
      requires Valid() && (cached.Some? ==> setup.embed(prompt) == Success(cached.value))
      modifies cache, Entries(cache)
      ensures Valid()
      ensures r == setup.embed(prompt)
      ensures Cached(cache) == if cache == null then []
                               else if Usable(cached) then old(Cached(cache))
                               else Fetched(setup, old(Cached(cache)), prompt, putAt)
    {
      if Usable(cached) {
        return Success(cached.value);
      }
      r := Fetch(prompt, putAt);
    }

    method Recall(prompt: string, getAt: int) returns (cached: Option<Embedding>)
      requires Valid()
      modifies cache
      ensures Valid() && forall e :: e in Entries(cache) ==> e in old(Entries(cache))
      ensures (Cached(cache), cached) == if cache == null then ([], None)
                                         else AfterGet(old(Cached(cache)), setup.hash(prompt), getAt)
      ensures cached.Some? ==> setup.embed(prompt) == Success(cached.value)
    {
      cached := None;
      if cache != null {
        cached := Lookup(Embedder(setup), cache, prompt, setup.hash(prompt), getAt);
      }
    }

    method Fetch(prompt: string, putAt: int) returns (r: Result<Embedding, E>)
      requires Valid()
      modifies cache, Entries(cache)
      ensures Valid()
      ensures r == setup.embed(prompt)
      ensures Cached(cache) == if cache == null then []
                               else Fetched(setup, old(Cached(cache)), prompt, putAt)
    {
      r := setup.embed(prompt);
      if r.Success? && cache != null {
        Store(Embedder(setup), cache, prompt, setup.hash(prompt), r.value, putAt);
      }
    }
  }
}
