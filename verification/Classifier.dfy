/** Classification by a language model, with its results cached. */
module Classifier {
  import opened Basics
  import opened Text
  import opened Requests
  import opened RecencySpec
  import opened Memo
  import opened CachedBackend
  import LruCache

  datatype Route = Route(name: string, description: string)

  datatype Config = Config(prompt: string, cacheResults: bool, cacheTTL: int, cacheSize: int)

  datatype Category = Category(name: string, confidence: real)

  datatype Verdict = Verdict(route: string, confidence: real)

  datatype Failure<E> = Unanswered(error: E) | Unparsable(content: string) | UnknownCategory(name: string)

  /** What a matcher is built over: its routes, the model's text reply to a prompt, the JSON decoder, the
      fold-insensitive comparison of names and the hash of cache keys. */
  datatype Setup<!E> = Setup(
    cfg: Config, routes: seq<Route>, chat: string -> Result<string, E>, decode: string -> Option<Category>,
    sameName: (string, string) -> bool, hash: string -> string)

  // ---------------------------------------------------------------- prompt and reply

  const DEFAULT_INSTRUCTION := "Classify the following user request into one of these categories."
  const RESPONSE_FORMAT := "\n\nRespond with JSON only: {\"category\": \"<name>\", \"confidence\": <0.0-1.0>}"

  function Instruction(prompt: string): string {
    if Trim(GoSpace, prompt) == "" then DEFAULT_INSTRUCTION else Trim(GoSpace, prompt)
  }

  function RouteLines(routes: seq<Route>): string {
    if routes == [] then ""
    else
      var r := routes[|routes| - 1];
      RouteLines(routes[..|routes| - 1]) + ("- " + r.name + ": " + r.description + "\n")
  }

  function PromptFor(cfg: Config, routes: seq<Route>, text: string): string {
    Instruction(cfg.prompt) + "\n\n" + "Categories:\n" + RouteLines(routes) + "\nUser request:\n" + text
    + RESPONSE_FORMAT
  }

  /** The prompt is built from the request's last user message and nothing else of the request. */
  method BuildPrompt(cfg: Config, routes: seq<Route>, messages: seq<Message>) returns (b: string)
    ensures b == PromptFor(cfg, routes, LastUser(messages))
  {
    var instruction := Trim(GoSpace, cfg.prompt);
    if instruction == "" {
      instruction := DEFAULT_INSTRUCTION;
    }
    b := instruction + "\n\n" + "Categories:\n";
    ghost var head := b;
    for i := 0 to |routes|
      invariant b == head + RouteLines(routes[..i])
    {
      assert routes[..i + 1][..i] == routes[..i];
      var line := "- " + routes[i].name + ": " + routes[i].description + "\n";
      Regroup(head, RouteLines(routes[..i]), line);
      b := b + line;
    }
    assert routes[..|routes|] == routes;
    b := b + "\nUser request:\n";
    var text := LastUserMessage(messages);
    if text != "" {
      b := b + text;
    }
    b := b + RESPONSE_FORMAT;
  }

  lemma Regroup(a: string, b: string, c: string)
    ensures (a + b) + c == a + (b + c)
  {
  }

  ghost predicate Contains(s: string, part: string) {
    exists i :: OccursAt(s, part, i)
  }

  predicate OccursAt(s: string, part: string, i: int) {
    0 <= i && i + |part| <= |s| && s[i..i + |part|] == part
  }

  lemma {:induction false} EveryRouteHasItsLine(routes: seq<Route>, k: nat)
    requires k < |routes|
    ensures exists before, after :: RouteLines(routes) ==
              before + ("- " + routes[k].name + ": " + routes[k].description + "\n") + after
    decreases |routes|
  {
    var n := |routes| - 1;
    var line := "- " + routes[n].name + ": " + routes[n].description + "\n";
    if k == n {
      assert RouteLines(routes) == RouteLines(routes[..n]) + line + "";
    } else {
      EveryRouteHasItsLine(routes[..n], k);
      var mine := "- " + routes[k].name + ": " + routes[k].description + "\n";
      var before, after :| RouteLines(routes[..n]) == before + mine + after;
      Regroup(before + mine, after, line);
      assert RouteLines(routes) == before + mine + (after + line);
    }
  }

  /** The prompt begins with the configured instruction, or the default one when that is blank, ends with the
      user's text, whole and unchanged, and the reply format, and has a line for every route in between. */
  lemma PromptSaysEverything(cfg: Config, routes: seq<Route>, text: string)
    ensures var prompt := PromptFor(cfg, routes, text);
            && (Trim(GoSpace, cfg.prompt) == "" ==> DEFAULT_INSTRUCTION + "\n\n" <= prompt)
            && (Trim(GoSpace, cfg.prompt) != "" ==> Trim(GoSpace, cfg.prompt) + "\n\n" <= prompt)
            && EndsWith(prompt, "\nUser request:\n" + text + RESPONSE_FORMAT)
            && forall k :: 0 <= k < |routes| ==>
                 Contains(prompt, "- " + routes[k].name + ": " + routes[k].description + "\n")
  {
    var head, lines := Instruction(cfg.prompt) + "\n\n", RouteLines(routes);
    var tail := "\nUser request:\n" + text + RESPONSE_FORMAT;
    PromptParts(cfg, routes, text);
    Around(head, "Categories:\n", lines, tail);
    forall k | 0 <= k < |routes|
      ensures Contains(PromptFor(cfg, routes, text), "- " + routes[k].name + ": " + routes[k].description + "\n")
    {
      EveryRouteHasItsLine(routes, k);
      var line := "- " + routes[k].name + ": " + routes[k].description + "\n";
      var before, after :| lines == before + line + after;
      Inside(head + "Categories:\n", before, line, after, tail);
    }
  }

  predicate EndsWith(s: string, suffix: string) {
    |suffix| <= |s| && s[|s| - |suffix|..] == suffix
  }

  lemma PromptParts(cfg: Config, routes: seq<Route>, text: string)
    ensures PromptFor(cfg, routes, text)
         == Instruction(cfg.prompt) + "\n\n" + "Categories:\n" + RouteLines(routes)
            + ("\nUser request:\n" + text + RESPONSE_FORMAT)
  {
    var head := Instruction(cfg.prompt) + "\n\n" + "Categories:\n" + RouteLines(routes);
    Regroup(head + "\nUser request:\n", text, RESPONSE_FORMAT);
    Regroup(head, "\nUser request:\n", text + RESPONSE_FORMAT);
    Regroup("\nUser request:\n", text, RESPONSE_FORMAT);
  }

  lemma Around(a: string, b: string, c: string, d: string)
    ensures a <= a + b + c + d && EndsWith(a + b + c + d, d)
  {
  }

  lemma Inside(head: string, before: string, line: string, after: string, tail: string)
    ensures Contains(head + (before + line + after) + tail, line)
  {
    var s := head + (before + line + after) + tail;
    assert s == (head + before) + line + (after + tail);
    assert OccursAt(s, line, |head + before|);
  }

  const FENCE := "```"
  const JSON_FENCE := "```json"

  function TrimPrefix(s: string, prefix: string): string {
    if prefix <= s then s[|prefix|..] else s
  }

  function TrimSuffix(s: string, suffix: string): string {
    if |suffix| <= |s| && s[|s| - |suffix|..] == suffix then s[..|s| - |suffix|] else s
  }

  function ExtractJSON(content: string): string {
    var s := Trim(GoSpace, content);
    if JSON_FENCE <= s then Trim(GoSpace, TrimSuffix(TrimPrefix(s, JSON_FENCE), FENCE))
    else if FENCE <= s then Trim(GoSpace, TrimSuffix(TrimPrefix(s, FENCE), FENCE))
    else s
  }

  /** Text that is not blank at either end and is no fence. */
  predicate Bare(body: string) {
    body != "" && !GoSpace(body[0]) && !GoSpace(body[|body| - 1]) && body[0] != '`'
  }

  /** A reply's JSON is recovered bare, fenced or fenced as JSON, with any blank space between. */
  lemma FencedReplyIsUnwrapped(before: string, gap: string, body: string, gap': string, after: string)
    requires Blank(GoSpace, before) && Blank(GoSpace, gap) && Blank(GoSpace, gap') && Blank(GoSpace, after)
    requires Bare(body)
    ensures ExtractJSON(before + body + after) == body
    ensures body[0] != 'j' || gap != "" ==>
              ExtractJSON(before + (FENCE + gap + body + gap' + FENCE) + after) == body
    ensures ExtractJSON(before + (JSON_FENCE + gap + body + gap' + FENCE) + after) == body
  {
    TrimDrops(GoSpace, before, body, after);
    if body[0] != 'j' || gap != "" {
      Unwraps(before, FENCE, gap, body, gap', after);
    }
    Unwraps(before, JSON_FENCE, gap, body, gap', after);
  }

  lemma Unwraps(before: string, fence: string, gap: string, body: string, gap': string, after: string)
    requires Blank(GoSpace, before) && Blank(GoSpace, gap) && Blank(GoSpace, gap') && Blank(GoSpace, after)
    requires Bare(body)
    requires fence == JSON_FENCE || (fence == FENCE && (body[0] != 'j' || gap != ""))
    ensures ExtractJSON(before + (fence + gap + body + gap' + FENCE) + after) == body
  {
    var inner := gap + body + gap';
    var fenced := fence + gap + body + gap' + FENCE;
    FencedParts(fence, gap, body, gap');
    TrimDrops(GoSpace, before, fenced, after);
    TrimDrops(GoSpace, gap, body, gap');
    Unfenced(fence, inner);
    if fence == FENCE {
      assert inner[0] == if gap == "" then body[0] else gap[0];
      assert gap != "" ==> gap[0] in gap;
    }
  }

  lemma FencedParts(fence: string, gap: string, body: string, gap': string)
    ensures fence + gap + body + gap' + FENCE == fence + ((gap + body + gap') + FENCE)
  {
  }

  /** Cutting a fence off both sides, and telling the two fences apart. */
  lemma Unfenced(fence: string, inner: string)
    requires fence == FENCE || fence == JSON_FENCE
    ensures TrimSuffix(TrimPrefix(fence + (inner + FENCE), fence), FENCE) == inner
    ensures FENCE <= fence + (inner + FENCE) && fence <= fence + (inner + FENCE)
    ensures fence == FENCE && inner != "" && inner[0] != 'j' ==> !(JSON_FENCE <= fence + (inner + FENCE))
  {
    var fenced := fence + (inner + FENCE);
    assert fenced[|fence|..] == inner + FENCE && (inner + FENCE)[|inner|..] == FENCE;
    if fence == FENCE && inner != "" {
      assert fenced[3] == inner[0] && JSON_FENCE[3] == 'j';
    }
  }

  // ---------------------------------------------------------------- judging one text

  /** The first route whose name matches the category. */
  function FirstNamed<E>(setup: Setup<E>, routes: seq<Route>, category: string): (name: Option<string>)
    ensures name.None? ==> forall r :: r in routes ==> !setup.sameName(r.name, category)
    ensures name.Some? ==> exists i :: IsFirst(setup, routes, category, i) && name == Some(routes[i].name)
  {
    if routes == [] then None
    else if setup.sameName(routes[0].name, category) then
      assert IsFirst(setup, routes, category, 0);
      Some(routes[0].name)
    else
      var rest := FirstNamed(setup, routes[1..], category);
      assert rest.Some? ==> exists i :: IsFirst(setup, routes, category, i) && rest == Some(routes[i].name) by {
        if rest.Some? {
          var i :| IsFirst(setup, routes[1..], category, i) && rest == Some(routes[1..][i].name);
          assert forall j :: 0 < j <= i ==> routes[j] == routes[1..][j - 1];
          assert IsFirst(setup, routes, category, i + 1);
        }
      }
      rest
  }

  predicate IsFirst<E>(setup: Setup<E>, routes: seq<Route>, category: string, i: int) {
    && 0 <= i < |routes|
    && setup.sameName(routes[i].name, category)
    && forall j :: 0 <= j < i ==> !setup.sameName(routes[j].name, category)
  }

  /** The verdict on a text, without any cache. */
  function Judge<E>(setup: Setup<E>, text: string): Result<Verdict, Failure<E>> {
    match setup.chat(PromptFor(setup.cfg, setup.routes, text))
    case Failure(e) => Result.Failure(Unanswered(e))
    case Success(content) => Read(setup, ExtractJSON(content))
  }

  function Read<E>(setup: Setup<E>, content: string): Result<Verdict, Failure<E>> {
    match setup.decode(content)
    case None => Result.Failure(Unparsable(content))
    case Some(category) =>
      var name := FirstNamed(setup, setup.routes, category.name);
      if name.Some? then Success(Verdict(name.value, category.confidence))
      else Result.Failure(UnknownCategory(category.name))
  }

  /** A verdict is the first route that matches the category the model's reply decodes to, with the
      confidence it gives; and a failure names what went wrong. */
  lemma VerdictComesFromReply<E>(setup: Setup<E>, text: string)
    ensures match Judge(setup, text)
            case Success(v) =>
              exists reply, category, i ::
                && setup.chat(PromptFor(setup.cfg, setup.routes, text)) == Success(reply)
                && setup.decode(ExtractJSON(reply)) == Some(category)
                && IsFirst(setup, setup.routes, category.name, i)
                && v == Verdict(setup.routes[i].name, category.confidence)
            case Failure(Unanswered(e)) => setup.chat(PromptFor(setup.cfg, setup.routes, text)) == Result.Failure(e)
            case Failure(Unparsable(content)) =>
              exists reply ::
                && setup.chat(PromptFor(setup.cfg, setup.routes, text)) == Success(reply)
                && content == ExtractJSON(reply) && setup.decode(content) == None
            case Failure(UnknownCategory(name)) =>
              && (forall r :: r in setup.routes ==> !setup.sameName(r.name, name))
              && exists reply, category ::
                   && setup.chat(PromptFor(setup.cfg, setup.routes, text)) == Success(reply)
                   && setup.decode(ExtractJSON(reply)) == Some(category) && category.name == name
  {
    var reply := setup.chat(PromptFor(setup.cfg, setup.routes, text));
    if reply.Success? {
      var category := setup.decode(ExtractJSON(reply.value));
      if category.Some? {
        var name := FirstNamed(setup, setup.routes, category.value.name);
        if name.Some? {
          var i: int :| IsFirst(setup, setup.routes, category.value.name, i) && name == Some(setup.routes[i].name);
          assert Judge(setup, text) == Success(Verdict(setup.routes[i].name, category.value.confidence));
        }
      }
    }
  }

  function Judging<E>(setup: Setup<E>): Service<Verdict, Failure<E>> {
    Service(text => Judge(setup, text), setup.hash, _ => true, CacheSize(setup.cfg), CacheTTL(setup.cfg))
  }

  function CacheSize(cfg: Config): int {
    if cfg.cacheSize <= 0 then 500 else cfg.cacheSize
  }

  function CacheTTL(cfg: Config): int {
    (if cfg.cacheTTL <= 0 then 3600 else cfg.cacheTTL) * 1_000_000_000
  }

  ghost predicate GoodHash(hash: string -> string) {
    Injective(hash) && forall text :: hash(text) != ""
  }

  /** The cache after one question about `text`: looked up, and on a miss given the verdict, if any. */
  function Asked<E>(setup: Setup<E>, items: seq<Item<Verdict>>, text: string, getAt: int, putAt: int)
    : (after: seq<Item<Verdict>>)
    ensures after == Ask(Judging(setup), items, Call(text, getAt, putAt)).0
  {
    var (looked, hit) := AfterGet(items, setup.hash(text), getAt);
    if hit.Some? || Judge(setup, text).Failure? then looked
    else Stored(setup, looked, setup.hash(text), Judge(setup, text).value, putAt)
  }

  function Stored<E>(setup: Setup<E>, items: seq<Item<Verdict>>, key: string, verdict: Verdict, putAt: int)
    : seq<Item<Verdict>>
  {
    AfterPut(items, CacheSize(setup.cfg), CacheTTL(setup.cfg), key, verdict, putAt)
  }

  // ---------------------------------------------------------------- the matcher

  class ClassifierMatcher<E> {
    const setup: Setup<E>
    const cache: LruCache.Cache?<Verdict>

    ghost predicate Valid()
      reads cache, Entries(cache)
    {
      GoodHash(setup.hash) && Serves(Judging(setup), cache)
    }

    constructor (setup: Setup<E>)
      requires GoodHash(setup.hash)
      ensures Valid() && this.setup == setup && Cached(cache) == []
      ensures cache != null <==> setup.cfg.cacheResults
      ensures cache != null ==> fresh(cache) && cache.order == []
      ensures cache != null ==>
                && cache.capacity == (if setup.cfg.cacheSize > 0 then setup.cfg.cacheSize else 500)
                && cache.ttl == (if setup.cfg.cacheTTL > 0 then setup.cfg.cacheTTL else 60 * 60) * 1_000_000_000
    {
      this.setup := setup;
      if setup.cfg.cacheResults {
        var c := new LruCache.Cache<Verdict>(CacheSize(setup.cfg), CacheTTL(setup.cfg));
        cache := c;
      } else {
        cache := null;
      }
    }

    /** The verdict is the one a matcher without a cache would give; the cache moves as one question. */
    method Classify(messages: seq<Message>, getAt: int, putAt: int) returns (r: Result<Verdict, Failure<E>>)
      requires Valid()
      modifies cache, Entries(cache)
      ensures Valid()
      ensures r == Judge(setup, LastUser(messages))
      ensures Cached(cache) == if cache == null || LastUser(messages) == "" then old(Cached(cache))
                               else Asked(setup, old(Cached(cache)), LastUser(messages), getAt, putAt)
    {
      var cacheKey, cached := Recall(messages, getAt);
      if cached.Some? {
        return Success(cached.value);
      }
      r := Answer(messages, cacheKey, putAt);
    }

    /** The cache key of a request, empty when it is not to be cached, and what the cache holds under it. */
    method Recall(messages: seq<Message>, getAt: int) returns (cacheKey: string, cached: Option<Verdict>)
      requires Valid()
      modifies cache
      ensures Valid() && forall e :: e in Entries(cache) ==> e in old(Entries(cache))
      ensures cache == null || LastUser(messages) == "" ==>
                cacheKey == "" && cached == None && Cached(cache) == old(Cached(cache))
      ensures cache != null && LastUser(messages) != "" ==>
                && cacheKey == setup.hash(LastUser(messages))
                && (Cached(cache), cached) == AfterGet(old(Cached(cache)), cacheKey, getAt)
                && (cached.Some? ==> Judge(setup, LastUser(messages)) == Success(cached.value))
    {
      cacheKey, cached := "", None;
      if cache != null {
        var userMsg := LastUserMessage(messages);
        if userMsg != "" {
          cacheKey := setup.hash(userMsg);
          cached := Lookup(Judging(setup), cache, userMsg, cacheKey, getAt);
        }
      }
    }

    /** Asks the model, and caches its verdict when the request is to be cached. */
    method Answer(messages: seq<Message>, cacheKey: string, putAt: int) returns (r: Result<Verdict, Failure<E>>)
      requires Valid() && (cacheKey == "" || cacheKey == setup.hash(LastUser(messages)))
      modifies cache, Entries(cache)
      ensures Valid()
      ensures r == Judge(setup, LastUser(messages))
      ensures Cached(cache) == if cache == null || cacheKey == "" || r.Failure? then old(Cached(cache))
                               else Stored(setup, old(Cached(cache)), cacheKey, r.value, putAt)
    {
      r := Request(messages);
      if r.Success? {
        Remember(LastUser(messages), cacheKey, r.value, putAt);
      }
    }

    method Remember(ghost text: string, cacheKey: string, verdict: Verdict, putAt: int)
      requires Valid() && Judge(setup, text) == Success(verdict)
      requires cacheKey == "" || cacheKey == setup.hash(text)
      modifies cache, Entries(cache)
      ensures Valid()
      ensures Cached(cache) == if cache == null || cacheKey == "" then old(Cached(cache))
                               else Stored(setup, old(Cached(cache)), cacheKey, verdict, putAt)
    {
      if cache != null && cacheKey != "" {
        Store(Judging(setup), cache, text, cacheKey, verdict, putAt);
      }
    }

    /** Asks the model and reads its reply. */
    method Request(messages: seq<Message>) returns (r: Result<Verdict, Failure<E>>)
      ensures r == Judge(setup, LastUser(messages))
    {
      var prompt := BuildPrompt(setup.cfg, setup.routes, messages);
      var reply := setup.chat(prompt);
      if reply.Failure? {
        return Result.Failure(Unanswered(reply.error));
      }
      var content := ExtractJSON(reply.value);
      var category := setup.decode(content);
      if category.None? {
        return Result.Failure(Unparsable(content));
      }
      for i := 0 to |setup.routes|
        invariant FirstNamed(setup, setup.routes, category.value.name)
                  == FirstNamed(setup, setup.routes[i..], category.value.name)
      {
        if setup.sameName(setup.routes[i].name, category.value.name) {
          return Success(Verdict(setup.routes[i].name, category.value.confidence));
        }
        assert setup.routes[i..][1..] == setup.routes[i + 1..];
      }
      r := Result.Failure(UnknownCategory(category.value.name));
    }
  }
}
