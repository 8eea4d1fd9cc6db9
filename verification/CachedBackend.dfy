/** A cache object standing in front of a backend: what the matchers keep about theirs. */
module CachedBackend {
  import opened Basics
  import opened RecencySpec
  import opened Memo
  import LruCache

  ghost function Entries<V>(cache: LruCache.Cache?<V>): seq<LruCache.Entry<V>>
    reads cache
  {
    if cache == null then [] else cache.order
  }

  ghost function Cached<V>(cache: LruCache.Cache?<V>): seq<Item<V>>
    reads cache, Entries(cache)
  {
    if cache == null then [] else cache.Items()
  }

  /** The cache, if there is one, is consistent and holds only answers of the backend. */
  ghost predicate Serves<V, E>(s: Service<V, E>, cache: LruCache.Cache?<V>)
    reads cache, Entries(cache)
  {
    cache != null ==>
      cache.Valid() && cache.capacity == s.capacity && cache.ttl == s.ttl && Sound(s, Cached(cache))
  }

  method Lookup<V, E>(ghost s: Service<V, E>, cache: LruCache.Cache<V>, ghost text: string, key: string, now: int)
    returns (found: Option<V>)
    requires Serves(s, cache) && key == s.hash(text)
    modifies cache
    ensures Serves(s, cache) && forall e :: e in cache.order ==> e in old(cache.order)
    ensures (Cached(cache), found) == AfterGet(old(Cached(cache)), key, now)
    ensures found.Some? ==> s.backend(text) == Success(found.value)
  {
    GetKeepsSound(s, Cached(cache), text, now);
    found := cache.Get(key, now);
  }

  method Store<V, E>(ghost s: Service<V, E>, cache: LruCache.Cache<V>, ghost text: string, key: string, value: V,
                     now: int)
    requires Serves(s, cache) && Injective(s.hash) && key == s.hash(text) && s.backend(text) == Success(value)
    modifies cache, cache.order
    ensures Serves(s, cache)
    ensures Cached(cache) == AfterPut(old(Cached(cache)), s.capacity, s.ttl, key, value, now)
  {
    PutKeepsSound(s, Cached(cache), text, value, now);
    cache.Put(key, value, now);
  }
}
