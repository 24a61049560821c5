/** The token cache and the filter as objects. */
module AuthFilters {
  import opened Options
  import opened Lru
  import opened LruCache
  import opened Jwt
  import opened Auth

  class JwtCache {
    var cache: LRUCache<string, int>
    ghost var items: seq<Entry<string, int>>
    ghost var capacity: int

    ghost predicate Linked()
      reads this, cache, cache.cells
    {
      cache.Linked() && items == cache.items && capacity == cache.capacity
    }

    constructor ()
      ensures Linked() && fresh(cache) && fresh(cache.cells)
      ensures items == [] && capacity == DEFAULT_CAPACITY
    {
      cache := new LRUCache(DEFAULT_CAPACITY);
      items, capacity := [], DEFAULT_CAPACITY;
    }

    /** The lookup reorders the cache even though it only answers a question. */
    method IsValidCached(token: string, now: int) returns (ok: bool)
      requires Linked()
      modifies this`items, cache`order, cache`items
      ensures Linked() && items == Touch(old(items), token)
      ensures ok == Cached(old(items), token, now)
    {
      var hit := cache.Get(token);
      items := cache.items;
      if hit.None? {
        return false;
      }
      ok := hit.value > now;
    }

    method PutValid(token: string, exp: int)
      requires Linked()
      modifies this`items, cache, cache.cells
      ensures Linked() && fresh(cache.cells - old(cache.cells))
      ensures items == Push(old(items), capacity, token, exp)
    {
      cache.Push(token, exp);
      items := cache.items;
    }

    method Clear()
      modifies this
      ensures Linked() && fresh(cache) && fresh(cache.cells)
      ensures items == [] && capacity == DEFAULT_CAPACITY
    {
      cache := new LRUCache(DEFAULT_CAPACITY);
      items, capacity := [], DEFAULT_CAPACITY;
    }

    method SetCapacity(cap: int)
      requires Capacity(cap)
      modifies this
      ensures Linked() && fresh(cache) && fresh(cache.cells)
      ensures items == [] && capacity == cap
    {
      cache := new LRUCache(cap);
      items, capacity := [], cap;
    }
  }

  class AuthFilter {
    var settings: Settings
    const jwtCache: JwtCache

    ghost predicate Linked()
      reads this, jwtCache, jwtCache.cache, jwtCache.cache.cells
    {
      jwtCache.Linked()
    }

    /** The filter's state as a value. */
    ghost function State(): Filter
      reads this, jwtCache
    {
      Filter(settings, jwtCache.capacity, jwtCache.items)
    }

    constructor (s: Settings)
      ensures Linked() && State() == Filter(s, DEFAULT_CAPACITY, [])
    {
      settings := s;
      var c := new JwtCache();
      jwtCache := c;
    }

    method Apply(token: string, now: int, again: int, hmac: (string, string) -> string) returns (accepted: bool)
      requires Linked()
      modifies jwtCache, jwtCache.cache, jwtCache.cache.cells
      ensures Linked() && jwtCache.cache == old(jwtCache.cache)
      ensures fresh(jwtCache.cache.cells - old(jwtCache.cache.cells))
      ensures (State(), accepted) == Admit(old(State()), token, now, again, hmac)
    {
      var cached := jwtCache.IsValidCached(token, now);
      if cached {
        return true;
      }
      if !Verify(token, settings.secret, settings.issuer, settings.audience, again, hmac).Accepted? {
        return false;
      }
      var exp := match GetExp(token) case Some(e) => e case None => 0;
      if exp > 0 {
        jwtCache.PutValid(token, exp);
      }
      return true;
    }

    /** The part of a load that concerns the filter: cache capacities take effect line by line, whether
        or not the file turns out to be usable. */
    method Load(capacities: seq<int>, loaded: Option<Settings>)
      requires Linked()
      modifies this, jwtCache
      ensures Linked()
      ensures State() == Reload(old(State()), capacities, loaded)
      ensures loaded.Some? ==> settings == loaded.value && jwtCache.items == [] && jwtCache.capacity == 10000
    {
      for i := 0 to |capacities|
        invariant Linked()
        invariant State() == SetCapacities(old(State()), capacities[..i])
      {
        assert capacities[..i + 1][..i] == capacities[..i];
        if capacities[i] > 0 {
          jwtCache.SetCapacity(capacities[i]);
        }
      }
      assert capacities[..|capacities|] == capacities;
      if loaded.Some? {
        settings := loaded.value;
        jwtCache.Clear();
      }
    }
  }
}
