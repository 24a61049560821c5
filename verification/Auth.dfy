/** The token filter: a cache of accepted tokens in front of the full check, across reloads. */
module Auth {
  import opened Options
  import opened Lru
  import opened Jwt
  import opened JwtRoundTrip

  const DEFAULT_CAPACITY := 10000

  datatype Settings = Settings(enabled: bool, secret: string, issuer: string, audience: string)

  /** The filter's state: the settings in force and the cached expiry of each accepted token. */
  datatype Filter = Filter(settings: Settings, capacity: int, list: seq<Entry<string, int>>)

  /** What the full check says under the settings in force. */
  function FullCheck(s: Settings, token: string, now: int, hmac: (string, string) -> string): bool {
    Verify(token, s.secret, s.issuer, s.audience, now, hmac).Accepted?
  }

  function Cached(list: seq<Entry<string, int>>, token: string, now: int): bool {
    match Lookup(list, token) case None => false case Some(exp) => exp > now
  }

  /** One request: the cache is asked at `now`, the full check reads the clock again. */
  function Admit(f: Filter, token: string, now: int, again: int, hmac: (string, string) -> string): (Filter, bool) {
    var seen := f.(list := Touch(f.list, token));
    if Cached(f.list, token, now) then (seen, true)
    else if !FullCheck(f.settings, token, again, hmac) then (seen, false)
    else match GetExp(token)
      case Some(exp) =>
        if exp > 0 then (seen.(list := Push(seen.list, f.capacity, token, exp)), true) else (seen, true)
      case None => (seen, true)
  }

  /** One load: every positive capacity in the file replaces the cache at once; only a successful load
      changes the settings, and it installs an empty cache of the default capacity. */
  function Reload(f: Filter, capacities: seq<int>, loaded: Option<Settings>): Filter {
    match loaded
    case Some(s) => Filter(s, DEFAULT_CAPACITY, [])
    case None => SetCapacities(f, capacities)
  }

  function SetCapacities(f: Filter, capacities: seq<int>): (g: Filter)
    ensures g.settings == f.settings
  {
    if capacities == [] then f
    else if capacities[|capacities| - 1] > 0 then f.(capacity := capacities[|capacities| - 1], list := [])
    else SetCapacities(f, capacities[..|capacities| - 1])
  }

  // ---------- What the cache holds ----------

  /** Every cached token carries its own expiry and would have been accepted up to it. */
  ghost predicate Trusted(f: Filter, hmac: (string, string) -> string) {
    && Capacity(f.capacity)
    && forall token :: Lookup(f.list, token).Some? ==> Earned(f, token, Lookup(f.list, token).value, hmac)
  }

  ghost predicate Earned(f: Filter, token: string, exp: int, hmac: (string, string) -> string) {
    GetExp(token) == Some(exp) && FullCheck(f.settings, token, exp, hmac)
  }

  lemma TouchLookup<K, V>(list: seq<Entry<K, V>>, k: K, j: K)
    ensures Lookup(Touch(list, k), j) == Lookup(list, j)
  {
    if Lookup(list, k).Some? {
      assert Touch(list, k)[1..] == Drop(list, k);
      if j != k {
        LookupDrop(list, k, j);
      }
    }
  }

  lemma PushLookup<K, V>(list: seq<Entry<K, V>>, cap: int, k: K, v: V)
    ensures Lookup(Push(list, cap, k, v), k) == Some(v)
  {
  }

  lemma AdmitKeepsTrusted(f: Filter, token: string, now: int, again: int, hmac: (string, string) -> string)
    requires Trusted(f, hmac)
    ensures Trusted(Admit(f, token, now, again, hmac).0, hmac)
  {
    var g := Admit(f, token, now, again, hmac).0;
    var touched := Touch(f.list, token);
    if !Cached(f.list, token, now) && FullCheck(f.settings, token, again, hmac) && GetExp(token).Some? {
      ExpDecides(token, f.settings.secret, f.settings.issuer, f.settings.audience, again, GetExp(token).value, hmac);
      PushLookup(touched, f.capacity, token, GetExp(token).value);
    }
    forall t | Lookup(g.list, t).Some?
      ensures Earned(g, t, Lookup(g.list, t).value, hmac)
    {
      TouchLookup(f.list, token, t);
      if g.list != touched && t != token {
        PushKeepsValue(touched, f.capacity, token, GetExp(token).value, t);
      }
    }
  }

  lemma {:induction false} SetCapacitiesKeepsTrusted(f: Filter, capacities: seq<int>, hmac: (string, string) -> string)
    requires Trusted(f, hmac)
    ensures Trusted(SetCapacities(f, capacities), hmac)
  {
    if capacities != [] && capacities[|capacities| - 1] <= 0 {
      SetCapacitiesKeepsTrusted(f, capacities[..|capacities| - 1], hmac);
    }
  }

  lemma ReloadKeepsTrusted(f: Filter, capacities: seq<int>, loaded: Option<Settings>, hmac: (string, string) -> string)
    requires Trusted(f, hmac)
    ensures Trusted(Reload(f, capacities, loaded), hmac)
  {
    if loaded.None? {
      SetCapacitiesKeepsTrusted(f, capacities, hmac);
    }
  }

  /** A cached answer is the answer of the full check: between the two clock readings an acceptance is
      right at the first and a rejection right at the second. */
  lemma AdmitIsFullCheck(f: Filter, token: string, now: int, again: int, hmac: (string, string) -> string)
    requires Trusted(f, hmac) && now <= again
    ensures
      var accepted := Admit(f, token, now, again, hmac).1;
      && (accepted ==> FullCheck(f.settings, token, now, hmac))
      && (!accepted ==> !FullCheck(f.settings, token, again, hmac))
  {
    var s := f.settings;
    if Cached(f.list, token, now) {
      var exp := Lookup(f.list, token).value;
      assert Earned(f, token, exp, hmac);
      ExpDecides(token, s.secret, s.issuer, s.audience, exp, now, hmac);
    } else if FullCheck(s, token, again, hmac) {
      ExpDecides(token, s.secret, s.issuer, s.audience, again, now, hmac);
    }
  }

  // ---------- What a request and a load do ----------

  /** A cached token that has not reached its expiry is accepted without another check and becomes the most
      recent; nothing else changes. */
  lemma CachedIsServed(f: Filter, token: string, exp: int, now: int, again: int, hmac: (string, string) -> string)
    requires Lookup(f.list, token) == Some(exp) && now < exp
    ensures var (g, accepted) := Admit(f, token, now, again, hmac);
      && accepted && g.settings == f.settings && g.capacity == f.capacity
      && g.list != [] && g.list[0] == Entry(token, exp)
      && forall t :: Lookup(g.list, t) == Lookup(f.list, t)
  {
    forall t ensures Lookup(Touch(f.list, token), t) == Lookup(f.list, t) {
      TouchLookup(f.list, token, t);
    }
  }

  /** Any other token gets the answer of the full check. */
  lemma OthersAreChecked(f: Filter, token: string, now: int, again: int, hmac: (string, string) -> string)
    requires Lookup(f.list, token) == None || Lookup(f.list, token).value <= now
    ensures var (g, accepted) := Admit(f, token, now, again, hmac);
      && (accepted <==> FullCheck(f.settings, token, again, hmac))
      && g.settings == f.settings && g.capacity == f.capacity
  {
  }

  /** Accepted with an expiry that can be read, it becomes the most recent entry, and is served from the cache
      at every time before that expiry and at no other. */
  lemma AcceptedIsCached(f: Filter, token: string, exp: int, now: int, again: int, t: int,
                         hmac: (string, string) -> string)
    requires Lookup(f.list, token) == None || Lookup(f.list, token).value <= now
    requires FullCheck(f.settings, token, again, hmac) && GetExp(token) == Some(exp) && 0 < exp
    ensures var list := Admit(f, token, now, again, hmac).0.list;
      list != [] && list[0] == Entry(token, exp) && (Cached(list, token, t) <==> t < exp)
  {
    PushLookup(Touch(f.list, token), f.capacity, token, exp);
  }

  /** A refused token, and one without an expiry to read, changes nothing that is cached. */
  lemma RefusedIsNotCached(f: Filter, token: string, now: int, again: int, hmac: (string, string) -> string, t: string)
    requires !FullCheck(f.settings, token, again, hmac) || GetExp(token) == None || GetExp(token) == Some(0)
    ensures Lookup(Admit(f, token, now, again, hmac).0.list, t) == Lookup(f.list, t)
  {
    TouchLookup(f.list, token, t);
  }

  /** A load that fails leaves the settings, and has emptied the cache exactly when a line gave it a positive
      capacity: the last such line counts. */
  lemma {:induction false} FailedLoad(f: Filter, capacities: seq<int>, i: nat)
    requires i <= |capacities| && forall j :: i <= j < |capacities| ==> capacities[j] <= 0
    requires 0 < i ==> 0 < capacities[i - 1]
    ensures var g := Reload(f, capacities, None);
      g == if i == 0 then f else Filter(f.settings, capacities[i - 1], [])
    decreases |capacities|
  {
    if i < |capacities| {
      FailedLoad(f, capacities[..|capacities| - 1], i);
    }
  }

  // ---------- Runs ----------

  datatype Event =
    | Request(token: string, now: int)
    | Load(capacities: seq<int>, loaded: Option<Settings>)

  /** The answers of the filter; requests that find the filter off are not its business. */
  function Answers(f: Filter, events: seq<Event>, hmac: (string, string) -> string): seq<bool>
    decreases |events|
  {
    if events == [] then []
    else match events[0]
      case Request(token, now) =>
        if !f.settings.enabled then Answers(f, events[1..], hmac)
        else
          var (g, accepted) := Admit(f, token, now, now, hmac);
          [accepted] + Answers(g, events[1..], hmac)
      case Load(capacities, loaded) => Answers(Reload(f, capacities, loaded), events[1..], hmac)
  }

  /** The same gateway without a cache. */
  function PlainAnswers(s: Settings, events: seq<Event>, hmac: (string, string) -> string): seq<bool>
    decreases |events|
  {
    if events == [] then []
    else match events[0]
      case Request(token, now) =>
        if !s.enabled then PlainAnswers(s, events[1..], hmac)
        else [FullCheck(s, token, now, hmac)] + PlainAnswers(s, events[1..], hmac)
      case Load(_, loaded) => PlainAnswers(match loaded case Some(t) => t case None => s, events[1..], hmac)
  }

  lemma {:induction false} RunTransparent(f: Filter, events: seq<Event>, hmac: (string, string) -> string)
    requires Trusted(f, hmac)
    ensures Answers(f, events, hmac) == PlainAnswers(f.settings, events, hmac)
    decreases |events|
  {
    if events != [] {
      match events[0] {
        case Request(token, now) =>
          AdmitIsFullCheck(f, token, now, now, hmac);
          AdmitKeepsTrusted(f, token, now, now, hmac);
          RunTransparent(if f.settings.enabled then Admit(f, token, now, now, hmac).0 else f, events[1..], hmac);
        case Load(capacities, loaded) =>
          ReloadKeepsTrusted(f, capacities, loaded, hmac);
          RunTransparent(Reload(f, capacities, loaded), events[1..], hmac);
      }
    }
  }

  /** The cache cannot be observed: from start-up, whatever the requests, the clock (which may run
      backwards) and the loads, the answers are those of the full check under the current settings. */
  lemma CacheTransparent(s: Settings, events: seq<Event>, hmac: (string, string) -> string)
    ensures Answers(Filter(s, DEFAULT_CAPACITY, []), events, hmac) == PlainAnswers(s, events, hmac)
  {
    RunTransparent(Filter(s, DEFAULT_CAPACITY, []), events, hmac);
  }

  /** At its very last second a token is accepted by the full check and never from the cache. */
  lemma LastSecondMissesCache(f: Filter, token: string, exp: int, hmac: (string, string) -> string)
    requires Trusted(f, hmac) && Lookup(f.list, token) == Some(exp)
    ensures !Cached(f.list, token, exp) && FullCheck(f.settings, token, exp, hmac)
    ensures forall now :: Cached(f.list, token, now) <==> now < exp
    ensures forall now :: FullCheck(f.settings, token, now, hmac) <==> now <= exp
  {
    assert Earned(f, token, exp, hmac);
    var s := f.settings;
    forall now
      ensures FullCheck(s, token, now, hmac) <==> now <= exp
    {
      ExpDecides(token, s.secret, s.issuer, s.audience, exp, now, hmac);
    }
  }
}
