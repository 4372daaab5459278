/** The upstream CEP web service, seen only through its replies. */
module ApiClient {
  import opened Domain

  /** `reply(cep, k)` is how the k-th upstream call, made for `cep`, completes:
      a record, null, or an exception (transport error, timeout, ...). */
  type Oracle = (string, nat) -> Try<Option<CepResponse>>

  class CepApiClient {
    const reply: Oracle
    /** The CEPs the upstream has been asked for, in call order. */
    var calls: seq<string>

    constructor (reply: Oracle)
      ensures this.reply == reply && calls == []
    {
      this.reply := reply;
      calls := [];
    }

    method FindCep(cep: string) returns (r: Try<Option<CepResponse>>)
      modifies this
      ensures calls == old(calls) + [cep]
      ensures r == reply(cep, |old(calls)|)
    {
      r := reply(cep, |calls|);
      calls := calls + [cep];
    }
  }
}

/** The cache-aside lookup (`CepServiceImpl.findCep`) with its three counters. */
module CepLookup {
  import opened Domain
  import opened Json
  import opened Cache
  import opened ApiClient

  /** The TTL used when `app.cep-service.cache.ttl` is not configured. */
  const DefaultCacheTtlSeconds: int := 3600

  /** The TTL the service is built with: the configured property, or the
      default when it is absent. */
  function ConfiguredTtl(property: Option<int>): (ttl: int)
    ensures property.Some? ==> ttl == property.value
    ensures property.None? ==> ttl == DefaultCacheTtlSeconds
  {
    if property.Some? then property.value else DefaultCacheTtlSeconds
  }

  /** The cache key of a CEP: `"cep:"` followed by the CEP verbatim. */
  function CacheKey(cep: string): (key: string)
    ensures |key| == |cep| + 4 && key[..4] == "cep:" && key[4..] == cep
  {
    "cep:" + cep
  }

  /** Distinct CEPs never share a cache entry. */
  lemma CacheKeyInjective(a: string, b: string)
    requires CacheKey(a) == CacheKey(b)
    ensures a == b
  {
    assert a == CacheKey(a)[4..];
  }

  /** The service's collaborators, fixed for its lifetime. */
  datatype ServiceEnv = ServiceEnv(codec: Codec, cacheFaults: FaultSchedule, reply: Oracle, ttlSeconds: int)

  /** Snapshot of everything a lookup can change: the three counters, the
      cache, and the upstream call log. */
  datatype ServiceState = ServiceState(requests: nat, hits: nat, misses: nat,
                                       cache: CacheState, calls: seq<string>)

  /** One `findCep(cep)` call. */
  function FindCepSpec(env: ServiceEnv, s: ServiceState, cep: string)
    : (res: (Try<Option<CepResponse>>, ServiceState))
  {
    var counted := s.(requests := s.requests + 1);
    var key := CacheKey(cep);
    var (read, c1) := CacheGet(env.codec, env.cacheFaults, s.cache, key);
    match read
    case Throw(e) => (Throw(e), counted.(cache := c1))
    case Ok(Some(cached)) => (Ok(Some(cached)), counted.(hits := s.hits + 1, cache := c1))
    case Ok(None) =>
      var missed := counted.(misses := s.misses + 1, cache := c1, calls := s.calls + [cep]);
      var answer := env.reply(cep, |s.calls|);
      if answer.Ok? && IsFound(answer.value) then
        var (saved, c2) := CacheSave(env.codec, env.cacheFaults, c1, key, answer.value.value, env.ttlSeconds);
        (if saved.Throw? then Throw(saved.exc) else answer, missed.(cache := c2))
      else
        (answer, missed)
  }

  /** The record the cache holds for a CEP, as a fault-free read would see it. */
  function Cached(env: ServiceEnv, s: ServiceState, cep: string): Option<CepResponse> {
    Decode(env.codec, s.cache.entries, CacheKey(cep))
  }

  /** Cache hit: the cached record is returned as it is, the upstream is not
      called, the cache is not written, and only the hit counter moves. */
  lemma HitSkipsProvider(env: ServiceEnv, s: ServiceState, cep: string)
    requires env.cacheFaults(s.cache.ops).None? && Cached(env, s, cep).Some?
    ensures var (r, s1) := FindCepSpec(env, s, cep);
            r == Ok(Cached(env, s, cep))
            && s1.calls == s.calls
            && s1.cache.entries == s.cache.entries
            && s1.hits == s.hits + 1 && s1.misses == s.misses
  {
  }

  /** Cache miss: the upstream is called exactly once, for this CEP; its reply
      is returned unchanged unless writing it back to the cache throws. */
  lemma MissCallsProviderOnce(env: ServiceEnv, s: ServiceState, cep: string)
    requires env.cacheFaults(s.cache.ops).None? && Cached(env, s, cep).None?
    ensures var (r, s1) := FindCepSpec(env, s, cep);
            var answer := env.reply(cep, |s.calls|);
            s1.calls == s.calls + [cep]
            && s1.misses == s.misses + 1 && s1.hits == s.hits
            && (r == answer || (answer.Ok? && IsFound(answer.value) && r.Throw?))
            && (r.Throw? && !answer.Throw? ==> env.cacheFaults(s.cache.ops + 1).Some?)
  {
  }

  /** Every call leaves the cache as it was, except for at most one write:
      under the CEP's own key, on the miss path, of a found upstream record,
      serialised by the mapper, with the configured TTL. A null reply or one
      flagged `erro == true` is therefore never cached. */
  lemma AtMostOneWrite(env: ServiceEnv, s: ServiceState, cep: string)
    ensures var (r, s1) := FindCepSpec(env, s, cep);
            var answer := env.reply(cep, |s.calls|);
            s1.cache.entries == s.cache.entries
            || (s1.calls == s.calls + [cep]
                && answer.Ok? && IsFound(answer.value)
                && env.codec.write(answer.value.value).Some?
                && r == answer
                && s1.cache.entries == s.cache.entries[CacheKey(cep) :=
                     StoredValue(env.codec.write(answer.value.value).value, env.ttlSeconds)])
  {
    var key := CacheKey(cep);
    var (read, c1) := CacheGet(env.codec, env.cacheFaults, s.cache, key);
    if read == Ok(None) {
      var answer := env.reply(cep, |s.calls|);
      if answer.Ok? && IsFound(answer.value) {
        var (saved, c2) := CacheSave(env.codec, env.cacheFaults, c1, key, answer.value.value, env.ttlSeconds);
        if env.codec.write(answer.value.value).Some? && saved.Ok? {
          assert c2.entries == s.cache.entries[key := StoredValue(env.codec.write(answer.value.value).value, env.ttlSeconds)];
        }
      }
    }
  }

  /** Conversely, a found reply on a miss is written back: under the CEP's
      key, as the mapper's JSON, with the configured TTL, and it is returned
      as it is, provided the mapper can serialise it and neither store
      operation faults. */
  lemma {:induction false} MissWritesFound(env: ServiceEnv, s: ServiceState, cep: string)
    requires env.cacheFaults(s.cache.ops).None? && Cached(env, s, cep).None?
    requires var answer := env.reply(cep, |s.calls|);
             answer.Ok? && IsFound(answer.value) && env.codec.write(answer.value.value).Some?
    requires env.cacheFaults(s.cache.ops + 1).None?
    ensures var (r, s1) := FindCepSpec(env, s, cep);
            var answer := env.reply(cep, |s.calls|);
            r == answer
            && s1.cache.entries == s.cache.entries[CacheKey(cep) :=
                 StoredValue(env.codec.write(answer.value.value).value, env.ttlSeconds)]
  {
  }

  /** With `app.cep-service.cache.ttl` unset, a found reply on a miss is
      cached for one hour. */
  lemma DefaultTtlIsOneHour(env: ServiceEnv, s: ServiceState, cep: string)
    requires env.ttlSeconds == ConfiguredTtl(None)
    requires env.cacheFaults(s.cache.ops).None? && Cached(env, s, cep).None?
    requires var answer := env.reply(cep, |s.calls|);
             answer.Ok? && IsFound(answer.value) && env.codec.write(answer.value.value).Some?
    requires env.cacheFaults(s.cache.ops + 1).None?
    ensures var s1 := FindCepSpec(env, s, cep).1;
            CacheKey(cep) in s1.cache.entries && s1.cache.entries[CacheKey(cep)].ttlSeconds == 3600
  {
    MissWritesFound(env, s, cep);
  }

  /** Each call counts one request and at most one of hit/miss; exactly one of
      them unless the cache read itself throws. Hence `hits + misses <= requests`
      is preserved, and so is `requests == hits + misses` while the cache store
      does not fail on reads. */
  lemma CountersBalance(env: ServiceEnv, s: ServiceState, cep: string)
    ensures var (r, s1) := FindCepSpec(env, s, cep);
            s1.requests == s.requests + 1
            && s1.hits + s1.misses == s.hits + s.misses + (if env.cacheFaults(s.cache.ops).Some? then 0 else 1)
            && (s.hits + s.misses <= s.requests ==> s1.hits + s1.misses <= s1.requests)
            && (env.cacheFaults(s.cache.ops).Some? ==> r.Throw? && s1.hits == s.hits && s1.misses == s.misses)
  {
  }

  /** Once a call has returned a found record, the next call for the same CEP
      is a cache hit returning that same record without calling the upstream,
      provided the mapper round-trips, it can serialise the record, and neither
      cache read faults. */
  lemma SecondCallHits(env: ServiceEnv, s: ServiceState, cep: string)
    requires RoundTrips(env.codec)
    requires env.cacheFaults(s.cache.ops).None?
    requires var (r, s1) := FindCepSpec(env, s, cep);
             r.Ok? && IsFound(r.value) && env.codec.write(r.value.value).Some?
             && env.cacheFaults(s1.cache.ops).None?
    ensures var (r, s1) := FindCepSpec(env, s, cep);
            var (r2, s2) := FindCepSpec(env, s1, cep);
            r2 == r && s2.calls == s1.calls && s2.cache.entries == s1.cache.entries
            && s2.hits == s1.hits + 1
  {
    var key := CacheKey(cep);
    var (r, s1) := FindCepSpec(env, s, cep);
    var cached := Cached(env, s, cep);
    if cached.None? {
      var answer := env.reply(cep, |s.calls|);
      var (saved, c2) := CacheSave(env.codec, env.cacheFaults, s.cache.(ops := s.cache.ops + 1),
                                   key, answer.value.value, env.ttlSeconds);
      ReadAfterWrite(env.codec, env.cacheFaults, s.cache.(ops := s.cache.ops + 1), key,
                     answer.value.value, env.ttlSeconds);
      assert Cached(env, s1, cep) == r.value;
    } else {
      assert Cached(env, s1, cep) == r.value;
    }
    HitSkipsProvider(env, s1, cep);
  }

  /** `CepServiceImpl`: the lookup with its request, hit and miss counters. */
  class CepServiceImpl {
    const client: CepApiClient
    const cache: CacheServiceImpl
    const cacheTtlSeconds: int
    var requests: nat
    var hits: nat
    var misses: nat

    function Env(): ServiceEnv {
      ServiceEnv(cache.codec, cache.faults, client.reply, cacheTtlSeconds)
    }

    function State(): ServiceState
      reads this, cache, client
    {
      ServiceState(requests, hits, misses, cache.State(), client.calls)
    }

    /** `ttlProperty` is `app.cep-service.cache.ttl`, None when unset. */
    constructor (client: CepApiClient, cache: CacheServiceImpl, ttlProperty: Option<int>)
      ensures this.client == client && this.cache == cache
      ensures cacheTtlSeconds == ConfiguredTtl(ttlProperty)
      ensures requests == 0 && hits == 0 && misses == 0
    {
      this.client := client;
      this.cache := cache;
      this.cacheTtlSeconds := ConfiguredTtl(ttlProperty);
      requests, hits, misses := 0, 0, 0;
    }

    method FindCep(cep: string) returns (r: Try<Option<CepResponse>>)
      modifies this, cache, client
      ensures (r, State()) == FindCepSpec(Env(), old(State()), cep)
    {
      requests := requests + 1;
      var key := CacheKey(cep);
      var read := cache.Get(key);
      if read.Throw? {
        return Throw(read.exc);
      }
      if read.value.Some? {
        hits := hits + 1;
        return read;
      }
      misses := misses + 1;
      r := client.FindCep(cep);
      if r.Ok? && IsFound(r.value) {
        var saved := cache.Save(key, r.value.value, cacheTtlSeconds);
        if saved.Throw? {
          r := Throw(saved.exc);
        }
      }
    }
  }
}
