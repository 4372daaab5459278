/** The cache service: JSON records in a Redis key/value store with a
    time-to-live per entry. Only the mapper's errors are absorbed; a failing
    store operation propagates to the caller. */
module Cache {
  import opened Domain
  import opened Json

  /** What Redis holds under a key: the JSON text and the TTL it was set with. */
  datatype StoredValue = StoredValue(json: string, ttlSeconds: int)

  /** Snapshot of the store: its entries and how many store operations have
      been issued so far (the index into the fault schedule). */
  datatype CacheState = CacheState(entries: map<string, StoredValue>, ops: nat)

  /** A fault schedule: `faults(k)` is the message of the exception the k-th
      store operation raises, or None when it succeeds. */
  type FaultSchedule = nat -> Option<string>

  /** What a fault-free `get` yields: null for an absent key, for unreadable
      JSON and for the JSON text `null`; otherwise the decoded record. */
  function Decode(codec: Codec, entries: map<string, StoredValue>, key: string): (r: Option<CepResponse>)
    ensures key !in entries ==> r == None
    ensures key in entries && codec.read(entries[key].json) == Malformed ==> r == None
    ensures r.Some? ==> key in entries && codec.read(entries[key].json) == Parsed(r)
  {
    if key !in entries then None
    else match codec.read(entries[key].json)
      case Parsed(v) => v
      case Malformed => None
  }

  /** `CacheServiceImpl.get`: one store read, then decoding with the mapper. */
  function CacheGet(codec: Codec, faults: FaultSchedule, s: CacheState, key: string)
    : (res: (Try<Option<CepResponse>>, CacheState))
  {
    var next := s.(ops := s.ops + 1);
    match faults(s.ops)
    case Some(msg) => (Throw(StoreFailure(msg)), next)
    case None => (Ok(Decode(codec, s.entries, key)), next)
  }

  /** `CacheServiceImpl.save`: serialise, then one store write with the TTL.
      A serialisation failure is swallowed before the store is touched. */
  function CacheSave(codec: Codec, faults: FaultSchedule, s: CacheState, key: string,
                     value: CepResponse, ttlSeconds: int)
    : (res: (Try<()>, CacheState))
    ensures res.1.entries == s.entries
            || (key in res.1.entries && res.1.entries == s.entries[key := res.1.entries[key]]
                && res.1.entries[key].ttlSeconds == ttlSeconds)
    ensures res.0.Throw? ==> res.1.entries == s.entries && faults(s.ops).Some?
    ensures codec.write(value).None? ==> res == (Ok(()), s)
    ensures codec.write(value).Some? && faults(s.ops).Some?
            ==> res.0 == Throw(StoreFailure(faults(s.ops).value))
    ensures codec.write(value).Some? && faults(s.ops).None?
            ==> res.0 == Ok(())
                && res.1.entries == s.entries[key := StoredValue(codec.write(value).value, ttlSeconds)]
  {
    match codec.write(value)
    case None => (Ok(()), s)
    case Some(json) =>
      var next := s.(ops := s.ops + 1);
      match faults(s.ops)
      case Some(msg) => (Throw(StoreFailure(msg)), next)
      case None => (Ok(()), next.(entries := s.entries[key := StoredValue(json, ttlSeconds)]))
  }

  /** A read issued right after a successful write of the same key returns the
      record written, provided the mapper round-trips and the read does not fault. */
  lemma ReadAfterWrite(codec: Codec, faults: FaultSchedule, s: CacheState, key: string,
                       value: CepResponse, ttlSeconds: int)
    requires RoundTrips(codec)
    requires codec.write(value).Some? && faults(s.ops).None? && faults(s.ops + 1).None?
    ensures var (saved, s1) := CacheSave(codec, faults, s, key, value, ttlSeconds);
            saved == Ok(())
            && s1.entries[key] == StoredValue(codec.write(value).value, ttlSeconds)
            && CacheGet(codec, faults, s1, key).0 == Ok(Some(value))
  {
    assert codec.read(codec.write(value).value) == Parsed(Some(value));
  }

  /** A read never changes the entries; whether it throws is decided by the
      fault schedule alone, and a fault-free read of an absent key is a miss. */
  lemma GetLeavesEntries(codec: Codec, faults: FaultSchedule, s: CacheState, key: string)
    ensures var (r, s1) := CacheGet(codec, faults, s, key);
            s1 == s.(ops := s.ops + 1)
            && (r.Throw? <==> faults(s.ops).Some?)
            && (r.Throw? ==> r.exc == StoreFailure(faults(s.ops).value))
            && (faults(s.ops).None? && key !in s.entries ==> r == Ok(None))
  {
  }

  /** The Redis-backed cache service (Jackson over `RedisTemplate`). */
  class CacheServiceImpl {
    const codec: Codec
    const faults: FaultSchedule
    var entries: map<string, StoredValue>
    var ops: nat

    function State(): CacheState
      reads this
    {
      CacheState(entries, ops)
    }

    constructor (codec: Codec, faults: FaultSchedule, entries: map<string, StoredValue>)
      ensures this.codec == codec && this.faults == faults
      ensures State() == CacheState(entries, 0)
    {
      this.codec := codec;
      this.faults := faults;
      this.entries := entries;
      ops := 0;
    }

    method Save(key: string, value: CepResponse, ttlSeconds: int) returns (r: Try<()>)
      modifies this
      ensures (r, State()) == CacheSave(codec, faults, old(State()), key, value, ttlSeconds)
    {
      var json := codec.write(value);
      if json.None? {
        // JsonProcessingException: logged and swallowed
        return Ok(());
      }
      var fault := faults(ops);
      ops := ops + 1;
      if fault.Some? {
        return Throw(StoreFailure(fault.value));
      }
      entries := entries[key := StoredValue(json.value, ttlSeconds)];
      r := Ok(());
    }

    method Get(key: string) returns (r: Try<Option<CepResponse>>)
      modifies this
      ensures (r, State()) == CacheGet(codec, faults, old(State()), key)
    {
      var fault := faults(ops);
      ops := ops + 1;
      if fault.Some? {
        return Throw(StoreFailure(fault.value));
      }
      if key !in entries {
        return Ok(None);
      }
      var parsed := codec.read(entries[key].json);
      if parsed.Malformed? {
        // JsonProcessingException: logged, treated as absent
        return Ok(None);
      }
      r := Ok(parsed.value);
    }
  }
}
