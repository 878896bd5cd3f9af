/**
 The request-id cache: its state, the locked regions of `call`, and the class that runs
 them.  Entry pointers are indices into `heap`; time 0 is Go's zero time; an entry's done
 channel is closed once `closes` is positive.
 */
module RequestCache {
  import opened Base

  type Key = string
  type Bytes = string
  type Time = nat
  type GoError = string

  datatype CallResult = NoResult | CallResult(isError: bool, text: string)

  datatype Codec = Codec(encode: CallResult -> Option<Bytes>, decode: Bytes -> Option<CallResult>)

  /** What a successful encode produced decodes; the empty byte string does not. */
  ghost predicate Faithful(codec: Codec) {
    && codec.decode("") == None
    && forall r :: codec.encode(r).Some? ==> codec.decode(codec.encode(r).value).Some?
  }

  datatype Settings = Settings(ttl: nat, limit: nat, codec: Codec)

  /** `newRequestIDCache`: ten minutes and a thousand entries unless configured otherwise. */
  function NewSettings(ttl: int, limit: int, codec: Codec): (s: Settings)
    ensures s.ttl > 0 && s.limit > 0
  {
    Settings(if ttl <= 0 then 600 else ttl, if limit <= 0 then 1000 else limit, codec)
  }

  datatype Entry = Entry(closes: nat, result: Bytes, err: Option<GoError>, completedAt: Time)

  const FRESH := Entry(0, "", None, 0)

  datatype Cache = Cache(entries: map<Key, nat>, heap: seq<Entry>)

  ghost predicate WellFormed(c: Cache) {
    forall k :: k in c.entries ==> c.entries[k] < |c.heap|
  }

  predicate InFlight(c: Cache, k: Key)
    requires k in c.entries && c.entries[k] < |c.heap|
  {
    c.heap[c.entries[k]].completedAt == 0
  }

  function Stamp(c: Cache, k: Key): Time
    requires k in c.entries && c.entries[k] < |c.heap|
  {
    c.heap[c.entries[k]].completedAt
  }

  predicate Expired(c: Cache, k: Key, now: Time, ttl: nat)
    requires k in c.entries && c.entries[k] < |c.heap|
  {
    !InFlight(c, k) && now - Stamp(c, k) >= ttl
  }

  /** The cache without its expired entries. */
  function Unexpired(c: Cache, now: Time, ttl: nat): Cache
    requires WellFormed(c)
  {
    Cache(map k | k in c.entries && !Expired(c, k, now, ttl) :: c.entries[k], c.heap)
  }

  ghost predicate AnyCompleted(c: Cache)
    requires WellFormed(c)
  {
    exists k :: k in c.entries && !InFlight(c, k)
  }

  /** No completed entry is older. */
  ghost predicate IsOldest(c: Cache, victim: Key)
    requires WellFormed(c)
  {
    && victim in c.entries && !InFlight(c, victim)
    && forall k :: k in c.entries && !InFlight(c, k) ==> Stamp(c, victim) <= Stamp(c, k)
  }

  // ---------------------------------------------------------------- the locked regions

  datatype Next = Wait(id: nat) | Replay(id: nat, result: CallResult) | Drop | Register(id: nat) | Bypass

  function WithNew(c: Cache, key: Key): Cache {
    Cache(c.entries[key := |c.heap|], c.heap + [FRESH])
  }

  /** The region that begins every round of `call`; `victim` is the entry an eviction picks. */
  ghost function EnterRegion(st: Settings, c: Cache, key: Key, now: Time, victim: Key): (Cache, Next)
    requires WellFormed(c)
  {
    var live := Unexpired(c, now, st.ttl);
    if key in live.entries then
      var id := live.entries[key];
      if InFlight(live, key) then (live, Wait(id))
      else match st.codec.decode(live.heap[id].result)
        case Some(r) => (live, Replay(id, r))
        case None => (live, Drop)
    else if |live.entries| < st.limit then (WithNew(live, key), Register(|c.heap|))
    else if AnyCompleted(live) && victim != "" then (WithNew(Without(live, victim), key), Register(|c.heap|))
    else (live, Bypass)
  }

  /** If the region evicts, it evicts an oldest completed entry. */
  ghost predicate VictimOk(st: Settings, c: Cache, key: Key, now: Time, victim: Key)
    requires WellFormed(c)
  {
    var live := Unexpired(c, now, st.ttl);
    key !in live.entries && |live.entries| >= st.limit && AnyCompleted(live) ==> IsOldest(live, victim)
  }

  /** The region drops the completed entry under `k`: it has expired, or it makes room in a full cache. */
  ghost predicate Drops(st: Settings, c: Cache, key: Key, now: Time, victim: Key, k: Key)
    requires WellFormed(c)
  {
    && k in c.entries && !InFlight(c, k)
    && (Expired(c, k, now, st.ttl) ||
        var live := Unexpired(c, now, st.ttl);
        key !in live.entries && |live.entries| >= st.limit && victim == k != "")
  }

  /** The region finds no place for the call: the cache is full of entries in flight. */
  ghost predicate Crowded(st: Settings, c: Cache, key: Key, now: Time)
    requires WellFormed(c)
  {
    var live := Unexpired(c, now, st.ttl);
    key !in live.entries && |live.entries| >= st.limit && !AnyCompleted(live)
  }

  function Without(c: Cache, key: Key): Cache {
    Cache(c.entries - {key}, c.heap)
  }

  /** What an entry holds once its execution has ended. */
  function Settled(codec: Codec, r: CallResult, err: Option<GoError>, now: Time): Entry {
    var data := codec.encode(r);
    if err.Some? then Entry(1, if data.Some? then data.value else "", err, 0)
    else if data.None? then Entry(1, "", None, 0)
    else Entry(1, data.value, None, now)
  }

  /** The region after `execute`: the entry is settled and closed, and stays filed only if it can be replayed. */
  function CompleteRegion(codec: Codec, c: Cache, key: Key, id: nat, r: CallResult, err: Option<GoError>,
      now: Time): Cache
    requires id < |c.heap|
  {
    var entry := Settled(codec, r, err, now);
    var heap := c.heap[id := entry.(closes := c.heap[id].closes + 1)];
    if err.None? && codec.encode(r).Some? then Cache(c.entries, heap) else Cache(c.entries - {key}, heap)
  }

  /** What the executing call itself returns: a private copy where one can be made. */
  function OwnResult(codec: Codec, r: CallResult, err: Option<GoError>): CallResult {
    if err.Some? || codec.encode(r).None? then r
    else match codec.decode(codec.encode(r).value)
      case Some(copy) => copy
      case None => r
  }

  /** What a caller hears of its handler's result: that, or a copy where it is registered and one can be made. */
  predicate Hears(codec: Codec, r: CallResult, err: Option<GoError>, registered: bool, heard: CallResult) {
    if registered && err.None? && codec.encode(r).Some? && codec.decode(codec.encode(r).value).Some?
      then codec.decode(codec.encode(r).value) == Some(heard)
    else heard == r
  }

  // ---------------------------------------------------------------- the class

  class RequestIDCache {
    var entries: map<Key, nat>
    var heap: seq<Entry>
    const settings: Settings

    constructor (ttl: int, limit: int, codec: Codec)
      ensures entries == map[] && heap == [] && settings == NewSettings(ttl, limit, codec)
      ensures settings.ttl == (if ttl > 0 then ttl else 10 * 60) && settings.limit == if limit > 0 then limit else 1000
    {
      entries, heap := map[], [];
      settings := NewSettings(ttl, limit, codec);
    }

    function View(): Cache
      reads this
    {
      Cache(entries, heap)
    }

    /** `removeExpired`; the map is iterated in any order. */
    method RemoveExpired(now: Time)
      requires WellFormed(View())
      modifies this`entries
      ensures View() == Unexpired(old(View()), now, settings.ttl)
    {
      ghost var before := View();
      var todo := entries.Keys;
      while todo != {}
        invariant todo <= before.entries.Keys
        invariant entries == map k | k in before.entries
            && (k in todo || !Expired(before, k, now, settings.ttl)) :: before.entries[k]
        decreases |todo|
      {
        var key :| key in todo;
        var entry := heap[entries[key]];
        if entry.completedAt != 0 && now - entry.completedAt >= settings.ttl {
          entries := entries - {key};
        }
        todo := todo - {key};
      }
    }

    /** `removeOldestCompleted`; the empty key stands for "none found". */
    method RemoveOldestCompleted() returns (removed: bool, ghost victim: Key)
      requires WellFormed(View())
      modifies this`entries
      ensures removed <==> AnyCompleted(old(View())) && victim != ""
      ensures AnyCompleted(old(View())) ==> IsOldest(old(View()), victim)
      ensures View() == if removed then Without(old(View()), victim) else old(View())
    {
      var oldestKey, oldest := "", 0;
      var todo := entries.Keys;
      while todo != {}
        invariant todo <= entries.Keys
        invariant oldest == 0 ==> oldestKey == "" && forall k :: k in entries && k !in todo ==> InFlight(View(), k)
        invariant oldest != 0 ==> oldestKey in entries && Stamp(View(), oldestKey) == oldest
        invariant oldest != 0 ==> forall k :: k in entries && k !in todo && !InFlight(View(), k) ==>
            oldest <= Stamp(View(), k)
        decreases |todo|
      {
        var key :| key in todo;
        todo := todo - {key};
        var entry := heap[entries[key]];
        if entry.completedAt == 0 {
          continue;
        }
        if oldest == 0 || entry.completedAt < oldest {
          oldestKey, oldest := key, entry.completedAt;
        }
      }
      victim := oldestKey;
      assert oldest != 0 ==> !InFlight(View(), oldestKey);
      if oldestKey == "" {
        return false, victim;
      }
      entries := entries - {oldestKey};
      return true, victim;
    }

    /** The locked region at the head of the loop in `call`. */
    method Enter(key: Key, now: Time) returns (next: Next, ghost victim: Key)
      requires WellFormed(View())
      modifies this
      ensures VictimOk(settings, old(View()), key, now, victim)
      ensures (View(), next) == EnterRegion(settings, old(View()), key, now, victim)
    {
      victim := "";
      RemoveExpired(now);
      if key in entries {
        var entry := heap[entries[key]];
        if entry.completedAt == 0 {
          return Wait(entries[key]), victim;
        }
        var result := settings.codec.decode(entry.result);
        if result.Some? {
          return Replay(entries[key], result.value), victim;
        }
        return Drop, victim;
      }
      if |entries| >= settings.limit {
        var removed;
        removed, victim := RemoveOldestCompleted();
        if !removed {
          return Bypass, victim;
        }
      }
      heap := heap + [FRESH];
      entries := entries[key := |heap| - 1];
      return Register(|heap| - 1), victim;
    }

    /** The locked region after `execute` has returned. */
    method Complete(key: Key, id: nat, result: CallResult, err: Option<GoError>, now: Time) returns (own: CallResult)
      requires WellFormed(View()) && id < |heap| && heap[id] == FRESH
      modifies this
      ensures View() == CompleteRegion(settings.codec, old(View()), key, id, result, err, now)
      ensures own == OwnResult(settings.codec, result, err)
    {
      var data := settings.codec.encode(result);
      if err.Some? {
        heap := heap[id := heap[id].(result := if data.Some? then data.value else "", err := err)];
        entries := entries - {key};
        heap := heap[id := heap[id].(closes := heap[id].closes + 1)];
        return result;
      }
      if data.None? {
        entries := entries - {key};
        heap := heap[id := heap[id].(closes := heap[id].closes + 1)];
        return result;
      }
      heap := heap[id := heap[id].(result := data.value)];
      heap := heap[id := heap[id].(completedAt := now)];
      heap := heap[id := heap[id].(closes := heap[id].closes + 1)];
      var copy := settings.codec.decode(data.value);
      if copy.None? {
        return result;
      }
      return copy.value;
    }
  }
}
