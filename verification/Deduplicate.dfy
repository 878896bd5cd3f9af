/**
 The way into the cache: which calls are deduplicated, under which key, and what that does
 to a stream of calls made one after the other.  Handlers are any function of a store and a
 call; canonical parameters and their digest are given functions.
 */
module Deduplicate {
  import opened Base
  import opened RequestCache

  // ---------------------------------------------------------------- keys

  datatype Identity = Identity(userId: nat, requestId: string)

  datatype Incoming<P> = Incoming(tool: string, identity: Option<Identity>, params: P)

  /** Canonical parameters, where they can be encoded, and the hexadecimal digest. */
  datatype Hashing<!P> = Hashing(canonical: P -> Option<string>, digest: string -> string)

  ghost predicate SoundHashing<P(!new)>(h: Hashing<P>) {
    && (forall a: string, b: string :: h.digest(a) == h.digest(b) ==> a == b)
    && forall a: string :: '|' !in h.digest(a)
  }

  predicate MutatingTool(name: string) {
    || name == "fs_write" || name == "fs_edit" || name == "fs_move" || name == "fs_delete"
    || name == "doc_create" || name == "doc_edit" || name == "sheet_set_cells"
  }

  function StringKey(userId: nat, requestId: string, tool: string, hash: string): Key {
    Decimal(userId) + "|" + requestId + "|" + tool + "|" + hash
  }

  /** `deduplicate`: the key a call is filed under, or none when it goes straight to its handler. */
  function KeyOf<P>(h: Hashing<P>, enabled: bool, c: Incoming<P>): Option<Key> {
    if !enabled || !MutatingTool(c.tool) then None
    else if c.identity.None? || c.identity.value.requestId == "" then None
    else match h.canonical(c.params)
      case None => None
      case Some(text) => Some(StringKey(c.identity.value.userId, c.identity.value.requestId, c.tool, h.digest(text)))
  }

  /** Exactly which calls are deduplicated; all others go straight to their handlers. */
  lemma DeduplicatedIff<P>(h: Hashing<P>, enabled: bool, c: Incoming<P>)
    ensures KeyOf(h, enabled, c).Some? <==>
              && enabled
              && c.tool in ["fs_write", "fs_edit", "fs_move", "fs_delete", "doc_create", "doc_edit", "sheet_set_cells"]
              && c.identity.Some? && c.identity.value.requestId != ""
              && h.canonical(c.params).Some?
  {
  }

  lemma SplitFirst(a: string, x: string, b: string, y: string)
    requires '|' !in a && '|' !in b && a + "|" + x == b + "|" + y
    ensures a == b && x == y
  {
    var s := a + "|" + x;
    assert s[|a|] == '|' && s[|b|] == '|';
    assert forall i :: 0 <= i < |a| ==> s[i] == a[i];
    assert forall i :: 0 <= i < |b| ==> s[i] == b[i];
    assert |a| == |b|;
    assert s[..|a|] == a && s[..|b|] == b;
    assert s[|a| + 1..] == x && s[|b| + 1..] == y;
  }

  lemma SplitLast(x: string, a: string, y: string, b: string)
    requires '|' !in a && '|' !in b && x + "|" + a == y + "|" + b
    ensures a == b && x == y
  {
    var s := x + "|" + a;
    assert s[|x|] == '|' && s[|y|] == '|';
    assert forall i :: |x| < i < |s| ==> s[i] == a[i - |x| - 1];
    assert forall i :: |y| < i < |s| ==> s[i] == b[i - |y| - 1];
    assert |x| == |y|;
    assert s[..|x|] == x && s[..|y|] == y;
    assert s[|x| + 1..] == a && s[|y| + 1..] == b;
  }

  lemma {:induction false} DecimalNoBar(n: nat)
    ensures '|' !in Decimal(n)
  {
    if n >= 10 {
      DecimalNoBar(n / 10);
    }
  }

  /**
   The four parts can be read back although the request id may itself contain the bar: the
   user from the left, the tool and the digest from the right.
   */
  lemma StringKeyInjective(u: nat, rid: string, tool: string, hash: string, u': nat, rid': string, tool': string,
      hash': string)
    requires '|' !in tool && '|' !in tool' && '|' !in hash && '|' !in hash'
    ensures StringKey(u, rid, tool, hash) == StringKey(u', rid', tool', hash') <==>
        u == u' && rid == rid' && tool == tool' && hash == hash'
  {
    if StringKey(u, rid, tool, hash) == StringKey(u', rid', tool', hash') {
      DecimalNoBar(u);
      DecimalNoBar(u');
      SplitLast(Decimal(u) + "|" + rid + "|" + tool, hash, Decimal(u') + "|" + rid' + "|" + tool', hash');
      SplitLast(Decimal(u) + "|" + rid, tool, Decimal(u') + "|" + rid', tool');
      SplitFirst(Decimal(u), rid, Decimal(u'), rid');
      DecimalInjective(u, u');
    }
  }

  lemma ToolNoBar(name: string)
    requires MutatingTool(name)
    ensures '|' !in name
  {
  }

  /** Two calls share a key exactly when user, request id, tool and canonical parameters agree. */
  lemma SameKeyIff<P(!new)>(h: Hashing<P>, a: Incoming<P>, b: Incoming<P>)
    requires SoundHashing(h) && KeyOf(h, true, a).Some? && KeyOf(h, true, b).Some?
    ensures KeyOf(h, true, a) == KeyOf(h, true, b) <==>
            a.identity == b.identity && a.tool == b.tool && h.canonical(a.params) == h.canonical(b.params)
  {
    var x, y := h.canonical(a.params).value, h.canonical(b.params).value;
    ToolNoBar(a.tool);
    ToolNoBar(b.tool);
    StringKeyInjective(a.identity.value.userId, a.identity.value.requestId, a.tool, h.digest(x),
                       b.identity.value.userId, b.identity.value.requestId, b.tool, h.digest(y));
  }

  /** No key is empty. */
  lemma KeyNotEmpty<P>(h: Hashing<P>, c: Incoming<P>)
    requires KeyOf(h, true, c).Some?
    ensures KeyOf(h, true, c) != Some("")
  {
  }

  // ---------------------------------------------------------------- streams

  datatype Ran<S> = Ran(state: S, result: CallResult, err: Option<GoError>)

  /** What handlers do, under which key calls are filed, and the cache's settings. */
  datatype World<!S, !C> = World(settings: Settings, exec: (S, C) -> Ran<S>, keyOf: C -> Option<Key>)

  /** A call, the times of its two locked regions, and what an eviction would pick. */
  datatype Arrival<C> = Arrival(call: C, enter: Time, leave: Time, victim: Key)

  datatype Reply = Reply(result: CallResult, err: Option<GoError>, deduplicated: bool)

  datatype Stage<S> = Stage(store: S, cache: Cache, replies: seq<Reply>)

  lemma RegionsWellFormed(st: Settings, c: Cache, key: Key, now: Time, victim: Key)
    requires WellFormed(c)
    ensures var (c', next) := EnterRegion(st, c, key, now, victim);
            WellFormed(c') && (next.Register? ==> next.id < |c'.heap|)
  {
  }

  lemma CompleteWellFormed(codec: Codec, c: Cache, key: Key, id: nat, r: CallResult, err: Option<GoError>, now: Time)
    requires WellFormed(c) && id < |c.heap|
    ensures WellFormed(CompleteRegion(codec, c, key, id, r, err, now))
  {
  }

  /** One call through `deduplicate` and the cache, with no other call in between. */
  ghost function Pass<S, C>(w: World<S, C>, at: Stage<S>, a: Arrival<C>): Stage<S>
    requires WellFormed(at.cache)
  {
    var key := w.keyOf(a.call);
    if key.None? then Direct(w, at, a, at.cache)
    else
      RegionsWellFormed(w.settings, at.cache, key.value, a.enter, a.victim);
      var (cache, next) := EnterRegion(w.settings, at.cache, key.value, a.enter, a.victim);
      match next
      case Replay(_, r) => Stage(at.store, cache, at.replies + [Reply(r, None, true)])
      case Register(id) => RunRegistered(w, at, a, key.value, cache, id)
      case Bypass => Direct(w, at, a, cache)
      case Wait(_) => at.(cache := cache)
      case Drop => at.(cache := cache)
  }

  /** The handler alone. */
  function Direct<S, C>(w: World<S, C>, at: Stage<S>, a: Arrival<C>, cache: Cache): Stage<S> {
    var ran := w.exec(at.store, a.call);
    Stage(ran.state, cache, at.replies + [Reply(ran.result, ran.err, false)])
  }

  /** The handler under a registered entry. */
  function RunRegistered<S, C>(w: World<S, C>, at: Stage<S>, a: Arrival<C>, key: Key, cache: Cache, id: nat): Stage<S>
    requires id < |cache.heap|
  {
    var ran := w.exec(at.store, a.call);
    Stage(ran.state, CompleteRegion(w.settings.codec, cache, key, id, ran.result, ran.err, a.leave),
          at.replies + [Reply(OwnResult(w.settings.codec, ran.result, ran.err), ran.err, false)])
  }

  lemma PassWellFormed<S, C>(w: World<S, C>, at: Stage<S>, a: Arrival<C>)
    requires WellFormed(at.cache)
    ensures WellFormed(Pass(w, at, a).cache)
  {
    var key := w.keyOf(a.call);
    if key.Some? {
      RegionsWellFormed(w.settings, at.cache, key.value, a.enter, a.victim);
      var (cache, next) := EnterRegion(w.settings, at.cache, key.value, a.enter, a.victim);
      if next.Register? {
        var ran := w.exec(at.store, a.call);
        CompleteWellFormed(w.settings.codec, cache, key.value, next.id, ran.result, ran.err, a.leave);
      }
    }
  }

  /** A stream through an empty cache. */
  ghost function PassAll<S, C>(w: World<S, C>, store: S, calls: seq<Arrival<C>>): (out: Stage<S>)
    ensures WellFormed(out.cache)
    decreases |calls|
  {
    if calls == [] then Stage(store, Cache(map[], []), [])
    else
      var before := PassAll(w, store, calls[..|calls| - 1]);
      PassWellFormed(w, before, calls[|calls| - 1]);
      Pass(w, before, calls[|calls| - 1])
  }

  /** A result is kept when the execution had no Go error and could be encoded. */
  predicate Kept(codec: Codec, r: CallResult, err: Option<GoError>) {
    err.None? && codec.encode(r).Some?
  }

  datatype Ideal<S> = Ideal(store: S, kept: map<Key, CallResult>, replies: seq<Reply>)

  /** The meaning of the cache: a call whose key has a kept result is answered from it, any other runs. */
  function Remember<S, C>(w: World<S, C>, at: Ideal<S>, c: C): Ideal<S> {
    var key, codec := w.keyOf(c), w.settings.codec;
    if key.Some? && key.value in at.kept then at.(replies := at.replies + [Reply(at.kept[key.value], None, true)])
    else
      var ran := w.exec(at.store, c);
      if key.None? then Ideal(ran.state, at.kept, at.replies + [Reply(ran.result, ran.err, false)])
      else Ideal(ran.state,
                 if !Kept(codec, ran.result, ran.err) then at.kept
                 else at.kept[key.value := OwnResult(codec, ran.result, None)],
                 at.replies + [Reply(OwnResult(codec, ran.result, ran.err), ran.err, false)])
  }

  function RememberAll<S, C>(w: World<S, C>, store: S, calls: seq<Arrival<C>>): Ideal<S> {
    if calls == [] then Ideal(store, map[], [])
    else Remember(w, RememberAll(w, store, calls[..|calls| - 1]), calls[|calls| - 1].call)
  }

  function KeysOf<S, C>(w: World<S, C>, calls: seq<Arrival<C>>): set<Key> {
    set i | 0 <= i < |calls| && w.keyOf(calls[i].call).Some? :: w.keyOf(calls[i].call).value
  }

  lemma KeysOfInit<S, C>(w: World<S, C>, calls: seq<Arrival<C>>)
    requires calls != []
    ensures KeysOf(w, calls[..|calls| - 1]) <= KeysOf(w, calls)
    ensures var key := w.keyOf(calls[|calls| - 1].call); key.Some? ==> key.value in KeysOf(w, calls)
  {
    var init := calls[..|calls| - 1];
    forall k | k in KeysOf(w, init) ensures k in KeysOf(w, calls) {
      var i :| 0 <= i < |init| && w.keyOf(init[i].call) == Some(k);
      assert calls[i] == init[i];
    }
  }

  // ---------------------------------------------------------------- the cache as a memory

  /** The state in which call `i` of the stream finds the cache. */
  ghost function Before<S, C>(w: World<S, C>, store: S, calls: seq<Arrival<C>>, i: nat): (at: Stage<S>)
    requires i <= |calls|
    ensures WellFormed(at.cache)
  {
    PassAll(w, store, calls[..i])
  }

  /** Some call from `n` on is made under the key. */
  ghost predicate Wanted<S, C>(w: World<S, C>, calls: seq<Arrival<C>>, n: nat, k: Key) {
    exists i :: n <= i < |calls| && w.keyOf(calls[i].call) == Some(k)
  }

  /** Each arrival is one the server may see: a running clock, no empty key, an eviction that picks an oldest entry. */
  ghost predicate Admissible<S, C>(w: World<S, C>, store: S, calls: seq<Arrival<C>>) {
    w.settings.limit > 0 && forall i :: 0 <= i < |calls| ==> ArrivalOk(w, store, calls, i)
  }

  ghost predicate ArrivalOk<S, C>(w: World<S, C>, store: S, calls: seq<Arrival<C>>, i: nat)
    requires i < |calls|
  {
    var a, key := calls[i], w.keyOf(calls[i].call);
    && 0 < a.leave && key != Some("")
    && (key.Some? ==> VictimOk(w.settings, Before(w, store, calls, i).cache, key.value, a.enter, a.victim))
  }

  /** No call drops an entry that it or a later call still wants. */
  ghost predicate Unlost<S, C>(w: World<S, C>, store: S, calls: seq<Arrival<C>>) {
    forall i, k :: 0 <= i < |calls| && Wanted(w, calls, i, k) ==> SparedAt(w, store, calls, i, k)
  }

  ghost predicate SparedAt<S, C>(w: World<S, C>, store: S, calls: seq<Arrival<C>>, i: nat, k: Key)
    requires i < |calls|
  {
    !Costs(w, Before(w, store, calls, i).cache, calls[i], k)
  }

  /** The call is deduplicated and drops the completed entry under `k`. */
  ghost predicate Costs<S, C>(w: World<S, C>, c: Cache, a: Arrival<C>, k: Key)
    requires WellFormed(c)
  {
    w.keyOf(a.call).Some? && Drops(w.settings, c, w.keyOf(a.call).value, a.enter, a.victim, k)
  }

  /** A settled entry whose copy is that result. */
  predicate HeldAt(codec: Codec, entry: Entry, result: CallResult) {
    entry.completedAt != 0 && codec.decode(entry.result) == Some(result)
  }

  /** Whatever the cache holds are kept results. */
  ghost predicate Cached(codec: Codec, c: Cache, kept: map<Key, CallResult>) {
    && WellFormed(c) && c.entries.Keys <= kept.Keys
    && forall k :: k in c.entries ==> HeldAt(codec, c.heap[c.entries[k]], kept[k])
  }

  lemma SettledHeld(codec: Codec, r: CallResult, now: Time)
    requires Faithful(codec) && codec.encode(r).Some? && now > 0
    ensures HeldAt(codec, Settled(codec, r, None, now), OwnResult(codec, r, None))
  {
  }

  /** The cache after a registered execution: the new entry is filed if it can be replayed, the others stand. */
  lemma CompletedEntries(codec: Codec, c: Cache, key: Key, r: CallResult, err: Option<GoError>, now: Time)
    requires WellFormed(c) && key !in c.entries
    ensures var done := CompleteRegion(codec, WithNew(c, key), key, |c.heap|, r, err, now);
            && done.entries == (if Kept(codec, r, err) then c.entries[key := |c.heap|] else c.entries)
            && |done.heap| == |c.heap| + 1 && (forall i :: 0 <= i < |c.heap| ==> done.heap[i] == c.heap[i])
            && done.heap[|c.heap|] == Settled(codec, r, err, now)
  {
    if !Kept(codec, r, err) {
      assert WithNew(c, key).entries - {key} == c.entries;
    }
  }

  /** After a registered execution the cache holds its result as well, if it was kept. */
  lemma CompletedCached(codec: Codec, c: Cache, kept: map<Key, CallResult>, key: Key, r: CallResult,
      err: Option<GoError>,
                        now: Time)
    requires Faithful(codec) && Cached(codec, c, kept) && key !in c.entries && now > 0
    ensures var done := CompleteRegion(codec, WithNew(c, key), key, |c.heap|, r, err, now);
            && Cached(codec, done, if Kept(codec, r, err) then kept[key := OwnResult(codec, r, None)] else kept)
            && done.entries.Keys == c.entries.Keys + (if Kept(codec, r, err) then {key} else {})
  {
    CompletedEntries(codec, c, key, r, err, now);
    if Kept(codec, r, err) { SettledHeld(codec, r, now); }
  }

  /** What the head of a call leaves of the cache before it adds its own entry: what it does not drop. */
  ghost function Remaining(st: Settings, c: Cache, key: Key, now: Time, victim: Key): Cache
    requires WellFormed(c)
  {
    var live := Unexpired(c, now, st.ttl);
    if key !in live.entries && |live.entries| >= st.limit then Without(live, victim) else live
  }

  lemma RemainingMeans(st: Settings, c: Cache, key: Key, now: Time, victim: Key)
    requires WellFormed(c)
    ensures var l := Remaining(st, c, key, now, victim);
            && WellFormed(l) && l.heap == c.heap
            && (forall k :: k in l.entries ==> k in c.entries && l.entries[k] == c.entries[k])
            && (forall k :: k in c.entries && !InFlight(c, k) && k != "" && !Drops(st, c, key, now, victim, k) ==>
                  k in l.entries)
  {
  }

  /** In a cache of completed entries a call is answered from its entry, or finds a place and is registered. */
  lemma EnterMeans(st: Settings, c: Cache, key: Key, now: Time, victim: Key)
    requires WellFormed(c) && st.limit > 0 && "" !in c.entries && VictimOk(st, c, key, now, victim)
    requires forall k :: k in c.entries ==> !InFlight(c, k) && st.codec.decode(c.heap[c.entries[k]].result).Some?
    ensures var live, l := Unexpired(c, now, st.ttl), Remaining(st, c, key, now, victim);
            EnterRegion(st, c, key, now, victim) ==
            if key in live.entries
                then (l, Replay(c.entries[key], st.codec.decode(c.heap[c.entries[key]].result).value))
            else (WithNew(l, key), Register(|c.heap|))
  {
    var live := Unexpired(c, now, st.ttl);
    if key !in live.entries && |live.entries| >= st.limit {
      SomeEntry(live);
    }
  }

  lemma SomeEntry(c: Cache)
    requires WellFormed(c) && |c.entries| > 0 && forall k :: k in c.entries ==> !InFlight(c, k)
    ensures AnyCompleted(c)
  {
    assert c.entries.Keys != {} by { assert |c.entries| == |c.entries.Keys|; }
    var k :| k in c.entries.Keys;
    assert k in c.entries && !InFlight(c, k);
  }

  lemma PrunedCached(codec: Codec, c: Cache, l: Cache, kept: map<Key, CallResult>)
    requires Cached(codec, c, kept) && WellFormed(l) && l.heap == c.heap
    requires forall k :: k in l.entries ==> k in c.entries && l.entries[k] == c.entries[k]
    ensures Cached(codec, l, kept)
  {
  }

  /** One call does to a cache of kept results what the memory does, where its own entry is not lost. */
  lemma PassIsRemember<S, C>(w: World<S, C>, got: Stage<S>, want: Ideal<S>, a: Arrival<C>)
    requires Faithful(w.settings.codec) && w.settings.limit > 0 && 0 < a.leave && w.keyOf(a.call) != Some("")
    requires Cached(w.settings.codec, got.cache, want.kept) && "" !in want.kept
    requires got.store == want.store && got.replies == want.replies
    requires var key := w.keyOf(a.call);
             key.Some? ==>
               && VictimOk(w.settings, got.cache, key.value, a.enter, a.victim)
               && !Costs(w, got.cache, a, key.value)
               && (key.value in want.kept ==> key.value in got.cache.entries)
    ensures var got', want' := Pass(w, got, a), Remember(w, want, a.call);
            && got'.store == want'.store && got'.replies == want'.replies
            && Cached(w.settings.codec, got'.cache, want'.kept) && "" !in want'.kept
            && (forall k :: k in want'.kept && k !in want.kept ==> k in got'.cache.entries)
            && (forall k :: k in got.cache.entries && !Costs(w, got.cache, a, k) ==> k in got'.cache.entries)
  {
    var st, key, ran := w.settings, w.keyOf(a.call), w.exec(got.store, a.call);
    if key.Some? {
      var l := Remaining(st, got.cache, key.value, a.enter, a.victim);
      EnterMeans(st, got.cache, key.value, a.enter, a.victim);
      RemainingMeans(st, got.cache, key.value, a.enter, a.victim);
      PrunedCached(st.codec, got.cache, l, want.kept);
      if key.value !in got.cache.entries {
        CompletedCached(st.codec, l, want.kept, key.value, ran.result, ran.err, a.leave);
      }
    }
  }

  /** The cache holds every kept result that is still wanted. */
  ghost predicate HoldsWanted<S,
      C>(w: World<S, C>, c: Cache, kept: map<Key, CallResult>, calls: seq<Arrival<C>>, n: nat) {
    forall k :: k in kept && Wanted(w, calls, n, k) ==> k in c.entries
  }

  /** So the stream sees the memory, up to any of its calls. */
  lemma {:induction false} CacheIsMemoryUpTo<S, C>(w: World<S, C>, store: S, calls: seq<Arrival<C>>, n: nat)
    requires Faithful(w.settings.codec) && Admissible(w, store, calls) && Unlost(w, store, calls) && n <= |calls|
    ensures var got, want := Before(w, store, calls, n), RememberAll(w, store, calls[..n]);
            && got.store == want.store && got.replies == want.replies
            && Cached(w.settings.codec, got.cache, want.kept) && "" !in want.kept
            && HoldsWanted(w, got.cache, want.kept, calls, n)
  {
    if n > 0 {
      var a, key := calls[n - 1], w.keyOf(calls[n - 1].call);
      CacheIsMemoryUpTo(w, store, calls, n - 1);
      assert calls[..n][..n - 1] == calls[..n - 1] && calls[..n][n - 1] == a;
      var got, want := Before(w, store, calls, n - 1), RememberAll(w, store, calls[..n - 1]);
      assert ArrivalOk(w, store, calls, n - 1);
      if key.Some? {
        assert Wanted(w, calls, n - 1, key.value) && SparedAt(w, store, calls, n - 1, key.value);
      }
      PassIsRemember(w, got, want, a);
      forall k | k in RememberAll(w, store, calls[..n]).kept && Wanted(w, calls, n, k)
        ensures k in Before(w, store, calls, n).cache.entries
      {
        WantedBefore(w, calls, n, k);
        assert SparedAt(w, store, calls, n - 1, k);
      }
    }
  }

  lemma WantedBefore<S, C>(w: World<S, C>, calls: seq<Arrival<C>>, n: nat, k: Key)
    requires 0 < n && Wanted(w, calls, n, k)
    ensures Wanted(w, calls, n - 1, k)
  {
    var i :| n <= i < |calls| && w.keyOf(calls[i].call) == Some(k);
    assert n - 1 <= i;
  }

  /** The cache does to a stream that loses nothing it still wants what its meaning says: same stores, same replies. */
  lemma CacheIsMemory<S, C>(w: World<S, C>, store: S, calls: seq<Arrival<C>>)
    requires Faithful(w.settings.codec) && Admissible(w, store, calls) && Unlost(w, store, calls)
    ensures PassAll(w, store, calls).store == RememberAll(w, store, calls).store
    ensures PassAll(w, store, calls).replies == RememberAll(w, store, calls).replies
  {
    CacheIsMemoryUpTo(w, store, calls, |calls|);
    assert calls[..|calls|] == calls;
  }

  // ---------------------------------------------------------------- what a caller can check

  /** The keys under which a call before `n` ended less than the time to live before it enters. */
  function RecentKeys<S, C>(w: World<S, C>, calls: seq<Arrival<C>>, n: nat): set<Key>
    requires n < |calls|
  {
    set j | 0 <= j < n && w.keyOf(calls[j].call).Some? && calls[n].enter - calls[j].leave < w.settings.ttl ::
      w.keyOf(calls[j].call).value
  }

  /**
   In time and in room: whenever a class has calls on both sides, none of the earlier is as
   old as the time to live, and the recent keys with the entering one fit the cache.
   */
  ghost predicate Timely<S, C>(w: World<S, C>, calls: seq<Arrival<C>>) {
    forall n, j :: 0 <= j < n < |calls| && Straddles(w, calls, n, j) ==>
      && calls[n].enter - calls[j].leave < w.settings.ttl
      && |RecentKeys(w, calls, n) + {w.keyOf(calls[n].call).value}| <= w.settings.limit
  }

  /** Call `n` is deduplicated, and the class of the earlier call `j` has a call from `n` on. */
  ghost predicate Straddles<S, C>(w: World<S, C>, calls: seq<Arrival<C>>, n: nat, j: nat)
    requires j < n < |calls|
  {
    w.keyOf(calls[n].call).Some? && w.keyOf(calls[j].call).Some? && Wanted(w, calls, n, w.keyOf(calls[j].call).value)
  }

  /** Every entry stems from a call of the stream under its key, and carries the time that call left. */
  ghost predicate Stamped<S, C>(w: World<S, C>, calls: seq<Arrival<C>>, n: nat, c: Cache)
    requires n <= |calls|
  {
    && WellFormed(c)
    && forall k :: k in c.entries ==> exists j :: 0 <= j < n && StampedBy(w, calls, c, k, j)
  }

  ghost predicate StampedBy<S, C>(w: World<S, C>, calls: seq<Arrival<C>>, c: Cache, k: Key, j: nat)
    requires j < |calls| && WellFormed(c) && k in c.entries
  {
    w.keyOf(calls[j].call) == Some(k) && Stamp(c, k) == calls[j].leave > 0
  }

  lemma StampsStay<S, C>(w: World<S, C>, calls: seq<Arrival<C>>, n: nat, m: nat, c: Cache, c': Cache)
    requires n <= m <= |calls| && Stamped(w, calls, n, c) && WellFormed(c')
    requires forall k :: k in c'.entries ==> k in c.entries && c'.heap[c'.entries[k]] == c.heap[c.entries[k]]
    ensures Stamped(w, calls, m, c')
  {
    forall k | k in c'.entries ensures exists j :: 0 <= j < m && StampedBy(w, calls, c', k, j) {
      var j :| 0 <= j < n && StampedBy(w, calls, c, k, j);
      assert StampedBy(w, calls, c', k, j);
    }
  }

  /** The region that begins a call prunes the cache, and may then add the call's own entry. */
  lemma EnterForms(st: Settings, c: Cache, key: Key, now: Time, victim: Key) returns (l: Cache)
    requires WellFormed(c)
    ensures WellFormed(l) && forall k :: k in l.entries ==>
        k in c.entries && l.heap[l.entries[k]] == c.heap[c.entries[k]]
    ensures var (c', next) := EnterRegion(st, c, key, now, victim);
            if next.Register? then c' == WithNew(l, key) && next.id == |l.heap| && key !in l.entries else c' == l
  {
    var live := Unexpired(c, now, st.ttl);
    if key !in live.entries && |live.entries| >= st.limit && AnyCompleted(live) && victim != "" {
      l := Without(live, victim);
    } else {
      l := live;
    }
  }

  /** The cache after a deduplicated call. */
  lemma PassCache<S, C>(w: World<S, C>, got: Stage<S>, a: Arrival<C>, l: Cache)
    requires WellFormed(got.cache) && w.keyOf(a.call).Some?
    requires var (c', next) := EnterRegion(w.settings, got.cache, w.keyOf(a.call).value, a.enter, a.victim);
             if next.Register? then c' == WithNew(l, w.keyOf(a.call).value) && next.id == |l.heap| else c' == l
    ensures var key, ran := w.keyOf(a.call).value, w.exec(got.store, a.call);
            Pass(w, got, a).cache ==
              if EnterRegion(w.settings, got.cache, key, a.enter, a.victim).1.Register?
              then CompleteRegion(w.settings.codec, WithNew(l, key), key, |l.heap|, ran.result, ran.err, a.leave)
              else l
  {
  }

  /** What one call does to the stamps. */
  lemma StampedNext<S, C>(w: World<S, C>, calls: seq<Arrival<C>>, n: nat, got: Stage<S>)
    requires n < |calls| && Stamped(w, calls, n, got.cache) && calls[n].leave > 0
    ensures Stamped(w, calls, n + 1, Pass(w, got, calls[n]).cache)
  {
    var a, st, key := calls[n], w.settings, w.keyOf(calls[n].call);
    var ran := w.exec(got.store, a.call);
    if key.None? {
      StampsStay(w, calls, n, n + 1, got.cache, got.cache);
    } else {
      var l := EnterForms(st, got.cache, key.value, a.enter, a.victim);
      StampsStay(w, calls, n, n + 1, got.cache, l);
      var next := EnterRegion(st, got.cache, key.value, a.enter, a.victim).1;
      PassCache(w, got, a, l);
      if next.Register? {
        StampedRegistered(w, calls, n, l, key.value, ran.result, ran.err);
      }
    }
  }

  lemma StampedRegistered<S, C>(w: World<S, C>, calls: seq<Arrival<C>>, n: nat, l: Cache, key: Key, r: CallResult,
                                err: Option<GoError>)
    requires n < |calls| && Stamped(w, calls, n + 1, l) && calls[n].leave > 0 && w.keyOf(calls[n].call) == Some(key)
    requires key !in l.entries
    ensures Stamped(w, calls, n + 1,
        CompleteRegion(w.settings.codec, WithNew(l, key), key, |l.heap|, r, err, calls[n].leave))
  {
    var codec := w.settings.codec;
    var done := CompleteRegion(codec, WithNew(l, key), key, |l.heap|, r, err, calls[n].leave);
    CompletedEntries(codec, l, key, r, err, calls[n].leave);
    forall k | k in done.entries ensures exists j :: 0 <= j < n + 1 && StampedBy(w, calls, done, k, j) {
      if k == key {
        assert StampedBy(w, calls, done, k, n);
      } else {
        var j :| 0 <= j < n + 1 && StampedBy(w, calls, l, k, j);
        assert StampedBy(w, calls, done, k, j);
      }
    }
  }

  lemma {:induction false} StampedAlways<S, C>(w: World<S, C>, store: S, calls: seq<Arrival<C>>, n: nat)
    requires n <= |calls| && forall i :: 0 <= i < |calls| ==> calls[i].leave > 0
    ensures Stamped(w, calls, n, Before(w, store, calls, n).cache)
  {
    if n > 0 {
      assert calls[..n][..n - 1] == calls[..n - 1] && calls[..n][n - 1] == calls[n - 1];
      StampedAlways(w, store, calls, n - 1);
      StampedNext(w, calls, n - 1, Before(w, store, calls, n - 1));
    }
  }

  /** What is on file unexpired is under a recent key. */
  lemma LiveIsRecent<S, C>(w: World<S, C>, calls: seq<Arrival<C>>, n: nat, c: Cache)
    requires n < |calls| && Stamped(w, calls, n, c)
    ensures Unexpired(c, calls[n].enter, w.settings.ttl).entries.Keys <= RecentKeys(w, calls, n)
  {
    var live := Unexpired(c, calls[n].enter, w.settings.ttl);
    forall k | k in live.entries.Keys ensures k in RecentKeys(w, calls, n) {
      var j :| 0 <= j < n && StampedBy(w, calls, c, k, j);
      assert w.keyOf(calls[j].call).value == k;
    }
  }

  lemma TimelySpares<S, C>(w: World<S, C>, calls: seq<Arrival<C>>, n: nat, c: Cache, k: Key)
    requires Timely(w, calls) && n < |calls| && Stamped(w, calls, n, c) && Wanted(w, calls, n, k)
    requires w.keyOf(calls[n].call).Some?
    ensures !Drops(w.settings, c, w.keyOf(calls[n].call).value, calls[n].enter, calls[n].victim, k)
  {
    if k in c.entries {
      var key, live := w.keyOf(calls[n].call).value, Unexpired(c, calls[n].enter, w.settings.ttl);
      var j :| 0 <= j < n && StampedBy(w, calls, c, k, j);
      assert Straddles(w, calls, n, j);
      LiveIsRecent(w, calls, n, c);
      if key !in live.entries {
        SubsetSize(live.entries.Keys, RecentKeys(w, calls, n) + {key});
        assert |live.entries| == |live.entries.Keys|;
      }
    }
  }

  /**
   A stream whose repeats come in time, while there is room, loses nothing it still wants; its
   length does not matter.
  */
  lemma TimelyIsUnlost<S, C>(w: World<S, C>, store: S, calls: seq<Arrival<C>>)
    requires Timely(w, calls) && forall i :: 0 <= i < |calls| ==> calls[i].leave > 0
    ensures Unlost(w, store, calls)
  {
    forall i, k | 0 <= i < |calls| && Wanted(w, calls, i, k) ensures SparedAt(w, store, calls, i, k) {
      StampedAlways(w, store, calls, i);
      if w.keyOf(calls[i].call).Some? {
        TimelySpares(w, calls, i, Before(w, store, calls, i).cache, k);
      }
    }
  }

  // ---------------------------------------------------------------- only the first of each class

  datatype Trace<S> = Trace(store: S, runs: seq<Ran<S>>)

  /** Running calls one after the other, without any cache. */
  function RunAll<S, C>(w: World<S, C>, store: S, calls: seq<C>): (t: Trace<S>)
    ensures |t.runs| == |calls|
  {
    if calls == [] then Trace(store, [])
    else
      var before := RunAll(w, store, calls[..|calls| - 1]);
      var ran := w.exec(before.store, calls[|calls| - 1]);
      Trace(ran.state, before.runs + [ran])
  }

  /** Call `i` is not deduplicated, or the first of its class. */
  predicate IsFirst<S, C>(w: World<S, C>, calls: seq<Arrival<C>>, i: nat)
    requires i < |calls|
  {
    w.keyOf(calls[i].call).None? || w.keyOf(calls[i].call).value !in KeysOf(w, calls[..i])
  }

  /** The stream without its repeats. */
  function Firsts<S, C>(w: World<S, C>, calls: seq<Arrival<C>>): seq<C> {
    if calls == [] then []
    else Firsts(w, calls[..|calls| - 1]) + if IsFirst(w, calls, |calls| - 1) then [calls[|calls| - 1].call] else []
  }

  /** Running the stream without its repeats, no deduplicated call has a Go error or a result that cannot be encoded. */
  ghost predicate Clean<S, C>(w: World<S, C>, store: S, calls: seq<C>) {
    forall n :: 0 <= n < |calls| && w.keyOf(calls[n]).Some? ==>
      Kept(w.settings.codec, RunAll(w, store, calls).runs[n].result, RunAll(w, store, calls).runs[n].err)
  }

  lemma CleanInit<S, C>(w: World<S, C>, store: S, calls: seq<C>, more: seq<C>)
    requires Clean(w, store, calls + more) && |more| <= 1
    ensures Clean(w, store, calls)
  {
    if more == [] {
      assert calls + more == calls;
    } else {
      var all := calls + more;
      assert all[..|all| - 1] == calls;
      forall n | 0 <= n < |calls| && w.keyOf(calls[n]).Some?
        ensures Kept(w.settings.codec, RunAll(w, store, calls).runs[n].result, RunAll(w, store, calls).runs[n].err)
      {
        assert all[n] == calls[n];
        assert RunAll(w, store, all).runs[n] == RunAll(w, store, calls).runs[n];
      }
    }
  }

  /** The reply to a call that ran. */
  function FirstReply<S, C>(w: World<S, C>, key: Option<Key>, ran: Ran<S>): Reply {
    Reply(if key.None? then ran.result else OwnResult(w.settings.codec, ran.result, ran.err), ran.err, false)
  }

  /** First call `i` is answered with what it did in the stream without repeats. */
  predicate FirstAnswered<S(==), C(==)>(w: World<S, C>, store: S, calls: seq<Arrival<C>>, replies: seq<Reply>, i: nat)
    requires i < |calls|
  {
    var runs, key, n := RunAll(w, store, Firsts(w, calls)).runs, w.keyOf(calls[i].call), |Firsts(w, calls[..i])|;
    && i < |replies| && n < |Firsts(w, calls)| && Firsts(w, calls)[n] == calls[i].call
    && Hears(w.settings.codec, runs[n].result, runs[n].err, key.Some?, replies[i].result)
    && replies[i].err == runs[n].err && !replies[i].deduplicated
  }

  /** Call `j` is the first of the class of the later call `i`. */
  predicate Repeats<S, C>(w: World<S, C>, calls: seq<Arrival<C>>, i: nat, j: nat) {
    j < i < |calls| && w.keyOf(calls[i].call).Some? && w.keyOf(calls[i].call) == w.keyOf(calls[j].call)
        && IsFirst(w, calls, j)
  }

  /** Every first call is answered from its run, and each repeat with the copy its first call was given. */
  ghost predicate AnsweredOnce<S, C>(w: World<S, C>, store: S, calls: seq<Arrival<C>>, replies: seq<Reply>) {
    && |replies| == |calls|
    && (forall i :: 0 <= i < |calls| && IsFirst(w, calls, i) ==> FirstAnswered(w, store, calls, replies, i))
    && (forall i, j {:trigger Repeats(w, calls, i, j)} :: 0 <= j < i < |calls| && Repeats(w, calls, i, j) ==>
        replies[i] == Reply(replies[j].result, None, true))
  }

  /** The kept results are those of the first calls. */
  ghost predicate KeptAreFirsts<S, C>(w: World<S, C>, calls: seq<Arrival<C>>, want: Ideal<S>) {
    && want.kept.Keys == KeysOf(w, calls)
    && |want.replies| == |calls|
    && forall j :: 0 <= j < |calls| && IsFirst(w, calls, j) && w.keyOf(calls[j].call).Some? ==>
         w.keyOf(calls[j].call).value in want.kept && want.kept[w.keyOf(calls[j].call).value] == want.replies[j].result
  }

  lemma IsFirstInit<S, C>(w: World<S, C>, calls: seq<Arrival<C>>, i: nat)
    requires i < |calls| - 1
    ensures IsFirst(w, calls[..|calls| - 1], i) == IsFirst(w, calls, i)
    ensures calls[..|calls| - 1][..i] == calls[..i] && calls[..|calls| - 1][i] == calls[i]
  {
    assert calls[..|calls| - 1][..i] == calls[..i];
  }

  /** Every key of a stream has a first call. */
  lemma {:induction false} FirstExists<S, C>(w: World<S, C>, calls: seq<Arrival<C>>, k: Key) returns (j: nat)
    requires k in KeysOf(w, calls)
    ensures j < |calls| && IsFirst(w, calls, j) && w.keyOf(calls[j].call) == Some(k)
    decreases |calls|
  {
    var i :| 0 <= i < |calls| && w.keyOf(calls[i].call) == Some(k);
    if IsFirst(w, calls, i) {
      j := i;
    } else {
      j := FirstExists(w, calls[..i], k);
      assert calls[..i][..j] == calls[..j];
    }
  }

  lemma KeysOfStep<S, C>(w: World<S, C>, calls: seq<Arrival<C>>)
    requires calls != []
    ensures var key := w.keyOf(calls[|calls| - 1].call);
            KeysOf(w, calls) == KeysOf(w, calls[..|calls| - 1]) + if key.Some? then {key.value} else {}
  {
    KeysOfInit(w, calls);
    var init := calls[..|calls| - 1];
    forall k | k in KeysOf(w, calls) ensures k in KeysOf(w, init) || w.keyOf(calls[|calls| - 1].call) == Some(k) {
      var i :| 0 <= i < |calls| && w.keyOf(calls[i].call) == Some(k);
      if i < |init| { assert init[i] == calls[i]; }
    }
  }

  /** The earlier calls' answers stand when a call is added. */
  lemma EarlierAnswers<S, C>(w: World<S, C>, store: S, calls: seq<Arrival<C>>, replies: seq<Reply>, last: Reply, i: nat)
    requires calls != [] && AnsweredOnce(w, store, calls[..|calls| - 1], replies) && i < |calls| - 1
        && IsFirst(w, calls, i)
    ensures FirstAnswered(w, store, calls, replies + [last], i)
  {
    var init := calls[..|calls| - 1];
    IsFirstInit(w, calls, i);
    assert FirstAnswered(w, store, init, replies, i);
    if IsFirst(w, calls, |calls| - 1) {
      assert Firsts(w, calls)[..|Firsts(w, calls)| - 1] == Firsts(w, init);
    } else {
      assert Firsts(w, calls) == Firsts(w, init);
    }
  }

  /** A repeat, being answered from what its first call left. */
  lemma RepeatAnswer<S, C>(w: World<S, C>, calls: seq<Arrival<C>>, want: Ideal<S>, j: nat)
    requires calls != [] && KeptAreFirsts(w, calls[..|calls| - 1], want)
    requires j < |calls| - 1 && IsFirst(w, calls, j) && w.keyOf(calls[j].call).Some?
    requires w.keyOf(calls[|calls| - 1].call) == w.keyOf(calls[j].call)
    ensures Remember(w, want, calls[|calls| - 1].call).replies
        == want.replies + [Reply(want.replies[j].result, None, true)]
  {
    IsFirstInit(w, calls, j);
  }

  /** A first call runs. */
  lemma FirstRuns<S, C>(w: World<S, C>, store: S, calls: seq<Arrival<C>>, want: Ideal<S>)
    requires calls != [] && KeptAreFirsts(w, calls[..|calls| - 1], want) && IsFirst(w, calls, |calls| - 1)
    requires want.store == RunAll(w, store, Firsts(w, calls[..|calls| - 1])).store
    requires Clean(w, store, Firsts(w, calls))
    ensures var c, all := calls[|calls| - 1].call, RunAll(w, store, Firsts(w, calls));
            var want', key := Remember(w, want, c), w.keyOf(c);
            var ran := all.runs[|all.runs| - 1];
            && want'.store == all.store
            && want'.replies == want.replies + [FirstReply(w, key, ran)]
            && want'.kept == if key.None? then want.kept else want.kept[key.value := FirstReply(w, key, ran).result]
  {
    var init, c := calls[..|calls| - 1], calls[|calls| - 1].call;
    var firsts := Firsts(w, calls);
    assert firsts[..|firsts| - 1] == Firsts(w, init) && firsts[|firsts| - 1] == c;
    if w.keyOf(c).Some? {
      assert w.keyOf(firsts[|firsts| - 1]).Some?;
    }
  }

  lemma KeptStep<S, C>(w: World<S, C>, calls: seq<Arrival<C>>, want: Ideal<S>, want': Ideal<S>)
    requires calls != [] && KeptAreFirsts(w, calls[..|calls| - 1], want)
    requires |want'.replies| == |calls| && want'.replies[..|calls| - 1] == want.replies
    requires var key := w.keyOf(calls[|calls| - 1].call);
             want'.kept ==
               if key.None? || !IsFirst(w, calls, |calls| - 1) then want.kept
               else want.kept[key.value := want'.replies[|calls| - 1].result]
    ensures KeptAreFirsts(w, calls, want')
  {
    var init, key := calls[..|calls| - 1], w.keyOf(calls[|calls| - 1].call);
    KeysOfStep(w, calls);
    forall j | 0 <= j < |calls| && IsFirst(w, calls, j) && w.keyOf(calls[j].call).Some?
      ensures w.keyOf(calls[j].call).value in want'.kept
          && want'.kept[w.keyOf(calls[j].call).value] == want'.replies[j].result
    {
      if j < |init| {
        IsFirstInit(w, calls, j);
        assert want'.replies[j] == want.replies[j];
        assert init[j] == calls[j];
        KeyInPrefix(w, init, j);
      }
    }
  }

  lemma KeyInPrefix<S, C>(w: World<S, C>, calls: seq<Arrival<C>>, j: nat)
    requires j < |calls| && w.keyOf(calls[j].call).Some?
    ensures w.keyOf(calls[j].call).value in KeysOf(w, calls)
  {
  }

  /** What the cache remembers amounts to running the stream without its repeats. */
  lemma {:induction false} MemoryIsOnce<S, C>(w: World<S, C>, store: S, calls: seq<Arrival<C>>)
    requires Clean(w, store, Firsts(w, calls))
    ensures var want := RememberAll(w, store, calls);
            && want.store == RunAll(w, store, Firsts(w, calls)).store
            && AnsweredOnce(w, store, calls, want.replies)
            && KeptAreFirsts(w, calls, want)
    decreases |calls|
  {
    if calls == [] {
      assert KeysOf(w, calls) == {};
    } else {
      var init, last := calls[..|calls| - 1], |calls| - 1;
      CleanInit(w, store, Firsts(w, init), if IsFirst(w, calls, last) then [calls[last].call] else []);
      MemoryIsOnce(w, store, init);
      LastStore(w, store, calls, RememberAll(w, store, init));
      LastKept(w, store, calls, RememberAll(w, store, init));
      OnceStep(w, store, calls, RememberAll(w, store, init));
    }
  }

  /** The last call, a repeat: nothing runs. */
  lemma LastRepeats<S, C>(w: World<S, C>, calls: seq<Arrival<C>>, want: Ideal<S>)
    requires calls != [] && KeptAreFirsts(w, calls[..|calls| - 1], want) && !IsFirst(w, calls, |calls| - 1)
    ensures var want' := Remember(w, want, calls[|calls| - 1].call);
            && want'.store == want.store && want'.kept == want.kept
            && |want'.replies| == |calls| && want'.replies[..|calls| - 1] == want.replies
  {
    var init, last := calls[..|calls| - 1], |calls| - 1;
    var j := FirstExists(w, init, w.keyOf(calls[last].call).value);
    assert init[j] == calls[j];
    IsFirstInit(w, calls, j);
    RepeatAnswer(w, calls, want, j);
  }

  /** A repeat does not appear in the stream without repeats. */
  lemma FirstsOfRepeat<S, C>(w: World<S, C>, calls: seq<Arrival<C>>)
    requires calls != [] && !IsFirst(w, calls, |calls| - 1)
    ensures Firsts(w, calls) == Firsts(w, calls[..|calls| - 1])
  {
  }

  lemma FirstStore<S, C>(w: World<S, C>, store: S, calls: seq<Arrival<C>>, want: Ideal<S>)
    requires calls != [] && Clean(w, store, Firsts(w, calls)) && IsFirst(w, calls, |calls| - 1)
    requires want.store == RunAll(w, store, Firsts(w, calls[..|calls| - 1])).store
    requires KeptAreFirsts(w, calls[..|calls| - 1], want)
    ensures var want', last := Remember(w, want, calls[|calls| - 1].call), |calls| - 1;
            && want'.store == RunAll(w, store, Firsts(w, calls)).store
            && |want'.replies| == |calls| && want'.replies[..last] == want.replies
            && FirstAnswered(w, store, calls, want'.replies, last)
  {
    FirstRuns(w, store, calls, want);
    LastIsAnswered(w, store, calls, Remember(w, want, calls[|calls| - 1].call).replies);
  }

  lemma LastStore<S, C>(w: World<S, C>, store: S, calls: seq<Arrival<C>>, want: Ideal<S>)
    requires calls != [] && Clean(w, store, Firsts(w, calls))
    requires want.store == RunAll(w, store, Firsts(w, calls[..|calls| - 1])).store
    requires KeptAreFirsts(w, calls[..|calls| - 1], want)
    ensures var want', last := Remember(w, want, calls[|calls| - 1].call), |calls| - 1;
            && want'.store == RunAll(w, store, Firsts(w, calls)).store
            && |want'.replies| == |calls| && want'.replies[..last] == want.replies
            && (IsFirst(w, calls, last) ==> FirstAnswered(w, store, calls, want'.replies, last))
  {
    if IsFirst(w, calls, |calls| - 1) {
      FirstStore(w, store, calls, want);
    } else {
      LastRepeats(w, calls, want);
      FirstsOfRepeat(w, calls);
    }
  }

  lemma LastIsAnswered<S, C>(w: World<S, C>, store: S, calls: seq<Arrival<C>>, replies: seq<Reply>)
    requires calls != [] && |replies| == |calls| && IsFirst(w, calls, |calls| - 1)
    requires var all, key := RunAll(w, store, Firsts(w, calls)), w.keyOf(calls[|calls| - 1].call);
             var ran := all.runs[|all.runs| - 1];
             replies[|calls| - 1] == FirstReply(w, key, ran)
    ensures FirstAnswered(w, store, calls, replies, |calls| - 1)
  {
  }

  lemma LastKept<S, C>(w: World<S, C>, store: S, calls: seq<Arrival<C>>, want: Ideal<S>)
    requires calls != [] && Clean(w, store, Firsts(w, calls))
    requires want.store == RunAll(w, store, Firsts(w, calls[..|calls| - 1])).store
    requires KeptAreFirsts(w, calls[..|calls| - 1], want)
    ensures KeptAreFirsts(w, calls, Remember(w, want, calls[|calls| - 1].call))
  {
    if IsFirst(w, calls, |calls| - 1) {
      FirstRuns(w, store, calls, want);
    } else {
      LastRepeats(w, calls, want);
    }
    KeptStep(w, calls, want, Remember(w, want, calls[|calls| - 1].call));
  }

  lemma RepeatStep<S, C>(w: World<S, C>, store: S, calls: seq<Arrival<C>>, want: Ideal<S>, i: nat, j: nat)
    requires calls != [] && Repeats(w, calls, i, j)
    requires AnsweredOnce(w, store, calls[..|calls| - 1], want.replies) && KeptAreFirsts(w, calls[..|calls| - 1], want)
    requires |Remember(w, want, calls[|calls| - 1].call).replies| == |calls|
    requires Remember(w, want, calls[|calls| - 1].call).replies[..|calls| - 1] == want.replies
    ensures var replies := Remember(w, want, calls[|calls| - 1].call).replies;
            replies[i] == Reply(replies[j].result, None, true)
  {
    var init, last := calls[..|calls| - 1], |calls| - 1;
    IsFirstInit(w, calls, j);
    if i < last {
      assert init[i] == calls[i];
      assert Repeats(w, init, i, j);
    } else {
      RepeatAnswer(w, calls, want, j);
    }
  }

  lemma OnceStep<S, C>(w: World<S, C>, store: S, calls: seq<Arrival<C>>, want: Ideal<S>)
    requires calls != [] && Clean(w, store, Firsts(w, calls))
    requires want.store == RunAll(w, store, Firsts(w, calls[..|calls| - 1])).store
    requires AnsweredOnce(w, store, calls[..|calls| - 1], want.replies) && KeptAreFirsts(w, calls[..|calls| - 1], want)
    ensures AnsweredOnce(w, store, calls, Remember(w, want, calls[|calls| - 1].call).replies)
  {
    var replies := Remember(w, want, calls[|calls| - 1].call).replies;
    LastStore(w, store, calls, want);
    forall i | 0 <= i < |calls| && IsFirst(w, calls, i) ensures FirstAnswered(w, store, calls, replies, i) {
      if i < |calls| - 1 {
        EarlierAnswers(w, store, calls, want.replies, replies[|calls| - 1], i);
        assert replies == want.replies + [replies[|calls| - 1]];
      }
    }
    forall i, j | 0 <= j < i < |calls| && Repeats(w, calls, i, j)
      ensures replies[i] == Reply(replies[j].result, None, true)
    {
      RepeatStep(w, store, calls, want, i, j);
    }
  }

  /**
   Exactly once: a stream of any length through `deduplicate` and the cache, in which no entry
   is lost that is still wanted, leaves the store that the stream without its repeats leaves,
   and answers every call with what its first call did.
   */
  lemma ExactlyOnce<S, C>(w: World<S, C>, store: S, calls: seq<Arrival<C>>)
    requires Faithful(w.settings.codec) && Admissible(w, store, calls) && Unlost(w, store, calls)
    requires Clean(w, store, Firsts(w, calls))
    ensures PassAll(w, store, calls).store == RunAll(w, store, Firsts(w, calls)).store
    ensures AnsweredOnce(w, store, calls, PassAll(w, store, calls).replies)
  {
    CacheIsMemory(w, store, calls);
    MemoryIsOnce(w, store, calls);
  }
}
