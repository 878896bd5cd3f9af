/**
 Any number of concurrent calls of the request-id cache.  Each locked region, each end of an
 execution and each wake-up is one atomic step; a label names the step and carries the
 choices made outside the cache (which call moves, what `execute` returned, which of several
 equally old entries an eviction meets first).  Besides the cache the state keeps a ledger
 of every registered execution, which no step reads.
 */
module CacheProtocol {
  import opened Base
  import opened RequestCache

  /** One cache and the keys of the calls made on it; calls are numbered. */
  datatype Params = Params(settings: Settings, keys: seq<Key>)

  datatype Answer = Answer(result: CallResult, err: Option<GoError>, deduplicated: bool, source: Option<nat>)

  datatype Call =
    | Entering
    | Waiting(id: nat)
    | Dropping
    | Executing(slot: Option<nat>)
    | Returned(answer: Answer)

  /** What became of entry `id`: whose execution it is, how it ended, and who was waiting then. */
  datatype Execution = Execution(owner: nat, ended: Option<Ending>)

  datatype Ending = Ending(result: CallResult, err: Option<GoError>, at: Time, waiters: set<nat>)

  datatype System = System(cache: Cache, calls: seq<Call>, now: Time, ledger: seq<Execution>, retried: seq<set<nat>>)

  datatype Label =
    | Tick
    | Enter(t: nat, victim: Key)
    | DropEntry(t: nat)
    | Finish(t: nat, result: CallResult, err: Option<GoError>)
    | Wake(t: nat)

  ghost predicate Enabled(p: Params, s: System, l: Label) {
    && |s.calls| == |p.keys| == |s.retried| && WellFormed(s.cache)
    && match l
       case Tick => true
       case Enter(t, victim) =>
         t < |s.calls| && s.calls[t].Entering? && VictimOk(p.settings, s.cache, p.keys[t], s.now, victim)
       case DropEntry(t) => t < |s.calls| && s.calls[t].Dropping?
       case Finish(t, _, _) =>
         && t < |s.calls| && s.calls[t].Executing?
         && (s.calls[t].slot.Some? ==> s.calls[t].slot.value < |s.cache.heap| && s.calls[t].slot.value < |s.ledger|)
       case Wake(t) =>
         t < |s.calls| && s.calls[t].Waiting? && s.calls[t].id < |s.cache.heap|
             && s.cache.heap[s.calls[t].id].closes > 0
  }

  ghost function Step(p: Params, s: System, l: Label): System
    requires Enabled(p, s, l)
  {
    match l
    case Tick => s.(now := s.now + 1)
    case Enter(t, victim) =>
      var (cache, next) := EnterRegion(p.settings, s.cache, p.keys[t], s.now, victim);
      var s' := s.(cache := cache);
      (match next
       case Wait(id) => s'.(calls := s.calls[t := Waiting(id)])
       case Replay(id, r) => s'.(calls := s.calls[t := Returned(Answer(r, None, true, Some(id)))])
       case Drop => s'.(calls := s.calls[t := Dropping])
       case Register(id) => s'.(calls := s.calls[t := Executing(Some(id))], ledger := s.ledger + [Execution(t, None)])
       case Bypass => s'.(calls := s.calls[t := Executing(None)]))
    case DropEntry(t) => s.(cache := Without(s.cache, p.keys[t]), calls := s.calls[t := Entering])
    case Finish(t, r, err) =>
      if s.calls[t].slot.None? then s.(calls := s.calls[t := Returned(Answer(r, err, false, None))])
      else
        var id := s.calls[t].slot.value;
        s.(cache := CompleteRegion(p.settings.codec, s.cache, p.keys[t], id, r, err, s.now),
           calls := s.calls[t := Returned(Answer(OwnResult(p.settings.codec, r, err), err, false, None))],
           ledger := s.ledger[id := Execution(s.ledger[id].owner, Some(Ending(r, err, s.now, WaitersOf(s, id))))])
    case Wake(t) =>
      var id := s.calls[t].id;
      (match p.settings.codec.decode(s.cache.heap[id].result)
       case Some(r) => s.(calls := s.calls[t := Returned(Answer(r, s.cache.heap[id].err, true, Some(id)))])
       case None => s.(calls := s.calls[t := Entering], retried := s.retried[t := s.retried[t] + {id}]))
  }

  function WaitersOf(s: System, id: nat): set<nat> {
    set t | 0 <= t < |s.calls| && s.calls[t] == Waiting(id)
  }

  ghost predicate Schedule(p: Params, s: System, labels: seq<Label>)
    decreases |labels|
  {
    labels == [] || (Enabled(p, s, labels[0]) && Schedule(p, Step(p, s, labels[0]), labels[1..]))
  }

  ghost function After(p: Params, s: System, labels: seq<Label>): System
    requires Schedule(p, s, labels)
    decreases |labels|
  {
    if labels == [] then s else After(p, Step(p, s, labels[0]), labels[1..])
  }

  /** An empty cache, the clock running; every call is about to enter, or runs past the cache. */
  ghost predicate Initial(p: Params, s: System) {
    && s.cache == Cache(map[], []) && s.ledger == [] && s.now > 0
    && |s.calls| == |p.keys| == |s.retried|
    && (forall t :: 0 <= t < |s.calls| ==>
        (s.calls[t] == Entering || s.calls[t] == Executing(None)) && s.retried[t] == {})
  }

  /** The two hypotheses: a faithful codec, and no empty key; and the limit allows an entry. */
  ghost predicate Sound(p: Params) {
    && Faithful(p.settings.codec) && p.settings.limit > 0 && p.settings.ttl > 0
    && forall t :: 0 <= t < |p.keys| ==> p.keys[t] != ""
  }

  // ---------------------------------------------------------------- the invariant

  ghost predicate Shape(p: Params, s: System) {
    && |s.calls| == |p.keys| == |s.retried| && |s.ledger| == |s.cache.heap| && s.now > 0
    && WellFormed(s.cache)
    && (forall id :: 0 <= id < |s.ledger| ==> s.ledger[id].owner < |s.calls|)
  }

  /** An entry is in flight and owned by the call that executes it, or settled by its ended execution. */
  ghost predicate EntryOk(p: Params, s: System, id: nat)
    requires Shape(p, s) && id < |s.ledger|
  {
    var x, entry, owner := s.ledger[id], s.cache.heap[id], s.ledger[id].owner;
    match x.ended
    case None =>
      && entry == FRESH && s.calls[owner] == Executing(Some(id))
      && p.keys[owner] in s.cache.entries && s.cache.entries[p.keys[owner]] == id
    case Some(e) =>
      && entry == Settled(p.settings.codec, e.result, e.err, e.at)
      && 0 < e.at <= s.now
      && s.calls[owner] == Returned(Answer(OwnResult(p.settings.codec, e.result, e.err), e.err, false, None))
  }

  /** A filed entry belongs to its key and, if it is settled, can be replayed. */
  ghost predicate FiledOk(p: Params, s: System, k: Key)
    requires Shape(p, s) && k in s.cache.entries
  {
    var id := s.cache.entries[k];
    && p.keys[s.ledger[id].owner] == k
    && (s.ledger[id].ended.Some? ==> s.cache.heap[id].completedAt > 0)
  }

  /** Entry `id` ended while `t` waited for it. */
  predicate WaitedFor(s: System, id: nat, t: nat) {
    id < |s.ledger| && s.ledger[id].ended.Some? && t in s.ledger[id].ended.value.waiters
  }

  ghost predicate CallOk(p: Params, s: System, t: nat)
    requires Shape(p, s) && t < |s.calls|
  {
    && (forall id :: id in s.retried[t] ==>
          && id < |s.ledger| && s.ledger[id].owner != t && s.ledger[id].ended.Some?
          && p.settings.codec.decode(s.cache.heap[id].result).None?)
    && match s.calls[t]
       case Entering => true
       case Dropping => false
       case Waiting(id) =>
         && id < |s.ledger| && s.ledger[id].owner != t && p.keys[s.ledger[id].owner] == p.keys[t]
         && id !in s.retried[t]
         && (s.ledger[id].ended.Some? ==> WaitedFor(s, id, t))
       case Executing(slot) =>
         slot.Some? ==> slot.value < |s.ledger| && s.ledger[slot.value] == Execution(t, None)
       case Returned(a) =>
         a.deduplicated ==> a.source.Some? && ReplayOf(p, s, t, a.source.value, a)
  }

  /**
   The answer is the decoded copy of what execution `id`, under the same key, left; its error
   reached only waiters.
  */
  ghost predicate ReplayOf(p: Params, s: System, t: nat, id: nat, a: Answer)
    requires Shape(p, s) && t < |s.calls|
  {
    && id < |s.ledger| && s.ledger[id].owner != t && p.keys[s.ledger[id].owner] == p.keys[t]
    && s.ledger[id].ended.Some?
    && var e := s.ledger[id].ended.value;
       && p.settings.codec.encode(e.result).Some?
       && p.settings.codec.decode(p.settings.codec.encode(e.result).value) == Some(a.result)
       && a.err == e.err
       && (a.err.Some? ==> t in e.waiters)
  }

  ghost predicate Inv(p: Params, s: System) {
    && Shape(p, s)
    && (forall id :: 0 <= id < |s.ledger| ==> EntryOk(p, s, id))
    && (forall k :: k in s.cache.entries ==> FiledOk(p, s, k))
    && (forall t :: 0 <= t < |s.calls| ==> CallOk(p, s, t))
    && (forall i, j :: 0 <= i < j < |s.ledger| ==> s.ledger[i].owner != s.ledger[j].owner)
    && |s.cache.entries| <= p.settings.limit
  }

  // ---------------------------------------------------------------- every step keeps it

  lemma InitialInv(p: Params, s: System)
    requires Initial(p, s)
    ensures Inv(p, s)
  {
  }

  lemma TickKeeps(p: Params, s: System)
    requires Inv(p, s)
    ensures Inv(p, s.(now := s.now + 1))
  {
    var s' := s.(now := s.now + 1);
    forall id | 0 <= id < |s.ledger| ensures EntryOk(p, s', id) { assert EntryOk(p, s, id); }
    forall k | k in s.cache.entries ensures FiledOk(p, s', k) { assert FiledOk(p, s, k); }
    forall t | 0 <= t < |s.calls| ensures CallOk(p, s', t) { assert CallOk(p, s, t); }
  }

  /** Removing entries that are not in flight, and nothing else. */
  ghost predicate Pruned(c: Cache, c': Cache)
    requires WellFormed(c)
  {
    && c'.heap == c.heap
    && (forall k :: k in c'.entries ==> k in c.entries && c'.entries[k] == c.entries[k])
    && (forall k :: k in c.entries && InFlight(c, k) ==> k in c'.entries)
  }

  lemma PruneKeeps(p: Params, s: System, c: Cache)
    requires Inv(p, s) && Pruned(s.cache, c)
    ensures Inv(p, s.(cache := c)) && |c.entries| <= |s.cache.entries|
  {
    var s' := s.(cache := c);
    SubmapSize(s.cache, c);
    forall id | 0 <= id < |s.ledger| ensures EntryOk(p, s', id) { assert EntryOk(p, s, id); }
    forall k | k in c.entries ensures FiledOk(p, s', k) { assert FiledOk(p, s, k); }
    forall t | 0 <= t < |s.calls| ensures CallOk(p, s', t) {
      assert CallOk(p, s, t);
      CallStable(p, s, s', t);
    }
  }

  /** A call that neither executes nor is recorded as executing moves; the rest stays. */
  lemma MoveKeeps(p: Params, s: System, t: nat, c: Call)
    requires Inv(p, s) && t < |s.calls|
    requires s.calls[t].Entering? || s.calls[t].Waiting? || s.calls[t] == Executing(None)
    requires CallOk(p, s.(calls := s.calls[t := c]), t)
    requires c.Executing? ==> c.slot.None?
    ensures Inv(p, s.(calls := s.calls[t := c]))
  {
    var s' := s.(calls := s.calls[t := c]);
    forall id | 0 <= id < |s.ledger| ensures EntryOk(p, s', id) { assert EntryOk(p, s, id); }
    forall k | k in s.cache.entries ensures FiledOk(p, s', k) { assert FiledOk(p, s, k); }
    forall u | 0 <= u < |s.calls| ensures CallOk(p, s', u) { if u != t { assert CallOk(p, s, u); } }
  }

  /** The ledger only grows: an open execution may end, recording who waits; an ended one stays. */
  ghost predicate Grows(s: System, s': System)
    requires |s.ledger| == |s.cache.heap| && |s'.ledger| == |s'.cache.heap|
  {
    && |s.ledger| <= |s'.ledger|
    && forall id :: 0 <= id < |s.ledger| ==>
         && s'.ledger[id].owner == s.ledger[id].owner
         && (s.ledger[id].ended.Some? ==> s'.ledger[id] == s.ledger[id] && s'.cache.heap[id] == s.cache.heap[id])
         && (s.ledger[id].ended.None? && s'.ledger[id].ended.Some? ==>
             s'.ledger[id].ended.value.waiters == WaitersOf(s, id))
  }

  /** A call that does not move keeps its part of the invariant while the ledger grows. */
  lemma CallStable(p: Params, s: System, s': System, t: nat)
    requires Shape(p, s) && Shape(p, s') && Grows(s, s') && t < |s.calls| && CallOk(p, s, t)
    requires s'.calls[t] == s.calls[t] && s'.retried[t] == s.retried[t]
    requires s.calls[t].Executing? && s.calls[t].slot.Some? ==>
        s'.ledger[s.calls[t].slot.value] == s.ledger[s.calls[t].slot.value]
    ensures CallOk(p, s', t)
  {
  }

  /** An entry nobody touches keeps its part. */
  lemma EntryStable(p: Params, s: System, s': System, id: nat)
    requires Shape(p, s) && Shape(p, s') && id < |s.ledger| && id < |s'.ledger| && EntryOk(p, s, id)
    requires s'.ledger[id] == s.ledger[id] && s'.cache.heap[id] == s.cache.heap[id] && s.now <= s'.now
    requires s'.calls[s.ledger[id].owner] == s.calls[s.ledger[id].owner]
    requires s.ledger[id].ended.None? ==>
               var k := p.keys[s.ledger[id].owner]; k in s'.cache.entries && s'.cache.entries[k] == s.cache.entries[k]
    ensures EntryOk(p, s', id)
  {
  }

  /** The state after a call has registered its execution. */
  ghost function Registered(p: Params, s: System, t: nat): System
    requires t < |s.calls| == |p.keys|
  {
    s.(cache := WithNew(s.cache, p.keys[t]),
       calls := s.calls[t := Executing(Some(|s.cache.heap|))],
       ledger := s.ledger + [Execution(t, None)])
  }

  ghost predicate MayRegister(p: Params, s: System, t: nat) {
    && Inv(p, s) && t < |s.calls| && s.calls[t].Entering?
    && p.keys[t] !in s.cache.entries && |s.cache.entries| < p.settings.limit
  }

  lemma RegisterShape(p: Params, s: System, t: nat)
    requires MayRegister(p, s, t)
    ensures Shape(p, Registered(p, s, t)) && Grows(s, Registered(p, s, t))
    ensures |Registered(p, s, t).cache.entries| <= p.settings.limit
  {
    var s' := Registered(p, s, t);
    assert s'.cache.entries.Keys == s.cache.entries.Keys + {p.keys[t]};
    assert |s'.cache.entries| == |s'.cache.entries.Keys| && |s.cache.entries| == |s.cache.entries.Keys|;
  }

  lemma RegisterEntry(p: Params, s: System, t: nat, id: nat)
    requires MayRegister(p, s, t) && Shape(p, Registered(p, s, t)) && id <= |s.ledger|
    ensures EntryOk(p, Registered(p, s, t), id)
    ensures id < |s.ledger| ==> s.ledger[id].owner != t
  {
    if id < |s.ledger| {
      assert EntryOk(p, s, id);
      EntryStable(p, s, Registered(p, s, t), id);
    }
  }

  lemma RegisterKeeps(p: Params, s: System, t: nat)
    requires MayRegister(p, s, t)
    ensures Inv(p, Registered(p, s, t))
  {
    var s' := Registered(p, s, t);
    RegisterShape(p, s, t);
    forall id | 0 <= id < |s'.ledger|
      ensures EntryOk(p, s', id) && (id < |s.ledger| ==> s.ledger[id].owner != t)
    {
      RegisterEntry(p, s, t, id);
    }
    forall k | k in s'.cache.entries ensures FiledOk(p, s', k) { if k != p.keys[t] { assert FiledOk(p, s, k); } }
    forall u | 0 <= u < |s.calls| ensures CallOk(p, s', u) {
      assert CallOk(p, s, u);
      if u != t { CallStable(p, s, s', u); }
    }
  }

  /** The state after a registered execution has ended. */
  ghost function Ended(p: Params, s: System, t: nat, id: nat, r: CallResult, err: Option<GoError>): System
    requires id < |s.cache.heap| && id < |s.ledger| && t < |s.calls| == |p.keys|
  {
    s.(cache := CompleteRegion(p.settings.codec, s.cache, p.keys[t], id, r, err, s.now),
       calls := s.calls[t := Returned(Answer(OwnResult(p.settings.codec, r, err), err, false, None))],
       ledger := s.ledger[id := Execution(s.ledger[id].owner, Some(Ending(r, err, s.now, WaitersOf(s, id))))])
  }

  ghost predicate MayEnd(p: Params, s: System, t: nat, id: nat) {
    && Inv(p, s) && t < |s.calls| && s.calls[t] == Executing(Some(id)) && id < |s.ledger|
  }

  lemma SubmapSize(c: Cache, c': Cache)
    requires forall k :: k in c'.entries ==> k in c.entries
    ensures |c'.entries| <= |c.entries|
  {
    assert c'.entries.Keys <= c.entries.Keys;
    SubsetSize(c'.entries.Keys, c.entries.Keys);
    assert |c'.entries| == |c'.entries.Keys| && |c.entries| == |c.entries.Keys|;
  }

  lemma CompleteShrinks(codec: Codec, c: Cache, key: Key, id: nat, r: CallResult, err: Option<GoError>, now: Time)
    requires id < |c.heap|
    ensures |CompleteRegion(codec, c, key, id, r, err, now).entries| <= |c.entries|
  {
    SubmapSize(c, CompleteRegion(codec, c, key, id, r, err, now));
  }

  /** What an open execution has of its own: an entry in flight, filed under its key. */
  lemma EndOwn(p: Params, s: System, t: nat, id: nat)
    requires MayEnd(p, s, t, id)
    ensures s.ledger[id] == Execution(t, None) && id < |s.cache.heap| && s.cache.heap[id] == FRESH
    ensures p.keys[t] in s.cache.entries && s.cache.entries[p.keys[t]] == id
  {
    assert CallOk(p, s, t) && EntryOk(p, s, id);
  }

  lemma CompleteHeap(codec: Codec, c: Cache, key: Key, id: nat, r: CallResult, err: Option<GoError>, now: Time)
    requires WellFormed(c) && id < |c.heap| && c.heap[id] == FRESH
    ensures var c' := CompleteRegion(codec, c, key, id, r, err, now);
            WellFormed(c') && c'.heap == c.heap[id := Settled(codec, r, err, now)]
  {
  }

  lemma EndShape(p: Params, s: System, t: nat, id: nat, r: CallResult, err: Option<GoError>)
    requires MayEnd(p, s, t, id)
    ensures s.ledger[id] == Execution(t, None) && s.cache.heap[id] == FRESH
    ensures p.keys[t] in s.cache.entries && s.cache.entries[p.keys[t]] == id
    ensures Shape(p, Ended(p, s, t, id, r, err)) && Grows(s, Ended(p, s, t, id, r, err))
    ensures Ended(p, s, t, id, r, err).cache.heap == s.cache.heap[id := Settled(p.settings.codec, r, err, s.now)]
    ensures |Ended(p, s, t, id, r, err).cache.entries| <= |s.cache.entries|
  {
    EndOwn(p, s, t, id);
    EndForm(p, s, t, id, r, err);
  }

  lemma EndForm(p: Params, s: System, t: nat, id: nat, r: CallResult, err: Option<GoError>)
    requires Shape(p, s) && t < |s.calls| && id < |s.ledger| && s.ledger[id] == Execution(t, None)
        && s.cache.heap[id] == FRESH
    ensures Shape(p, Ended(p, s, t, id, r, err)) && Grows(s, Ended(p, s, t, id, r, err))
    ensures Ended(p, s, t, id, r, err).cache.heap == s.cache.heap[id := Settled(p.settings.codec, r, err, s.now)]
    ensures |Ended(p, s, t, id, r, err).cache.entries| <= |s.cache.entries|
  {
    CompleteHeap(p.settings.codec, s.cache, p.keys[t], id, r, err, s.now);
    CompleteShrinks(p.settings.codec, s.cache, p.keys[t], id, r, err, s.now);
  }

  lemma EndEntry(p: Params, s: System, t: nat, id: nat, r: CallResult, err: Option<GoError>, j: nat)
    requires MayEnd(p, s, t, id) && j < |s.ledger| && Shape(p, Ended(p, s, t, id, r, err))
    ensures EntryOk(p, Ended(p, s, t, id, r, err), j)
  {
    var s' := Ended(p, s, t, id, r, err);
    EndShape(p, s, t, id, r, err);
    if j != id {
      assert EntryOk(p, s, j) && s.ledger[j].owner != t;
      EntryStable(p, s, s', j);
    }
  }

  lemma CompleteKeeps(p: Params, s: System, t: nat, id: nat, r: CallResult, err: Option<GoError>)
    requires MayEnd(p, s, t, id)
    ensures Inv(p, Ended(p, s, t, id, r, err))
  {
    var s' := Ended(p, s, t, id, r, err);
    EndShape(p, s, t, id, r, err);
    forall j | 0 <= j < |s.ledger| ensures EntryOk(p, s', j) { EndEntry(p, s, t, id, r, err, j); }
    forall k | k in s'.cache.entries ensures FiledOk(p, s', k) { EndFiled(p, s, t, id, r, err, k); }
    forall u | 0 <= u < |s.calls| ensures CallOk(p, s', u) { EndCall(p, s, t, id, r, err, u); }
  }

  lemma EndCall(p: Params, s: System, t: nat, id: nat, r: CallResult, err: Option<GoError>, u: nat)
    requires MayEnd(p, s, t, id) && Shape(p, Ended(p, s, t, id, r, err)) && u < |s.calls|
    ensures CallOk(p, Ended(p, s, t, id, r, err), u)
  {
    EndShape(p, s, t, id, r, err);
    assert CallOk(p, s, u);
    if u != t {
      CallStable(p, s, Ended(p, s, t, id, r, err), u);
    } else {
      assert forall j :: j in s.retried[t] ==> j != id;
    }
  }

  lemma FiledBefore(p: Params, s: System, t: nat, id: nat, r: CallResult, err: Option<GoError>, k: Key)
    requires MayEnd(p, s, t, id) && s.cache.heap[id] == FRESH && k in Ended(p, s, t, id, r, err).cache.entries
    requires p.keys[t] in s.cache.entries && s.cache.entries[p.keys[t]] == id && id < |s.cache.heap|
    ensures k in s.cache.entries && s.cache.entries[k] == Ended(p, s, t, id, r, err).cache.entries[k]
        && FiledOk(p, s, k)
    ensures s.cache.entries[k] == id ==> k == p.keys[t] && err.None? && p.settings.codec.encode(r).Some?
  {
    assert FiledOk(p, s, k) && FiledOk(p, s, p.keys[t]);
  }

  lemma EndFiled(p: Params, s: System, t: nat, id: nat, r: CallResult, err: Option<GoError>, k: Key)
    requires MayEnd(p, s, t, id) && Shape(p, Ended(p, s, t, id, r, err))
        && k in Ended(p, s, t, id, r, err).cache.entries
    ensures FiledOk(p, Ended(p, s, t, id, r, err), k)
  {
    EndShape(p, s, t, id, r, err);
    FiledBefore(p, s, t, id, r, err, k);
  }

  /** What waking up to, or finding, a settled entry yields. */
  lemma SettledReplays(p: Params, s: System, t: nat, id: nat, r: CallResult)
    requires Inv(p, s) && Sound(p) && t < |s.calls| && id < |s.ledger| && s.ledger[id].ended.Some?
    requires s.ledger[id].owner != t && p.keys[s.ledger[id].owner] == p.keys[t]
    requires p.settings.codec.decode(s.cache.heap[id].result) == Some(r)
    requires s.cache.heap[id].err.Some? ==> WaitedFor(s, id, t)
    ensures ReplayOf(p, s, t, id, Answer(r, s.cache.heap[id].err, true, Some(id)))
  {
    assert EntryOk(p, s, id);
  }

  /** A woken call that found nothing to copy goes round again, remembering the entry. */
  lemma RetryKeeps(p: Params, s: System, t: nat, id: nat)
    requires Inv(p, s) && t < |s.calls| && s.calls[t] == Waiting(id) && id < |s.ledger|
    requires s.ledger[id].ended.Some? && p.settings.codec.decode(s.cache.heap[id].result).None?
    ensures Inv(p, Retried(s, t, id))
  {
    var s' := Retried(s, t, id);
    assert Shape(p, s') && Grows(s, s');
    forall j | 0 <= j < |s.ledger| ensures EntryOk(p, s', j) {
      assert EntryOk(p, s, j) && s.ledger[j].owner != t;
      EntryStable(p, s, s', j);
    }
    forall k | k in s.cache.entries ensures FiledOk(p, s', k) { assert FiledOk(p, s, k); }
    forall u | 0 <= u < |s.calls| ensures CallOk(p, s', u) { RetryCall(p, s, t, id, u); }
  }

  function Retried(s: System, t: nat, id: nat): System
    requires t < |s.calls| && t < |s.retried|
  {
    s.(calls := s.calls[t := Entering], retried := s.retried[t := s.retried[t] + {id}])
  }

  lemma RetryCall(p: Params, s: System, t: nat, id: nat, u: nat)
    requires Inv(p, s) && t < |s.calls| && s.calls[t] == Waiting(id) && id < |s.ledger| && u < |s.calls|
    requires s.ledger[id].ended.Some? && p.settings.codec.decode(s.cache.heap[id].result).None?
    ensures Shape(p, Retried(s, t, id)) && CallOk(p, Retried(s, t, id), u)
  {
    assert CallOk(p, s, u);
    if u != t { CallStable(p, s, Retried(s, t, id), u); }
  }

  lemma WakeKeeps(p: Params, s: System, t: nat)
    requires Inv(p, s) && Sound(p) && Enabled(p, s, Wake(t))
    ensures Inv(p, Step(p, s, Wake(t)))
  {
    var id := s.calls[t].id;
    assert CallOk(p, s, t) && EntryOk(p, s, id);
    match p.settings.codec.decode(s.cache.heap[id].result)
    case Some(r) =>
      SettledReplays(p, s, t, id, r);
      MoveKeeps(p, s, t, Returned(Answer(r, s.cache.heap[id].err, true, Some(id))));
    case None => RetryKeeps(p, s, t, id);
  }

  /** A call that finds its key on file waits, or replays an entry that is settled without error. */
  lemma FoundKeeps(p: Params, s: System, t: nat)
    requires Inv(p, s) && Sound(p) && t < |s.calls| && s.calls[t].Entering? && p.keys[t] in s.cache.entries
    ensures var id := s.cache.entries[p.keys[t]];
            && (InFlight(s.cache, p.keys[t]) ==> Inv(p, s.(calls := s.calls[t := Waiting(id)])))
            && (!InFlight(s.cache, p.keys[t]) ==>
                  && p.settings.codec.decode(s.cache.heap[id].result).Some?
                  && s.cache.heap[id].err == None
                  && var copy := p.settings.codec.decode(s.cache.heap[id].result).value;
                     Inv(p, s.(calls := s.calls[t := Returned(Answer(copy, None, true, Some(id)))])))
  {
    var key := p.keys[t];
    var id := s.cache.entries[key];
    assert FiledOk(p, s, key) && EntryOk(p, s, id) && CallOk(p, s, t);
    if InFlight(s.cache, key) {
      MoveKeeps(p, s, t, Waiting(id));
    } else {
      var e := s.ledger[id].ended.value;
      assert s.cache.heap[id].result == p.settings.codec.encode(e.result).value;
      var r := p.settings.codec.decode(s.cache.heap[id].result).value;
      SettledReplays(p, s, t, id, r);
      MoveKeeps(p, s, t, Returned(Answer(r, None, true, Some(id))));
    }
  }

  /** The state after the expired entries have gone. */
  ghost function Swept(p: Params, s: System): System
    requires WellFormed(s.cache)
  {
    s.(cache := Unexpired(s.cache, s.now, p.settings.ttl))
  }

  lemma SweptKeeps(p: Params, s: System)
    requires Inv(p, s)
    ensures Inv(p, Swept(p, s))
  {
    PruneKeeps(p, s, Unexpired(s.cache, s.now, p.settings.ttl));
  }

  /** An eviction makes room for one registration. */
  lemma EvictKeeps(p: Params, s: System, t: nat, victim: Key)
    requires Inv(p, s) && t < |s.calls| && s.calls[t].Entering? && p.keys[t] !in s.cache.entries
    requires AnyCompleted(s.cache) && IsOldest(s.cache, victim)
    ensures Inv(p, Registered(p, s.(cache := Without(s.cache, victim)), t))
  {
    var less := Without(s.cache, victim);
    PruneKeeps(p, s, less);
    assert less.entries.Keys == s.cache.entries.Keys - {victim};
    assert |less.entries.Keys| == |less.entries| && |s.cache.entries.Keys| == |s.cache.entries|;
    RegisterKeeps(p, s.(cache := less), t);
  }

  /** The ways a call enters, from the swept state `mid`. */
  ghost predicate EntersTo(p: Params, mid: System, s': System, t: nat, victim: Key)
    requires Shape(p, mid) && t < |mid.calls|
  {
    var key := p.keys[t];
    if key in mid.cache.entries then
      var id := mid.cache.entries[key];
      var copy := p.settings.codec.decode(mid.cache.heap[id].result);
      s' == mid.(calls := mid.calls[t :=
              if InFlight(mid.cache, key) then Waiting(id)
              else if copy.Some? then Returned(Answer(copy.value, None, true, Some(id)))
              else Dropping])
    else if |mid.cache.entries| < p.settings.limit then s' == Registered(p, mid, t)
    else if AnyCompleted(mid.cache) && victim != "" then
      IsOldest(mid.cache, victim) && s' == Registered(p, mid.(cache := Without(mid.cache, victim)), t)
    else s' == mid.(calls := mid.calls[t := Executing(None)])
  }

  lemma EnterCases(p: Params, s: System, t: nat, victim: Key)
    requires Shape(p, s) && Enabled(p, s, Enter(t, victim))
    ensures Shape(p, Swept(p, s)) && EntersTo(p, Swept(p, s), Step(p, s, Enter(t, victim)), t, victim)
  {
  }

  lemma EnterKeeps(p: Params, s: System, t: nat, victim: Key)
    requires Inv(p, s) && Sound(p) && Enabled(p, s, Enter(t, victim))
    ensures Inv(p, Step(p, s, Enter(t, victim)))
  {
    EnterCases(p, s, t, victim);
    SweptKeeps(p, s);
    EnterKeepsFrom(p, Swept(p, s), Step(p, s, Enter(t, victim)), t, victim);
  }

  lemma EnterKeepsFrom(p: Params, mid: System, s': System, t: nat, victim: Key)
    requires Inv(p, mid) && Sound(p) && t < |mid.calls| && mid.calls[t].Entering?
    requires EntersTo(p, mid, s', t, victim)
    ensures Inv(p, s')
  {
    if p.keys[t] in mid.cache.entries {
      FoundKeeps(p, mid, t);
    } else if |mid.cache.entries| < p.settings.limit {
      RegisterKeeps(p, mid, t);
    } else if AnyCompleted(mid.cache) && victim != "" {
      EvictKeeps(p, mid, t, victim);
    } else {
      assert CallOk(p, mid, t);
      MoveKeeps(p, mid, t, Executing(None));
    }
  }

  /** The unlocked deletion path is never taken: what is filed can be replayed. */
  lemma NeverDropping(p: Params, s: System, t: nat)
    requires Inv(p, s) && t < |s.calls|
    ensures !s.calls[t].Dropping?
  {
    assert CallOk(p, s, t);
  }

  lemma FinishKeeps(p: Params, s: System, t: nat, r: CallResult, err: Option<GoError>)
    requires Inv(p, s) && Enabled(p, s, Finish(t, r, err))
    ensures Inv(p, Step(p, s, Finish(t, r, err)))
  {
    assert CallOk(p, s, t);
    if s.calls[t].slot.None? {
      MoveKeeps(p, s, t, Returned(Answer(r, err, false, None)));
    } else {
      CompleteKeeps(p, s, t, s.calls[t].slot.value, r, err);
    }
  }

  lemma StepKeepsInv(p: Params, s: System, l: Label)
    requires Inv(p, s) && Sound(p) && Enabled(p, s, l)
    ensures Inv(p, Step(p, s, l))
  {
    if l.DropEntry? {
      NeverDropping(p, s, l.t);
    }
    match l
    case Tick => TickKeeps(p, s);
    case Enter(t, victim) => EnterKeeps(p, s, t, victim);
    case DropEntry(t) =>
    case Finish(t, r, err) => FinishKeeps(p, s, t, r, err);
    case Wake(t) => WakeKeeps(p, s, t);
  }

  lemma {:induction false} InvAlways(p: Params, s: System, labels: seq<Label>)
    requires Inv(p, s) && Sound(p) && Schedule(p, s, labels)
    ensures Inv(p, After(p, s, labels))
    decreases |labels|
  {
    if labels != [] {
      StepKeepsInv(p, s, labels[0]);
      InvAlways(p, Step(p, s, labels[0]), labels[1..]);
    }
  }
}
