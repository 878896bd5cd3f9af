/**
 What the cache guarantees in every interleaving: single flight, faithful replays, and that
 a result is lost early only to a full cache.
 */
module CacheSafety {
  import opened Base
  import opened RequestCache
  import opened CacheProtocol

  predicate RunsRegistered(s: System, t: nat) {
    t < |s.calls| && s.calls[t].Executing? && s.calls[t].slot.Some?
  }

  /** Single flight, seen from outside the invariant. */
  ghost predicate SingleFlight(p: Params, s: System) {
    && |s.calls| == |p.keys| && WellFormed(s.cache)
    // no two registered executions under one key
    && (forall t, u :: 0 <= t < u < |s.calls| && RunsRegistered(s, t) && RunsRegistered(s, u) ==>
          p.keys[t] != p.keys[u])
    // an entry in flight has an owner, which is executing, and its channel is open
    && (forall k :: k in s.cache.entries && InFlight(s.cache, k) ==>
          && s.cache.heap[s.cache.entries[k]].closes == 0
          && exists t :: 0 <= t < |s.calls| && p.keys[t] == k && s.calls[t] == Executing(Some(s.cache.entries[k])))
    // every registered execution has its entry on file
    && (forall t :: 0 <= t < |s.calls| && s.calls[t].Executing? && s.calls[t].slot.Some? ==>
          p.keys[t] in s.cache.entries && s.cache.entries[p.keys[t]] == s.calls[t].slot.value)
    // a done channel is closed once, and exactly when the execution is over
    && (forall id :: 0 <= id < |s.cache.heap| ==>
          && s.cache.heap[id].closes <= 1
          && (s.cache.heap[id].closes == 0 <==> exists t :: 0 <= t < |s.calls| && s.calls[t] == Executing(Some(id))))
    // the limit
    && |s.cache.entries| <= p.settings.limit
  }

  lemma InvSingleFlight(p: Params, s: System)
    requires Inv(p, s)
    ensures SingleFlight(p, s)
  {
    forall t | 0 <= t < |s.calls| && s.calls[t].Executing? && s.calls[t].slot.Some?
      ensures var id := s.calls[t].slot.value;
              id < |s.ledger| && s.ledger[id].owner == t && p.keys[t] in s.cache.entries
                  && s.cache.entries[p.keys[t]] == id
    {
      assert CallOk(p, s, t) && EntryOk(p, s, s.calls[t].slot.value);
    }
    forall k | k in s.cache.entries && InFlight(s.cache, k)
      ensures s.cache.heap[s.cache.entries[k]].closes == 0
      ensures exists t :: 0 <= t < |s.calls| && p.keys[t] == k && s.calls[t] == Executing(Some(s.cache.entries[k]))
    {
      var id := s.cache.entries[k];
      assert FiledOk(p, s, k) && EntryOk(p, s, id);
      assert s.calls[s.ledger[id].owner] == Executing(Some(id));
    }
    forall id | 0 <= id < |s.cache.heap|
      ensures s.cache.heap[id].closes <= 1
      ensures s.cache.heap[id].closes == 0 <==> exists t :: 0 <= t < |s.calls| && s.calls[t] == Executing(Some(id))
    {
      assert EntryOk(p, s, id);
      if t :| 0 <= t < |s.calls| && s.calls[t] == Executing(Some(id)) { assert CallOk(p, s, t); }
    }
  }

  /** Single flight in every reachable state. */
  lemma SingleFlightAlways(p: Params, s: System, labels: seq<Label>)
    requires Initial(p, s) && Sound(p) && Schedule(p, s, labels)
    ensures SingleFlight(p, After(p, s, labels))
  {
    InitialInv(p, s);
    InvAlways(p, s, labels);
    InvSingleFlight(p, After(p, s, labels));
  }

  /** The part of the invariant that concerns the map alone. */
  ghost predicate MapOk(p: Params, s: System) {
    Shape(p, s) && "" !in s.cache.entries && |s.cache.entries| <= p.settings.limit
  }

  lemma InvMapOk(p: Params, s: System)
    requires Inv(p, s) && Sound(p)
    ensures MapOk(p, s)
  {
    assert forall k :: k in s.cache.entries ==> FiledOk(p, s, k);
  }

  /** An unregistered execution starts only while all `limit` slots are in flight. */
  lemma BypassOnlyWhenFull(p: Params, s: System, t: nat, victim: Key)
    requires MapOk(p, s) && Enabled(p, s, Enter(t, victim))
    requires Step(p, s, Enter(t, victim)).calls[t] == Executing(None)
    ensures var live := Step(p, s, Enter(t, victim)).cache;
            |live.entries| == p.settings.limit && forall k :: k in live.entries ==> InFlight(live, k)
  {
    var live := Unexpired(s.cache, s.now, p.settings.ttl);
    assert live.entries.Keys <= s.cache.entries.Keys;
    SubsetSize(live.entries.Keys, s.cache.entries.Keys);
    assert |live.entries| == |live.entries.Keys| && |s.cache.entries| == |s.cache.entries.Keys|;
  }

  /** In every run an unregistered execution starts only while all `limit` slots are in flight. */
  lemma BypassAlwaysFull(p: Params, s: System, labels: seq<Label>, t: nat, victim: Key)
    requires Initial(p, s) && Sound(p) && Schedule(p, s, labels)
    requires Enabled(p, After(p, s, labels), Enter(t, victim))
    requires Step(p, After(p, s, labels), Enter(t, victim)).calls[t] == Executing(None)
    ensures var live := Step(p, After(p, s, labels), Enter(t, victim)).cache;
            |live.entries| == p.settings.limit && forall k :: k in live.entries ==> InFlight(live, k)
  {
    InitialInv(p, s);
    InvAlways(p, s, labels);
    InvMapOk(p, After(p, s, labels));
    BypassOnlyWhenFull(p, After(p, s, labels), t, victim);
  }

  /**
   Replay fidelity in every reachable state: an answer flagged deduplicated is the decoded
   copy of the result, with the error, of one ended execution under the same key; and a Go
   error reached only calls that were waiting when it happened.
   */
  lemma ReplaysFaithful(p: Params, s: System, labels: seq<Label>, t: nat)
    requires Initial(p, s) && Sound(p) && Schedule(p, s, labels)
    requires t < |p.keys| == |After(p, s, labels).calls| && After(p, s, labels).calls[t].Returned?
    requires After(p, s, labels).calls[t].answer.deduplicated
    ensures var s', a := After(p, s, labels), After(p, s, labels).calls[t].answer;
            exists id :: 0 <= id < |s'.ledger| && a.source == Some(id) && Shape(p, s') && ReplayOf(p, s', t, id, a)
  {
    InitialInv(p, s);
    InvAlways(p, s, labels);
    var s' := After(p, s, labels);
    assert CallOk(p, s', t);
    assert ReplayOf(p, s', t, s'.calls[t].answer.source.value, s'.calls[t].answer);
  }

  /** Answered on entry: the entry found is younger than its time to live. */
  lemma FoundIsYoung(p: Params, s: System, t: nat, victim: Key)
    requires Shape(p, s) && Enabled(p, s, Enter(t, victim))
    requires Step(p, s, Enter(t, victim)).calls[t].Returned?
    ensures var key, a := p.keys[t], Step(p, s, Enter(t, victim)).calls[t].answer;
            && key in s.cache.entries && !InFlight(s.cache, key)
            && s.now - Stamp(s.cache, key) < p.settings.ttl
            && a.deduplicated && a.err == None && a.source == Some(s.cache.entries[key])
  {
  }

  /** And what is on file, completed, came from an execution without error, within the past. */
  lemma FiledIsErrorFree(p: Params, s: System, k: Key)
    requires Inv(p, s) && k in s.cache.entries && !InFlight(s.cache, k)
    ensures var id := s.cache.entries[k];
            && s.cache.heap[id].err == None && s.ledger[id].ended.Some?
            && s.ledger[id].ended.value.err == None && p.keys[s.ledger[id].owner] == k
            && Stamp(s.cache, k) == s.ledger[id].ended.value.at <= s.now
  {
    assert FiledOk(p, s, k) && EntryOk(p, s, s.cache.entries[k]);
  }

  /**
   In every run a call answered on entry is answered without error from an entry younger than
   the time to live, which an execution under the same key filed when it ended without error.
   */
  lemma FoundAlwaysYoung(p: Params, s: System, labels: seq<Label>, t: nat, victim: Key)
    requires Initial(p, s) && Sound(p) && Schedule(p, s, labels)
    requires Enabled(p, After(p, s, labels), Enter(t, victim))
    requires Step(p, After(p, s, labels), Enter(t, victim)).calls[t].Returned?
    ensures var e, a := After(p, s, labels), Step(p, After(p, s, labels), Enter(t, victim)).calls[t].answer;
            exists id :: 0 <= id < |e.ledger| && a.source == Some(id) && a.deduplicated && a.err == None
              && e.ledger[id].owner < |p.keys| && p.keys[e.ledger[id].owner] == p.keys[t]
              && e.ledger[id].ended.Some? && e.ledger[id].ended.value.err == None
              && e.ledger[id].ended.value.at <= e.now < e.ledger[id].ended.value.at + p.settings.ttl
  {
    InitialInv(p, s);
    InvAlways(p, s, labels);
    var e := After(p, s, labels);
    FoundIsYoung(p, e, t, victim);
    FiledIsErrorFree(p, e, p.keys[t]);
    assert e.ledger[e.cache.entries[p.keys[t]]].ended.Some?;
  }

  /** In every run no call ever deletes an entry outside its first locked region. */
  lemma NeverDroppingAlways(p: Params, s: System, labels: seq<Label>, l: Label)
    requires Initial(p, s) && Sound(p) && Schedule(p, s, labels) && Enabled(p, After(p, s, labels), l)
    ensures !l.DropEntry?
  {
    InitialInv(p, s);
    InvAlways(p, s, labels);
    if l.DropEntry? {
      NeverDropping(p, After(p, s, labels), l.t);
    }
  }

  // ---------------------------------------------------------------- early loss

  /**
   A step may cost a completed entry its place: it has expired, or the cache is full, another
   key enters, and every other entry is in flight or was completed no earlier.
   */
  ghost predicate MayLose(p: Params, s: System, l: Label, k: Key)
    requires WellFormed(s.cache)
  {
    && l.Enter? && l.t < |p.keys| && k in s.cache.entries
    && (Expired(s.cache, k, s.now, p.settings.ttl) ||
        var live := Unexpired(s.cache, s.now, p.settings.ttl);
        && |live.entries| == p.settings.limit && p.keys[l.t] !in live.entries
        && forall j :: j in live.entries && j != k ==> InFlight(live, j) || Stamp(live, k) <= Stamp(live, j))
  }

  /** The completed entry `id` is on file under `k`. */
  ghost predicate Filed(s: System, k: Key, id: nat) {
    && WellFormed(s.cache) && k in s.cache.entries && s.cache.entries[k] == id
    && !InFlight(s.cache, k)
  }

  lemma FinishLosesNothing(p: Params, s: System, t: nat, r: CallResult, err: Option<GoError>, k: Key, id: nat)
    requires Inv(p, s) && Enabled(p, s, Finish(t, r, err)) && Filed(s, k, id)
    ensures Filed(Step(p, s, Finish(t, r, err)), k, id)
  {
    assert CallOk(p, s, t);
    if s.calls[t].slot.Some? {
      EndOwn(p, s, t, s.calls[t].slot.value);
      CompleteLosesNothing(p.settings.codec, s.cache, p.keys[t], s.calls[t].slot.value, r, err, s.now, k);
    }
  }

  /** The region that ends an execution leaves what is filed completed. */
  lemma CompleteLosesNothing(codec: Codec, c: Cache, key: Key, id: nat, r: CallResult, err: Option<GoError>,
      now: Time, k: Key)
    requires WellFormed(c) && id < |c.heap| && c.heap[id] == FRESH && key in c.entries && c.entries[key] == id
    requires k in c.entries && !InFlight(c, k)
    ensures var c' := CompleteRegion(codec, c, key, id, r, err, now);
            WellFormed(c') && k in c'.entries && c'.entries[k] == c.entries[k] && !InFlight(c', k)
  {
  }

  lemma StepLoses(p: Params, s: System, l: Label, k: Key, id: nat)
    requires Inv(p, s) && Sound(p) && Enabled(p, s, l) && Filed(s, k, id)
    ensures Filed(Step(p, s, l), k, id) || MayLose(p, s, l, k)
  {
    match l
    case Tick =>
    case Enter(t, victim) =>
      LiveFits(p, s);
      EnterLoses(p, s, t, victim, k, id);
    case DropEntry(t) => NeverDropping(p, s, t);
    case Finish(t, r, err) => FinishLosesNothing(p, s, t, r, err, k, id);
    case Wake(t) =>
  }

  lemma LiveFits(p: Params, s: System)
    requires Inv(p, s)
    ensures |Unexpired(s.cache, s.now, p.settings.ttl).entries| <= p.settings.limit
  {
    SweptKeeps(p, s);
  }

  lemma EnterCache(p: Params, s: System, t: nat, victim: Key)
    requires Enabled(p, s, Enter(t, victim))
    ensures Step(p, s, Enter(t, victim)).cache == EnterRegion(p.settings, s.cache, p.keys[t], s.now, victim).0
  {
  }

  lemma EnterLoses(p: Params, s: System, t: nat, victim: Key, k: Key, id: nat)
    requires Enabled(p, s, Enter(t, victim)) && Filed(s, k, id)
    requires |Unexpired(s.cache, s.now, p.settings.ttl).entries| <= p.settings.limit
    ensures Filed(Step(p, s, Enter(t, victim)), k, id) || MayLose(p, s, Enter(t, victim), k)
  {
    if !Expired(s.cache, k, s.now, p.settings.ttl) {
      EnterCache(p, s, t, victim);
      RegionLoses(p.settings, s.cache, p.keys[t], s.now, victim, k);
    }
  }

  /** The region that begins a call drops an entry that has not expired only as an oldest one, from a full cache. */
  lemma RegionLoses(st: Settings, c: Cache, key: Key, now: Time, victim: Key, k: Key)
    requires WellFormed(c) && VictimOk(st, c, key, now, victim) && k in c.entries && !InFlight(c, k)
        && !Expired(c, k, now, st.ttl)
    ensures var live, c' := Unexpired(c, now, st.ttl), EnterRegion(st, c, key, now, victim).0;
            || (WellFormed(c') && k in c'.entries && c'.entries[k] == c.entries[k] && !InFlight(c', k))
            || (key !in live.entries && |live.entries| >= st.limit
                && forall j :: j in live.entries && j != k ==> InFlight(live, j) || Stamp(live, k) <= Stamp(live, j))
  {
  }

  /** Somewhere along the run a step was allowed to lose the entry under `k`. */
  ghost predicate LostAlong(p: Params, s: System, labels: seq<Label>, k: Key)
    requires Schedule(p, s, labels) && Inv(p, s) && Sound(p)
    decreases |labels|
  {
    labels != [] &&
    (MayLose(p, s, labels[0], k)
        || (StepKeepsInv(p, s, labels[0]); LostAlong(p, Step(p, s, labels[0]), labels[1..], k)))
  }

  /** Over whole runs a completed result leaves only by expiry or by full-cache, oldest-first eviction. */
  lemma {:induction false} EarlyLossOnlyWhenFull(p: Params, s: System, labels: seq<Label>, k: Key, id: nat)
    requires Inv(p, s) && Sound(p) && Schedule(p, s, labels) && Filed(s, k, id)
    ensures Filed(After(p, s, labels), k, id) || LostAlong(p, s, labels, k)
    decreases |labels|
  {
    if labels != [] {
      StepKeepsInv(p, s, labels[0]);
      StepLoses(p, s, labels[0], k, id);
      if Filed(Step(p, s, labels[0]), k, id) {
        EarlyLossOnlyWhenFull(p, Step(p, s, labels[0]), labels[1..], k, id);
      }
    }
  }

  /** Exactly when the region that begins a call drops a completed entry. */
  lemma RegionDropsIff(st: Settings, c: Cache, key: Key, now: Time, victim: Key, k: Key)
    requires WellFormed(c) && VictimOk(st, c, key, now, victim) && k in c.entries && !InFlight(c, k)
    ensures var c' := EnterRegion(st, c, key, now, victim).0;
            && WellFormed(c')
            && (Drops(st, c, key, now, victim, k) <==> !(k in c'.entries && c'.entries[k] == c.entries[k]))
            && (k in c'.entries && c'.entries[k] == c.entries[k] ==> !InFlight(c', k))
  {
  }

  /** Exactly when a step of the protocol does. */
  lemma FiledIff(p: Params, s: System, l: Label, k: Key, id: nat)
    requires Inv(p, s) && Sound(p) && Enabled(p, s, l) && Filed(s, k, id)
    ensures Filed(Step(p, s, l), k, id) <==>
              !(l.Enter? && Drops(p.settings, s.cache, p.keys[l.t], s.now, l.victim, k))
  {
    match l
    case Tick =>
    case Enter(t, victim) =>
      EnterCache(p, s, t, victim);
      RegionDropsIff(p.settings, s.cache, p.keys[t], s.now, victim, k);
    case DropEntry(t) => NeverDropping(p, s, t);
    case Finish(t, r, err) => FinishLosesNothing(p, s, t, r, err, k, id);
    case Wake(t) =>
  }

  /** Exactly when a call that enters runs its handler: when no unexpired entry is under its key. */
  lemma ActsIff(p: Params, s: System, t: nat, victim: Key)
    requires Inv(p, s) && Sound(p) && Enabled(p, s, Enter(t, victim))
    ensures var calls := Step(p, s, Enter(t, victim)).calls;
            && t < |calls|
            && (calls[t].Executing? <==> p.keys[t] !in Unexpired(s.cache, s.now, p.settings.ttl).entries)
  {
    EnterCases(p, s, t, victim);
    assert Inv(p, Swept(p, s)) by { SweptKeeps(p, s); }
    if p.keys[t] in Swept(p, s).cache.entries {
      FoundKeeps(p, Swept(p, s), t);
    }
  }

  /** Until then every call under that key is answered from it. */
  lemma FiledIsReplayed(p: Params, s: System, t: nat, victim: Key, id: nat)
    requires Inv(p, s) && Sound(p) && Enabled(p, s, Enter(t, victim)) && Filed(s, p.keys[t], id)
    requires !Expired(s.cache, p.keys[t], s.now, p.settings.ttl)
    ensures var calls := Step(p, s, Enter(t, victim)).calls;
            t < |calls| && calls[t].Returned? && calls[t].answer.deduplicated && calls[t].answer.source == Some(id)
  {
    EnterCases(p, s, t, victim);
    SweptKeeps(p, s);
    FoundKeeps(p, Swept(p, s), t);
  }

  // ---------------------------------------------------------------- over whole runs, exactly

  /** The entry `id` is not under `k`. */
  predicate Gone(s: System, k: Key, id: nat) {
    !(k in s.cache.entries && s.cache.entries[k] == id)
  }

  /** What the two regions leave under a key was there before or is new. */
  lemma EnterFilesNew(st: Settings, c: Cache, key: Key, now: Time, victim: Key, k: Key)
    requires WellFormed(c)
    ensures var c' := EnterRegion(st, c, key, now, victim).0;
            && |c'.heap| >= |c.heap|
            && (k in c'.entries ==> (k in c.entries && c'.entries[k] == c.entries[k]) || c'.entries[k] == |c.heap|)
  {
  }

  lemma FinishFilesNothing(p: Params, s: System, t: nat, r: CallResult, err: Option<GoError>, k: Key)
    requires Inv(p, s) && Enabled(p, s, Finish(t, r, err))
    ensures var c, c' := s.cache, Step(p, s, Finish(t, r, err)).cache;
            |c'.heap| == |c.heap| && (k in c'.entries ==> k in c.entries && c'.entries[k] == c.entries[k])
  {
    assert CallOk(p, s, t);
  }

  /** An entry that has left its key never comes back: what a step files is new. */
  lemma GoneStays(p: Params, s: System, l: Label, k: Key, id: nat)
    requires Inv(p, s) && Enabled(p, s, l) && id < |s.cache.heap| && Gone(s, k, id)
    ensures id < |Step(p, s, l).cache.heap| && Gone(Step(p, s, l), k, id)
  {
    match l
    case Tick =>
    case Enter(t, victim) =>
      EnterCache(p, s, t, victim);
      EnterFilesNew(p.settings, s.cache, p.keys[t], s.now, victim, k);
    case DropEntry(t) =>
    case Finish(t, r, err) => FinishFilesNothing(p, s, t, r, err, k);
    case Wake(t) =>
  }

  lemma {:induction false} GoneForever(p: Params, s: System, labels: seq<Label>, k: Key, id: nat)
    requires Inv(p, s) && Sound(p) && Schedule(p, s, labels) && id < |s.cache.heap| && Gone(s, k, id)
    ensures Gone(After(p, s, labels), k, id)
    decreases |labels|
  {
    if labels != [] {
      GoneStays(p, s, labels[0], k, id);
      StepKeepsInv(p, s, labels[0]);
      GoneForever(p, Step(p, s, labels[0]), labels[1..], k, id);
    }
  }

  /** Some step of the run drops the completed entry that it finds under `k`. */
  ghost predicate DroppedAlong(p: Params, s: System, labels: seq<Label>, k: Key)
    requires Inv(p, s) && Sound(p) && Schedule(p, s, labels)
    decreases |labels|
  {
    labels != [] &&
    (StepDrops(p, s, labels[0], k)
        || (StepKeepsInv(p, s, labels[0]); DroppedAlong(p, Step(p, s, labels[0]), labels[1..], k)))
  }

  ghost predicate StepDrops(p: Params, s: System, l: Label, k: Key)
    requires Inv(p, s) && Enabled(p, s, l)
  {
    l.Enter? && Drops(p.settings, s.cache, p.keys[l.t], s.now, l.victim, k)
  }

  /** Exactly when a completed entry is still on file after a run. */
  lemma {:induction false} StaysFiledIff(p: Params, s: System, labels: seq<Label>, k: Key, id: nat)
    requires Inv(p, s) && Sound(p) && Schedule(p, s, labels) && Filed(s, k, id)
    ensures Filed(After(p, s, labels), k, id) <==> !DroppedAlong(p, s, labels, k)
    decreases |labels|
  {
    if labels != [] {
      var s' := Step(p, s, labels[0]);
      StepKeepsInv(p, s, labels[0]);
      FiledIff(p, s, labels[0], k, id);
      if StepDrops(p, s, labels[0], k) {
        StepDropsGone(p, s, labels[0], k, id);
        GoneForever(p, s', labels[1..], k, id);
      } else {
        StaysFiledIff(p, s', labels[1..], k, id);
      }
    }
  }

  lemma StepDropsGone(p: Params, s: System, l: Label, k: Key, id: nat)
    requires Inv(p, s) && Sound(p) && Enabled(p, s, l) && Filed(s, k, id) && StepDrops(p, s, l, k)
    ensures id < |Step(p, s, l).cache.heap| && Gone(Step(p, s, l), k, id)
  {
    EnterCache(p, s, l.t, l.victim);
    RegionDropsIff(p.settings, s.cache, p.keys[l.t], s.now, l.victim, k);
  }

  lemma ReplaysFiled(st: Settings, c: Cache, key: Key, now: Time, victim: Key)
    requires WellFormed(c)
    ensures var next := EnterRegion(st, c, key, now, victim).1;
            next.Replay? ==>
              key in c.entries && c.entries[key] == next.id && !InFlight(c, key) && !Expired(c, key, now, st.ttl)
  {
  }

  /** The call has been answered with the copy of an entry. */
  predicate AnsweredFrom(s: System, t: nat, id: nat) {
    t < |s.calls| && s.calls[t].Returned? && s.calls[t].answer.source == Some(id)
  }

  lemma AnswerOnEntry(p: Params, s: System, t: nat, victim: Key)
    requires Enabled(p, s, Enter(t, victim)) && t < |s.calls|
    ensures var next, calls := EnterRegion(p.settings, s.cache, p.keys[t], s.now, victim).1,
                Step(p, s, Enter(t, victim)).calls;
            t < |calls| && (calls[t].Returned? ==> next.Replay? && calls[t].answer.source == Some(next.id))
  {
  }

  /** A call that enters is answered from an entry exactly when that is on file under its key, unexpired. */
  lemma AnsweredIff(p: Params, s: System, t: nat, victim: Key, id: nat)
    requires Inv(p, s) && Sound(p) && Enabled(p, s, Enter(t, victim))
    ensures AnsweredFrom(Step(p, s, Enter(t, victim)), t, id) <==>
              Filed(s, p.keys[t], id) && !Expired(s.cache, p.keys[t], s.now, p.settings.ttl)
  {
    if Filed(s, p.keys[t], id) && !Expired(s.cache, p.keys[t], s.now, p.settings.ttl) {
      FiledIsReplayed(p, s, t, victim, id);
    }
    AnswerOnEntry(p, s, t, victim);
    ReplaysFiled(p.settings, s.cache, p.keys[t], s.now, victim);
  }

  /** For the call itself: its own step drops the entry exactly when that has expired. */
  lemma AnsweredNow(p: Params, s: System, t: nat, victim: Key, id: nat)
    requires Inv(p, s) && Sound(p) && Enabled(p, s, Enter(t, victim)) && Filed(s, p.keys[t], id)
    ensures AnsweredFrom(Step(p, s, Enter(t, victim)), t, id) <==> !StepDrops(p, s, Enter(t, victim), p.keys[t])
  {
    AnsweredIff(p, s, t, victim, id);
  }

  /**
   A retry, however late, is answered from the completed entry of its key if and only if no
   step since then has dropped that, its own included.
   */
  lemma RetryAnsweredIff(p: Params, s: System, labels: seq<Label>, t: nat, victim: Key, id: nat)
    requires Inv(p, s) && Sound(p) && Schedule(p, s, labels) && t < |p.keys| && Filed(s, p.keys[t], id)
    requires Enabled(p, After(p, s, labels), Enter(t, victim))
    ensures Inv(p, After(p, s, labels))
    ensures var e := After(p, s, labels);
            AnsweredFrom(Step(p, e, Enter(t, victim)), t, id) <==>
              !DroppedAlong(p, s, labels, p.keys[t]) && !StepDrops(p, e, Enter(t, victim), p.keys[t])
  {
    InvAlways(p, s, labels);
    StaysFiledIff(p, s, labels, p.keys[t], id);
    if Filed(After(p, s, labels), p.keys[t], id) {
      AnsweredNow(p, After(p, s, labels), t, victim, id);
    } else {
      AnsweredIff(p, After(p, s, labels), t, victim, id);
    }
  }
}
