/**
 Exactly once under concurrency: the cache protocol joined with handlers that change a store
 in any number of atomic steps each, interleaved with one another.  Runs have any length;
 entries expire and are evicted on the way.  What is proved about one class of calls, those
 under one key, supposes only that the class does not lose its entry while a call of it has
 still to enter or waits.
 */
module ConcurrentOnce {
  import opened Base
  import opened RequestCache
  import opened CacheProtocol
  import opened CacheSafety
  import D = Deduplicate

  datatype Done = Done(result: CallResult, err: Option<GoError>)

  /** What one step of a handler makes of the store, and whether the handler has then returned. */
  datatype StepResult<S> = StepResult(store: S, ended: Option<Done>)

  /**
   `step(store, t, a)` is one step of the handler of call `t`, where it is possible; `direct`
   calls bypass the cache.
   */
  datatype Setup<!S, !A> =
    Setup(params: Params, direct: set<nat>, step: (S, nat, A) -> Option<StepResult<S>>, initial: S)

  datatype Work<A> = Work(t: nat, action: A)

  /** The protocol, the store, every handler step so far, and what the handlers that have ended returned. */
  datatype Joint<S, A> = Joint(sys: System, store: S, trace: seq<Work<A>>, outcome: map<nat, Done>)

  datatype Act<A> = Protocol(l: Label) | Handler(w: Work<A>)

  ghost predicate Possible<S, A>(c: Setup<S, A>, s: Joint<S, A>, a: Act<A>) {
    match a
    case Protocol(l) =>
      Enabled(c.params, s.sys, l) && (l.Finish? ==> l.t in s.outcome && s.outcome[l.t] == Done(l.result, l.err))
    case Handler(w) =>
      w.t < |s.sys.calls| && s.sys.calls[w.t].Executing? && w.t !in s.outcome && c.step(s.store, w.t, w.action).Some?
  }

  ghost function Next<S, A>(c: Setup<S, A>, s: Joint<S, A>, a: Act<A>): Joint<S, A>
    requires Possible(c, s, a)
  {
    match a
    case Protocol(l) => s.(sys := Step(c.params, s.sys, l))
    case Handler(w) =>
      var made := c.step(s.store, w.t, w.action).value;
      Joint(s.sys, made.store, s.trace + [w],
            if made.ended.Some? then s.outcome[w.t := made.ended.value] else s.outcome)
  }

  ghost predicate Course<S, A>(c: Setup<S, A>, s: Joint<S, A>, acts: seq<Act<A>>)
    decreases |acts|
  {
    acts == [] || (Possible(c, s, acts[0]) && Course(c, Next(c, s, acts[0]), acts[1..]))
  }

  ghost function End<S, A>(c: Setup<S, A>, s: Joint<S, A>, acts: seq<Act<A>>): Joint<S, A>
    requires Course(c, s, acts)
    decreases |acts|
  {
    if acts == [] then s else End(c, Next(c, s, acts[0]), acts[1..])
  }

  /** Direct calls run, the others are about to enter an empty cache; no handler has done anything. */
  ghost predicate Begin<S, A>(c: Setup<S, A>, s: Joint<S, A>) {
    && Initial(c.params, s.sys)
    && (forall t :: 0 <= t < |s.sys.calls| ==> s.sys.calls[t] == if t in c.direct then Executing(None) else Entering)
    && s.store == c.initial && s.trace == [] && s.outcome == map[]
  }

  // ---------------------------------------------------------------- the store, in every run

  /** Running handler steps without any cache: the store, and what the handlers that ended returned. */
  function Replayed<S, A>(c: Setup<S, A>, trace: seq<Work<A>>): Option<(S, map<nat, Done>)> {
    if trace == [] then Some((c.initial, map[]))
    else
      var w := trace[|trace| - 1];
      match Replayed(c, trace[..|trace| - 1])
      case None => None
      case Some((store, outcome)) =>
        if w.t in outcome then None
        else match c.step(store, w.t, w.action)
          case None => None
          case Some(made) =>
            Some((made.store, if made.ended.Some? then outcome[w.t := made.ended.value] else outcome))
  }

  /** A trace that can be replayed ends in a possible step from where the rest leads. */
  lemma ReplayedLast<S, A>(c: Setup<S, A>, trace: seq<Work<A>>)
    requires trace != [] && Replayed(c, trace).Some?
    ensures var w := trace[|trace| - 1];
            && Replayed(c, trace[..|trace| - 1]).Some?
            && var before, after := Replayed(c, trace[..|trace| - 1]).value, Replayed(c, trace).value;
               && w.t !in before.1 && c.step(before.0, w.t, w.action).Some?
               && var made := c.step(before.0, w.t, w.action).value;
                  && after.0 == made.store
                  && after.1 == if made.ended.Some? then before.1[w.t := made.ended.value] else before.1
  {
  }

  /** The joint state is what its own handler steps make of the initial store. */
  ghost predicate StoreInv<S, A>(c: Setup<S, A>, s: Joint<S, A>) {
    Replayed(c, s.trace) == Some((s.store, s.outcome))
  }

  lemma NextStore<S, A>(c: Setup<S, A>, s: Joint<S, A>, a: Act<A>)
    requires StoreInv(c, s) && Possible(c, s, a)
    ensures StoreInv(c, Next(c, s, a))
  {
    if a.Handler? {
      assert (s.trace + [a.w])[..|s.trace|] == s.trace;
    }
  }

  lemma {:induction false} StoreFrom<S, A>(c: Setup<S, A>, s: Joint<S, A>, acts: seq<Act<A>>)
    requires StoreInv(c, s) && Course(c, s, acts)
    ensures StoreInv(c, End(c, s, acts))
    decreases |acts|
  {
    if acts != [] {
      NextStore(c, s, acts[0]);
      StoreFrom(c, Next(c, s, acts[0]), acts[1..]);
    }
  }

  /** In every run whatsoever the store is what the handler steps alone make of it. */
  lemma StoreAlways<S, A>(c: Setup<S, A>, s: Joint<S, A>, acts: seq<Act<A>>)
    requires Begin(c, s) && Course(c, s, acts)
    ensures StoreInv(c, End(c, s, acts))
  {
    StoreFrom(c, s, acts);
  }

  // ---------------------------------------------------------------- ledger and handlers agree

  /** Call `t` has taken a step. */
  ghost predicate Began<A>(trace: seq<Work<A>>, t: nat) {
    exists i :: 0 <= i < |trace| && trace[i].t == t
  }

  lemma BeganLonger<A>(trace: seq<Work<A>>, w: Work<A>, t: nat)
    requires Began(trace, t) || w.t == t
    ensures Began(trace + [w], t)
  {
    if Began(trace, t) {
      var i :| 0 <= i < |trace| && trace[i].t == t;
      assert (trace + [w])[i] == trace[i];
    } else {
      assert (trace + [w])[|trace|] == w;
    }
  }

  /** An execution that has ended ended with what its handler returned. */
  predicate Agrees(sys: System, outcome: map<nat, Done>, id: nat)
    requires id < |sys.ledger|
  {
    var x := sys.ledger[id];
    x.ended.Some? ==> x.owner in outcome && outcome[x.owner] == Done(x.ended.value.result, x.ended.value.err)
  }

  /** A call that owns an execution. */
  ghost predicate Owns(sys: System, t: nat) {
    exists id :: 0 <= id < |sys.ledger| && sys.ledger[id].owner == t
  }

  /** The call runs, or has answered for itself. */
  predicate Acted(sys: System, t: nat) {
    t < |sys.calls| && (sys.calls[t].Executing? || (sys.calls[t].Returned? && !sys.calls[t].answer.deduplicated))
  }

  /**
   A call that has answered for itself answered with what its handler returned, or with a copy if
   it was registered.
  */
  ghost predicate AnswerOk<S, A>(s: Joint<S, A>, t: nat)
    requires t < |s.sys.calls|
  {
    s.sys.calls[t].Returned? && !s.sys.calls[t].answer.deduplicated ==>
      && t in s.outcome && s.sys.calls[t].answer.err == s.outcome[t].err
      && (Owns(s.sys, t) || s.sys.calls[t].answer.result == s.outcome[t].result)
  }

  ghost predicate JointInv<S, A>(c: Setup<S, A>, s: Joint<S, A>) {
    && Inv(c.params, s.sys)
    && (forall id :: 0 <= id < |s.sys.ledger| ==> Agrees(s.sys, s.outcome, id))
    && (forall i :: 0 <= i < |s.trace| ==> Acted(s.sys, s.trace[i].t))
    && (forall t :: t in s.outcome ==> Began(s.trace, t))
    && (forall t :: 0 <= t < |s.sys.calls| ==> AnswerOk(s, t))
    && DirectApart(c.direct, s.sys)
  }

  /** Direct calls run from the start and never own an execution. */
  ghost predicate DirectApart(direct: set<nat>, sys: System) {
    && (forall t :: 0 <= t < |sys.calls| && t in direct ==> Acted(sys, t))
    && (forall id :: 0 <= id < |sys.ledger| ==> sys.ledger[id].owner !in direct)
  }

  /** The ledger keeps its owners, and grows at its end. */
  lemma StepLedger(p: Params, sys: System, l: Label, id: nat)
    requires Inv(p, sys) && Enabled(p, sys, l) && id < |sys.ledger|
    ensures id < |Step(p, sys, l).ledger| && Step(p, sys, l).ledger[id].owner == sys.ledger[id].owner
    ensures Step(p, sys, l).ledger[id] == sys.ledger[id]
            || (l.Finish? && sys.ledger[id].owner == l.t
                && exists e :: Step(p, sys, l).ledger[id].ended == Some(e) && e.result == l.result && e.err == l.err)
  {
    if l.Enter? {
      EnterCases(p, sys, l.t, l.victim);
    }
    if l.Finish? {
      assert CallOk(p, sys, l.t);
    }
  }

  lemma StepNewEntry(p: Params, sys: System, l: Label, id: nat)
    requires Inv(p, sys) && Enabled(p, sys, l) && |sys.ledger| <= id < |Step(p, sys, l).ledger|
    ensures id == |sys.ledger| && l.Enter? && Step(p, sys, l).ledger[id] == Execution(l.t, None)
    ensures p.keys[l.t] !in Unexpired(sys.cache, sys.now, p.settings.ttl).entries
  {
    if l.Enter? {
      EnterCases(p, sys, l.t, l.victim);
    }
  }

  lemma StepOwns(p: Params, sys: System, l: Label, t: nat)
    requires Inv(p, sys) && Enabled(p, sys, l) && Owns(sys, t)
    ensures Owns(Step(p, sys, l), t)
  {
    var id :| 0 <= id < |sys.ledger| && sys.ledger[id].owner == t;
    StepLedger(p, sys, l, id);
  }

  /** How a step moves any one call. */
  lemma StepCall(p: Params, sys: System, l: Label, t: nat)
    requires Inv(p, sys) && Sound(p) && Enabled(p, sys, l) && t < |sys.calls|
    ensures |Step(p, sys, l).calls| == |sys.calls|
    ensures var c, c' := sys.calls[t], Step(p, sys, l).calls[t];
            || c' == c
            || (l.Enter? && l.t == t && c.Entering?
                && (c'.Waiting? || c'.Executing? || (c'.Returned? && c'.answer.deduplicated)))
            || (l.Wake? && l.t == t && c.Waiting? && (c'.Entering? || (c'.Returned? && c'.answer.deduplicated)))
            || (l.Finish? && l.t == t && c.Executing? && c'.Returned? && !c'.answer.deduplicated
                && c'.answer.err == l.err
                && (c.slot.None? ==> c'.answer.result == l.result))
  {
    if l.Enter? {
      EnterCases(p, sys, l.t, l.victim);
      assert Inv(p, Step(p, sys, l)) by { EnterKeeps(p, sys, l.t, l.victim); }
      if l.t == t { NeverDropping(p, Step(p, sys, l), t); }
    }
    if l.DropEntry? {
      NeverDropping(p, sys, l.t);
    }
  }

  lemma ProtocolAgrees<S, A>(c: Setup<S, A>, s: Joint<S, A>, l: Label, id: nat)
    requires JointInv(c, s) && Possible(c, s, Protocol(l)) && id < |Step(c.params, s.sys, l).ledger|
    ensures Agrees(Step(c.params, s.sys, l), s.outcome, id)
  {
    if id < |s.sys.ledger| {
      assert Agrees(s.sys, s.outcome, id);
      StepLedger(c.params, s.sys, l, id);
    } else {
      StepNewEntry(c.params, s.sys, l, id);
    }
  }

  lemma ProtocolAnswer<S, A>(c: Setup<S, A>, s: Joint<S, A>, l: Label, t: nat)
    requires JointInv(c, s) && Sound(c.params) && Possible(c, s, Protocol(l)) && t < |s.sys.calls|
    requires t < |Step(c.params, s.sys, l).calls|
    ensures AnswerOk(Next(c, s, Protocol(l)), t)
  {
    var p, sys := c.params, s.sys;
    StepCall(p, sys, l, t);
    assert AnswerOk(s, t);
    if sys.calls[t].Executing? && sys.calls[t].slot.Some? {
      assert CallOk(p, sys, t);
      assert sys.ledger[sys.calls[t].slot.value].owner == t;
    }
    if Owns(sys, t) { StepOwns(p, sys, l, t); }
  }

  lemma ProtocolKeeps<S, A>(c: Setup<S, A>, s: Joint<S, A>, l: Label)
    requires JointInv(c, s) && Sound(c.params) && Possible(c, s, Protocol(l))
    ensures JointInv(c, Next(c, s, Protocol(l)))
  {
    var s' := Next(c, s, Protocol(l));
    StepKeepsInv(c.params, s.sys, l);
    forall id | 0 <= id < |s'.sys.ledger| ensures Agrees(s'.sys, s'.outcome, id) { ProtocolAgrees(c, s, l, id); }
    forall i | 0 <= i < |s.trace| ensures Acted(s'.sys, s.trace[i].t) {
      assert Acted(s.sys, s.trace[i].t);
      StepCall(c.params, s.sys, l, s.trace[i].t);
    }
    forall t | 0 <= t < |s'.sys.calls| ensures AnswerOk(s', t) { ProtocolAnswer(c, s, l, t); }
    DirectStays(c.params, c.direct, s.sys, l);
  }

  lemma DirectStays(p: Params, direct: set<nat>, sys: System, l: Label)
    requires Inv(p, sys) && Sound(p) && Enabled(p, sys, l) && DirectApart(direct, sys)
    ensures DirectApart(direct, Step(p, sys, l))
  {
    var sys' := Step(p, sys, l);
    StepCalls(p, sys, l);
    forall t | 0 <= t < |sys'.calls| && t in direct ensures Acted(sys', t) {
      assert Acted(sys, t);
      StepCall(p, sys, l, t);
    }
    forall id | 0 <= id < |sys'.ledger| ensures sys'.ledger[id].owner !in direct {
      if id < |sys.ledger| { StepLedger(p, sys, l, id); } else { StepNewEntry(p, sys, l, id); }
    }
  }

  lemma HandlerKeeps<S, A>(c: Setup<S, A>, s: Joint<S, A>, w: Work<A>)
    requires JointInv(c, s) && Possible(c, s, Handler(w))
    ensures JointInv(c, Next(c, s, Handler(w)))
  {
    var s' := Next(c, s, Handler(w));
    assert CallOk(c.params, s.sys, w.t);
    forall id | 0 <= id < |s.sys.ledger| ensures Agrees(s'.sys, s'.outcome, id) { assert Agrees(s.sys, s.outcome, id); }
    forall t | t in s'.outcome ensures Began(s'.trace, t) { BeganLonger(s.trace, w, t); }
    forall t | 0 <= t < |s'.sys.calls| ensures AnswerOk(s', t) { assert AnswerOk(s, t); }
  }

  lemma NextKeeps<S, A>(c: Setup<S, A>, s: Joint<S, A>, a: Act<A>)
    requires JointInv(c, s) && Sound(c.params) && Possible(c, s, a)
    ensures JointInv(c, Next(c, s, a))
  {
    match a
    case Protocol(l) => ProtocolKeeps(c, s, l);
    case Handler(w) => HandlerKeeps(c, s, w);
  }

  lemma {:induction false} JointAlways<S, A>(c: Setup<S, A>, s: Joint<S, A>, acts: seq<Act<A>>)
    requires JointInv(c, s) && Sound(c.params) && Course(c, s, acts)
    ensures JointInv(c, End(c, s, acts))
    decreases |acts|
  {
    if acts != [] {
      NextKeeps(c, s, acts[0]);
      JointAlways(c, Next(c, s, acts[0]), acts[1..]);
    }
  }

  lemma BeginInv<S, A>(c: Setup<S, A>, s: Joint<S, A>)
    requires Begin(c, s)
    ensures JointInv(c, s)
  {
    InitialInv(c.params, s.sys);
  }

  /** The answer of call `t` is what the handler of `u`, under the same key, returned, or the copy of it. */
  ghost predicate AnsweredBy<S, A>(c: Setup<S, A>, s: Joint<S, A>, t: nat, u: nat) {
    && t < |s.sys.calls| && t < |c.params.keys| && u < |c.params.keys| && c.params.keys[t] == c.params.keys[u]
    && s.sys.calls[t].Returned? && u in s.outcome
    && var a, d, codec := s.sys.calls[t].answer, s.outcome[u], c.params.settings.codec;
       && a.err == d.err
       && (if t == u then Hears(codec, d.result, d.err, Owns(s.sys, t), a.result)
           else codec.encode(d.result).Some? && codec.decode(codec.encode(d.result).value) == Some(a.result))
  }

  /** In every run every call that has returned was answered by its own handler, or another's under its key. */
  lemma EveryAnswerRan<S, A>(c: Setup<S, A>, s: Joint<S, A>, acts: seq<Act<A>>, t: nat) returns (u: nat)
    requires Begin(c, s) && Sound(c.params) && Course(c, s, acts)
    requires t < |End(c, s, acts).sys.calls| && End(c, s, acts).sys.calls[t].Returned?
    ensures AnsweredBy(c, End(c, s, acts), t, u) && Began(End(c, s, acts).trace, u)
  {
    BeginInv(c, s);
    JointAlways(c, s, acts);
    u := AnswerSource(c, End(c, s, acts), t);
  }

  lemma AnswerSource<S, A>(c: Setup<S, A>, e: Joint<S, A>, t: nat) returns (u: nat)
    requires JointInv(c, e) && t < |e.sys.calls| && e.sys.calls[t].Returned?
    ensures AnsweredBy(c, e, t, u) && Began(e.trace, u) && (u != t ==> u !in c.direct)
  {
    assert CallOk(c.params, e.sys, t) && AnswerOk(e, t);
    if e.sys.calls[t].answer.deduplicated {
      var id := e.sys.calls[t].answer.source.value;
      u := e.sys.ledger[id].owner;
      assert Agrees(e.sys, e.outcome, id);
    } else {
      u := t;
      if Owns(e.sys, t) {
        var id :| 0 <= id < |e.sys.ledger| && e.sys.ledger[id].owner == t;
        assert EntryOk(c.params, e.sys, id) && Agrees(e.sys, e.outcome, id);
      }
    }
  }

  // ---------------------------------------------------------------- one class

  /** A call under the key has still to enter, or waits and may enter again. */
  ghost predicate Pending(p: Params, sys: System, k: Key) {
    exists t :: 0 <= t < |sys.calls| && t < |p.keys| && p.keys[t] == k
        && (sys.calls[t].Entering? || sys.calls[t].Waiting?)
  }

  /**
   While a call under the key is pending, the step does not cost the class its completed
   entry, and does not turn a call of the class away from a full cache.
   */
  ghost predicate Spares(p: Params, sys: System, l: Label, k: Key)
    requires Enabled(p, sys, l)
  {
    Pending(p, sys, k) && l.Enter? ==>
      && !Drops(p.settings, sys.cache, p.keys[l.t], sys.now, l.victim, k)
      && (p.keys[l.t] == k ==> !Crowded(p.settings, sys.cache, k, sys.now))
  }

  /** So does every step of the run. */
  ghost predicate Unlost<S, A>(c: Setup<S, A>, s: Joint<S, A>, acts: seq<Act<A>>, k: Key)
    requires Course(c, s, acts)
    decreases |acts|
  {
    acts == [] ||
    (&& (acts[0].Protocol? ==> Spares(c.params, s.sys, acts[0].l, k))
     && Unlost(c, Next(c, s, acts[0]), acts[1..], k))
  }

  /** An execution under the key whose result was kept. */
  ghost predicate KeptEnd(p: Params, sys: System, k: Key, id: nat) {
    && id < |sys.ledger| && sys.ledger[id].owner < |p.keys| && p.keys[sys.ledger[id].owner] == k
    && sys.ledger[id].ended.Some?
    && D.Kept(p.settings.codec, sys.ledger[id].ended.value.result, sys.ledger[id].ended.value.err)
  }

  /** Of two executions under the key the earlier has ended and was not kept. */
  ghost predicate Superseded(p: Params, sys: System, k: Key, i: nat, j: nat)
    requires Shape(p, sys) && i < j < |sys.ledger|
  {
    p.keys[sys.ledger[i].owner] == k && p.keys[sys.ledger[j].owner] == k ==>
      sys.ledger[i].ended.Some? && !KeptEnd(p, sys, k, i)
  }

  /** A call of the class that runs or has answered for itself was registered. */
  ghost predicate Registers(p: Params, direct: set<nat>, sys: System, k: Key, t: nat)
    requires t < |sys.calls| && t < |p.keys|
  {
    p.keys[t] == k && t !in direct && Acted(sys, t) ==> Owns(sys, t)
  }

  ghost predicate ClassInv(p: Params, direct: set<nat>, sys: System, k: Key) {
    && Inv(p, sys)
    && (Pending(p, sys, k) ==> forall id :: KeptEnd(p, sys, k, id) ==> Filed(sys, k, id))
    && (forall i, j :: 0 <= i < j < |sys.ledger| ==> Superseded(p, sys, k, i, j))
    && (forall t :: 0 <= t < |sys.calls| ==> Registers(p, direct, sys, k, t))
  }

  /** No step makes a class pending that was not. */
  lemma PendingBefore(p: Params, sys: System, l: Label, k: Key)
    requires Inv(p, sys) && Sound(p) && Enabled(p, sys, l) && Pending(p, Step(p, sys, l), k)
    ensures Pending(p, sys, k)
  {
    var sys' := Step(p, sys, l);
    var t :| 0 <= t < |sys'.calls| && t < |p.keys| && p.keys[t] == k
        && (sys'.calls[t].Entering? || sys'.calls[t].Waiting?);
    StepCall(p, sys, l, t);
  }

  /** What was kept stays on file, and what is kept now is filed. */
  lemma StepFiles(p: Params, direct: set<nat>, sys: System, l: Label, k: Key, id: nat)
    requires ClassInv(p, direct, sys, k) && Sound(p) && Enabled(p, sys, l) && Spares(p, sys, l, k)
    requires Pending(p, Step(p, sys, l), k) && KeptEnd(p, Step(p, sys, l), k, id)
    ensures Filed(Step(p, sys, l), k, id)
  {
    PendingBefore(p, sys, l, k);
    if id < |sys.ledger| {
      StepLedger(p, sys, l, id);
      if Step(p, sys, l).ledger[id] == sys.ledger[id] {
        assert KeptEnd(p, sys, k, id);
        FiledIff(p, sys, l, k, id);
      } else {
        FinishFiles(p, sys, l, id);
      }
    } else {
      StepNewEntry(p, sys, l, id);
    }
  }

  lemma FinishFiles(p: Params, sys: System, l: Label, id: nat)
    requires Inv(p, sys) && l.Finish? && Enabled(p, sys, l) && id < |sys.ledger|
    requires sys.ledger[id].owner == l.t && Step(p, sys, l).ledger[id] != sys.ledger[id]
    requires D.Kept(p.settings.codec, l.result, l.err)
    ensures Filed(Step(p, sys, l), p.keys[l.t], id)
  {
    assert CallOk(p, sys, l.t) && sys.calls[l.t] == Executing(Some(id));
    EndOwn(p, sys, l.t, id);
    CompleteHeap(p.settings.codec, sys.cache, p.keys[l.t], id, l.result, l.err, sys.now);
  }

  /** A call is registered only where nothing under its key is open or kept. */
  lemma RegistersAlone(p: Params, direct: set<nat>, sys: System, t: nat, victim: Key, i: nat)
    requires t < |p.keys| && ClassInv(p, direct, sys, p.keys[t]) && Sound(p) && i < |sys.ledger|
    requires Enabled(p, sys, Enter(t, victim)) && Spares(p, sys, Enter(t, victim), p.keys[t])
    requires p.keys[t] !in Unexpired(sys.cache, sys.now, p.settings.ttl).entries
        && p.keys[sys.ledger[i].owner] == p.keys[t]
    ensures sys.ledger[i].ended.Some? && !KeptEnd(p, sys, p.keys[t], i)
  {
    var k := p.keys[t];
    assert Pending(p, sys, k);
    assert EntryOk(p, sys, i);
    assert KeptEnd(p, sys, k, i) ==> Filed(sys, k, i);
  }

  lemma StepSupersedes(p: Params, direct: set<nat>, sys: System, l: Label, k: Key, i: nat, j: nat)
    requires ClassInv(p, direct, sys, k) && Sound(p) && Enabled(p, sys, l) && Spares(p, sys, l, k)
    requires Shape(p, Step(p, sys, l)) && i < j < |Step(p, sys, l).ledger|
    ensures Superseded(p, Step(p, sys, l), k, i, j)
  {
    if j >= |sys.ledger| {
      StepNewEntry(p, sys, l, j);
      StepLedger(p, sys, l, i);
      if p.keys[l.t] == k && p.keys[sys.ledger[i].owner] == k {
        RegistersAlone(p, direct, sys, l.t, l.victim, i);
      }
    } else {
      assert Superseded(p, sys, k, i, j);
      StepLedger(p, sys, l, i);
      StepLedger(p, sys, l, j);
      if p.keys[sys.ledger[i].owner] == k && p.keys[sys.ledger[j].owner] == k {
        EndedStays(p, sys, l, i);
      }
    }
  }

  lemma EndedStays(p: Params, sys: System, l: Label, i: nat)
    requires Inv(p, sys) && Enabled(p, sys, l) && i < |sys.ledger| && sys.ledger[i].ended.Some?
    ensures i < |Step(p, sys, l).ledger| && Step(p, sys, l).ledger[i] == sys.ledger[i]
  {
    StepLedger(p, sys, l, i);
    assert EntryOk(p, sys, i);
    if l.Finish? {
      assert CallOk(p, sys, l.t);
    }
  }

  /** A call of the class that begins to run is registered: it is not turned away. */
  lemma StepRegisters(p: Params, direct: set<nat>, sys: System, l: Label, k: Key, t: nat)
    requires ClassInv(p, direct, sys, k) && Sound(p) && Enabled(p, sys, l) && Spares(p, sys, l, k)
    requires t < |sys.calls| && t < |Step(p, sys, l).calls| && t < |p.keys|
    ensures Registers(p, direct, Step(p, sys, l), k, t)
  {
    assert Registers(p, direct, sys, k, t);
    if p.keys[t] == k && t !in direct && Acted(Step(p, sys, l), t) {
      if Acted(sys, t) {
        StepOwns(p, sys, l, t);
      } else {
        ActsAnew(p, sys, l, t);
        EnterRegisters(p, sys, t, l.victim);
      }
    }
  }

  /** A call acts anew only by entering. */
  lemma ActsAnew(p: Params, sys: System, l: Label, t: nat)
    requires Inv(p, sys) && Sound(p) && Enabled(p, sys, l) && t < |sys.calls|
    requires !Acted(sys, t) && Acted(Step(p, sys, l), t)
    ensures l.Enter? && l.t == t
  {
    StepCall(p, sys, l, t);
  }

  lemma EnterRegisters(p: Params, sys: System, t: nat, victim: Key)
    requires Inv(p, sys) && Sound(p) && Enabled(p, sys, Enter(t, victim)) && Spares(p, sys, Enter(t, victim), p.keys[t])
    requires t < |Step(p, sys, Enter(t, victim)).calls| && Acted(Step(p, sys, Enter(t, victim)), t)
    ensures Owns(Step(p, sys, Enter(t, victim)), t)
  {
    var sys' := Step(p, sys, Enter(t, victim));
    assert Pending(p, sys, p.keys[t]);
    InvMapOk(p, sys);
    EnterCases(p, sys, t, victim);
    StepCall(p, sys, Enter(t, victim), t);
    assert |sys'.ledger| == |sys.ledger| + 1;
    assert sys'.ledger[|sys.ledger|].owner == t;
  }

  lemma ClassStep(p: Params, direct: set<nat>, sys: System, l: Label, k: Key)
    requires ClassInv(p, direct, sys, k) && Sound(p) && Enabled(p, sys, l) && Spares(p, sys, l, k)
    ensures ClassInv(p, direct, Step(p, sys, l), k)
  {
    var sys' := Step(p, sys, l);
    StepKeepsInv(p, sys, l);
    if Pending(p, sys', k) {
      forall id | KeptEnd(p, sys', k, id) ensures Filed(sys', k, id) { StepFiles(p, direct, sys, l, k, id); }
    }
    forall i, j | 0 <= i < j < |sys'.ledger| ensures Superseded(p, sys', k, i, j) {
      StepSupersedes(p, direct, sys, l, k, i, j);
    }
    StepCalls(p, sys, l);
    forall t | 0 <= t < |sys'.calls|
      ensures Registers(p, direct, sys', k, t)
    {
      StepRegisters(p, direct, sys, l, k, t);
    }
  }

  lemma StepCalls(p: Params, sys: System, l: Label)
    requires Inv(p, sys) && Enabled(p, sys, l)
    ensures |Step(p, sys, l).calls| == |sys.calls|
  {
    if l.Enter? {
      EnterCases(p, sys, l.t, l.victim);
    }
  }

  /**
   Under the key no handler takes a step after another has begun, unless that one has ended
   with a result that could not be kept.
   */
  ghost predicate KeptIsLast<S, A>(c: Setup<S, A>, s: Joint<S, A>, k: Key) {
    forall a, b :: 0 <= a < b < |s.trace| ==> Yields(c, s, k, a, b)
  }

  ghost predicate Yields<S, A>(c: Setup<S, A>, s: Joint<S, A>, k: Key, a: nat, b: nat)
    requires a < b < |s.trace|
  {
    var t, u := s.trace[a].t, s.trace[b].t;
    t != u && InClass(c, t, k) && InClass(c, u, k) ==>
      t in s.outcome && !D.Kept(c.params.settings.codec, s.outcome[t].result, s.outcome[t].err)
  }

  /** A deduplicated call under the key. */
  predicate InClass<S, A>(c: Setup<S, A>, t: nat, k: Key) {
    t < |c.params.keys| && t !in c.direct && c.params.keys[t] == k
  }

  ghost predicate OnceInv<S, A>(c: Setup<S, A>, s: Joint<S, A>, k: Key) {
    JointInv(c, s) && ClassInv(c.params, c.direct, s.sys, k) && KeptIsLast(c, s, k)
  }

  /** When a handler of the class takes a step, another that began has ended and was not kept. */
  lemma HandlerYields<S, A>(c: Setup<S, A>, s: Joint<S, A>, w: Work<A>, k: Key, a: nat)
    requires OnceInv(c, s, k) && Possible(c, s, Handler(w)) && a < |s.trace|
    ensures Yields(c, Next(c, s, Handler(w)), k, a, |s.trace|)
  {
    var u, sys := s.trace[a].t, s.sys;
    if u != w.t && InClass(c, u, k) && InClass(c, w.t, k) {
      assert Acted(sys, u) && Acted(sys, w.t);
      var i := OneEnded(c.params, c.direct, sys, k, u, w.t);
      assert Agrees(sys, s.outcome, i);
    }
  }

  /** While a member of the class runs, any other that has acted owns an execution that ended and was not kept. */
  lemma OneEnded(p: Params, direct: set<nat>, sys: System, k: Key, u: nat, t: nat) returns (i: nat)
    requires ClassInv(p, direct, sys, k) && u != t && u < |p.keys| && t < |p.keys| && p.keys[u] == p.keys[t] == k
    requires u !in direct && t !in direct && Acted(sys, u) && Acted(sys, t) && sys.calls[t].Executing?
    ensures i < |sys.ledger| && sys.ledger[i].owner == u && sys.ledger[i].ended.Some? && !KeptEnd(p, sys, k, i)
  {
    assert Registers(p, direct, sys, k, u) && Registers(p, direct, sys, k, t);
    i :| 0 <= i < |sys.ledger| && sys.ledger[i].owner == u;
    var j :| 0 <= j < |sys.ledger| && sys.ledger[j].owner == t;
    assert EntryOk(p, sys, j);
    assert i < j ==> Superseded(p, sys, k, i, j);
    assert j < i ==> Superseded(p, sys, k, j, i);
  }

  lemma YieldsLater<S, A>(c: Setup<S, A>, s: Joint<S, A>, act: Act<A>, k: Key, a: nat, b: nat)
    requires JointInv(c, s) && Possible(c, s, act) && a < b < |s.trace| && Yields(c, s, k, a, b)
    ensures Yields(c, Next(c, s, act), k, a, b)
  {
  }

  lemma OnceStep<S, A>(c: Setup<S, A>, s: Joint<S, A>, a: Act<A>, k: Key)
    requires OnceInv(c, s, k) && Sound(c.params) && Possible(c, s, a)
    requires a.Protocol? ==> Spares(c.params, s.sys, a.l, k)
    ensures OnceInv(c, Next(c, s, a), k)
  {
    var s' := Next(c, s, a);
    NextKeeps(c, s, a);
    if a.Protocol? { ClassStep(c.params, c.direct, s.sys, a.l, k); }
    forall i, j | 0 <= i < j < |s'.trace| ensures Yields(c, s', k, i, j) {
      if j < |s.trace| {
        assert Yields(c, s, k, i, j);
        YieldsLater(c, s, a, k, i, j);
      } else {
        HandlerYields(c, s, a.w, k, i);
      }
    }
  }

  lemma {:induction false} OnceFrom<S, A>(c: Setup<S, A>, s: Joint<S, A>, acts: seq<Act<A>>, k: Key)
    requires OnceInv(c, s, k) && Sound(c.params) && Course(c, s, acts) && Unlost(c, s, acts, k)
    ensures OnceInv(c, End(c, s, acts), k)
    decreases |acts|
  {
    if acts != [] {
      OnceStep(c, s, acts[0], k);
      OnceFrom(c, Next(c, s, acts[0]), acts[1..], k);
    }
  }

  lemma BeginOnce<S, A>(c: Setup<S, A>, s: Joint<S, A>, k: Key)
    requires Begin(c, s)
    ensures OnceInv(c, s, k)
  {
    BeginInv(c, s);
  }

  // ---------------------------------------------------------------- main results

  /** A run of any length from the beginning, in which the class loses nothing it still needs. */
  ghost predicate ClassCourse<S, A>(c: Setup<S, A>, s: Joint<S, A>, acts: seq<Act<A>>, k: Key) {
    Begin(c, s) && Sound(c.params) && Course(c, s, acts) && Unlost(c, s, acts, k)
  }

  /** Under one key no handler acts after another has begun, unless that one ended with a result not kept. */
  lemma ClassRunsOnce<S, A>(c: Setup<S, A>, s: Joint<S, A>, acts: seq<Act<A>>, k: Key)
    requires ClassCourse(c, s, acts, k)
    ensures KeptIsLast(c, End(c, s, acts), k)
  {
    BeginOnce(c, s, k);
    OnceFrom(c, s, acts, k);
  }

  /** Every handler of the class that has ended returned a result that can be kept. */
  ghost predicate ClassKept<S, A>(c: Setup<S, A>, s: Joint<S, A>, k: Key) {
    forall x :: x in s.outcome && InClass(c, x, k) ==>
      D.Kept(c.params.settings.codec, s.outcome[x].result, s.outcome[x].err)
  }

  /**
   Exactly once: where the results of a class can be kept, only one of its handlers acts
   however often and however concurrently it is called, and all its callers get the same answer.
   */
  lemma ExactlyOnceConcurrently<S, A>(c: Setup<S, A>, s: Joint<S, A>, acts: seq<Act<A>>, k: Key, t: nat, u: nat)
    requires ClassCourse(c, s, acts, k) && ClassKept(c, End(c, s, acts), k)
    requires InClass(c, t, k) && InClass(c, u, k) && |End(c, s, acts).sys.calls| == |c.params.keys|
    ensures Began(End(c, s, acts).trace, t) && Began(End(c, s, acts).trace, u) ==> t == u
    ensures var calls := End(c, s, acts).sys.calls;
            calls[t].Returned? && calls[u].Returned? ==>
              calls[t].answer.result == calls[u].answer.result && calls[t].answer.err == calls[u].answer.err == None
  {
    var e := End(c, s, acts);
    BeginOnce(c, s, k);
    OnceFrom(c, s, acts, k);
    OneActs(c, e, k, t, u);
    if e.sys.calls[t].Returned? && e.sys.calls[u].Returned? {
      SameAnswers(c, e, k, t, u);
    }
  }

  lemma SameAnswers<S, A>(c: Setup<S, A>, e: Joint<S, A>, k: Key, t: nat, u: nat)
    requires OnceInv(c, e, k) && ClassKept(c, e, k) && InClass(c, t, k) && InClass(c, u, k)
    requires t < |e.sys.calls| && u < |e.sys.calls| && e.sys.calls[t].Returned? && e.sys.calls[u].Returned?
    ensures e.sys.calls[t].answer.result == e.sys.calls[u].answer.result
    ensures e.sys.calls[t].answer.err == e.sys.calls[u].answer.err == None
  {
    var x := ClassSource(c, e, k, t);
    var y := ClassSource(c, e, k, u);
    OneActs(c, e, k, x, y);
  }

  /** A member of the class is answered with the copy of what some member's handler returned. */
  lemma ClassSource<S, A>(c: Setup<S, A>, e: Joint<S, A>, k: Key, t: nat) returns (x: nat)
    requires OnceInv(c, e, k) && ClassKept(c, e, k) && InClass(c, t, k) && t < |e.sys.calls| && e.sys.calls[t].Returned?
    ensures InClass(c, x, k) && Began(e.trace, x) && x in e.outcome
    ensures var codec := c.params.settings.codec;
            && codec.encode(e.outcome[x].result).Some?
            && e.sys.calls[t].answer.result == OwnResult(codec, e.outcome[x].result, None)
            && e.sys.calls[t].answer.err == e.outcome[x].err == None
  {
    assert CallOk(c.params, e.sys, t) && AnswerOk(e, t) && Registers(c.params, c.direct, e.sys, k, t);
    x := AnswerSource(c, e, t);
  }

  lemma OneActs<S, A>(c: Setup<S, A>, e: Joint<S, A>, k: Key, t: nat, u: nat)
    requires KeptIsLast(c, e, k) && ClassKept(c, e, k) && InClass(c, t, k) && InClass(c, u, k)
    ensures Began(e.trace, t) && Began(e.trace, u) ==> t == u
  {
    if Began(e.trace, t) && Began(e.trace, u) {
      var a :| 0 <= a < |e.trace| && e.trace[a].t == t;
      var b :| 0 <= b < |e.trace| && e.trace[b].t == u;
      if a < b { EarlierNotKept(c, e, k, a, b); }
      if b < a { EarlierNotKept(c, e, k, b, a); }
    }
  }

  lemma EarlierNotKept<S, A>(c: Setup<S, A>, e: Joint<S, A>, k: Key, a: nat, b: nat)
    requires KeptIsLast(c, e, k) && a < b < |e.trace|
    ensures var t, u := e.trace[a].t, e.trace[b].t;
            t != u && InClass(c, t, k) && InClass(c, u, k) ==>
              t in e.outcome && !D.Kept(c.params.settings.codec, e.outcome[t].result, e.outcome[t].err)
  {
    assert Yields(c, e, k, a, b);
  }

  // ---------------------------------------------------------------- what a caller can check

  /** The keys with an execution that is open, or ended less than the time to live ago. */
  ghost function Recent(p: Params, sys: System): set<Key>
    requires Shape(p, sys)
  {
    set id | 0 <= id < |sys.ledger| && IsRecent(p, sys, id) :: p.keys[sys.ledger[id].owner]
  }

  predicate IsRecent(p: Params, sys: System, id: nat)
    requires id < |sys.ledger|
  {
    sys.ledger[id].ended.None? || sys.now - sys.ledger[id].ended.value.at < p.settings.ttl
  }

  /**
   In time and in room, by the clock and the history alone: whenever a call enters while the
   class is pending, no result of the class is as old as the time to live, and the recent
   keys together with the entering one are no more than the cache holds.
   */
  ghost predicate InTime(p: Params, sys: System, l: Label, k: Key)
    requires Shape(p, sys)
  {
    Pending(p, sys, k) && l.Enter? && l.t < |p.keys| ==>
      && (forall id: nat :: KeptEnd(p, sys, k, id) ==> sys.now - sys.ledger[id].ended.value.at < p.settings.ttl)
      && |Recent(p, sys) + {p.keys[l.t]}| <= p.settings.limit
  }

  ghost predicate Timely<S, A>(c: Setup<S, A>, s: Joint<S, A>, acts: seq<Act<A>>, k: Key)
    requires Course(c, s, acts)
    decreases |acts|
  {
    acts == [] ||
    (&& (acts[0].Protocol? ==> Shape(c.params, s.sys) && InTime(c.params, s.sys, acts[0].l, k))
     && Timely(c, Next(c, s, acts[0]), acts[1..], k))
  }

  /** What is on file unexpired is recent. */
  lemma LiveIsRecent(p: Params, sys: System, j: Key)
    requires Inv(p, sys) && j in Unexpired(sys.cache, sys.now, p.settings.ttl).entries
    ensures j in Recent(p, sys)
  {
    var id := sys.cache.entries[j];
    assert FiledOk(p, sys, j) && EntryOk(p, sys, id);
    assert IsRecent(p, sys, id);
  }

  lemma RoomFor(p: Params, sys: System, key: Key)
    requires Inv(p, sys) && |Recent(p, sys) + {key}| <= p.settings.limit
    ensures var live := Unexpired(sys.cache, sys.now, p.settings.ttl);
            key !in live.entries ==> |live.entries| < p.settings.limit
  {
    var live := Unexpired(sys.cache, sys.now, p.settings.ttl);
    forall j | j in live.entries.Keys ensures j in Recent(p, sys) { LiveIsRecent(p, sys, j); }
    if key !in live.entries {
      SubsetSize(live.entries.Keys, Recent(p, sys) + {key});
      assert |live.entries| == |live.entries.Keys|;
    }
  }

  lemma InTimeSpares(p: Params, sys: System, l: Label, k: Key)
    requires Inv(p, sys) && Enabled(p, sys, l) && InTime(p, sys, l, k)
    ensures Spares(p, sys, l, k)
  {
    if Pending(p, sys, k) && l.Enter? {
      RoomFor(p, sys, p.keys[l.t]);
      if k in sys.cache.entries && !InFlight(sys.cache, k) {
        FiledIsErrorFree(p, sys, k);
        var id := sys.cache.entries[k];
        assert EntryOk(p, sys, id) && FiledOk(p, sys, k);
        assert KeptEnd(p, sys, k, id);
      }
    }
  }

  /** A class whose retries come in time, while there is room, loses nothing it still needs. */
  lemma {:induction false} TimelyIsUnlost<S, A>(c: Setup<S, A>, s: Joint<S, A>, acts: seq<Act<A>>, k: Key)
    requires Inv(c.params, s.sys) && Sound(c.params) && Course(c, s, acts) && Timely(c, s, acts, k)
    ensures Unlost(c, s, acts, k)
    decreases |acts|
  {
    if acts != [] {
      if acts[0].Protocol? {
        InTimeSpares(c.params, s.sys, acts[0].l, k);
        StepKeepsInv(c.params, s.sys, acts[0].l);
      }
      TimelyIsUnlost(c, Next(c, s, acts[0]), acts[1..], k);
    }
  }
}
