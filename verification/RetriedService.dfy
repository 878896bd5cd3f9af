/**
 The whole service: concurrent tool calls with retries, through the cache, on the workspaces.
 The handlers are those of Service, with their checks before the lock and their engine runs
 under it; the cache decides which of them act at all.
 */
module RetriedService {
  import opened Base
  import Access
  import RequestCache
  import P = CacheProtocol
  import D = Deduplicate
  import V = Service
  import Effects
  import opened Isolation
  import opened Quota
  import opened ConcurrentOnce
  import T = ToolStream

  /** The server, its configuration as written, and the request ids of its calls. */
  datatype Front = Front(server: T.Server, config: seq<Access.WorkspaceConfig>, requestIds: seq<string>)

  /** The hypotheses on codec and digest, and a cache that can hold something. */
  ghost predicate WellPosed(f: Front) {
    && D.SoundHashing(f.server.hashing) && RequestCache.Faithful(f.server.settings.codec)
    && f.server.settings.ttl > 0 && f.server.settings.limit > 0
  }

  /** The key of call `t`, or none when it goes straight to its handler. */
  function KeyOfCall(f: Front, t: nat): Option<RequestCache.Key>
    requires t < |f.requestIds| && t < |f.server.cfg.requests|
  {
    T.RequestKey(f.server, f.server.cfg.requests[t], f.requestIds[t])
  }

  const NO_KEY := "direct"

  ghost function ParamsOf(f: Front): P.Params
    requires |f.requestIds| == |f.server.cfg.requests|
  {
    P.Params(f.server.settings,
             seq(|f.requestIds|, t requires 0 <= t < |f.requestIds| =>
               if KeyOfCall(f, t).Some? then KeyOfCall(f, t).value else NO_KEY))
  }

  ghost function DirectCalls(f: Front): set<nat>
    requires |f.requestIds| == |f.server.cfg.requests|
  {
    set t: nat | t < |f.requestIds| && KeyOfCall(f, t).None?
  }

  // ---------------------------------------------------------------- the tools as handlers

  /** One step of a tool, and the result it returns if it is the last. */
  datatype Deed = Deed(does: V.Label, says: RequestCache.CallResult)

  /** A step of call `t` in the service; a result is an error result exactly when the tool failed. */
  ghost function ToolStep(cfg: V.Config, s: V.State, t: nat, deed: Deed): Option<StepResult<V.State>> {
    if deed.does.t == t && V.Enabled(cfg, s, deed.does) then
      var s' := V.Step(cfg, s, deed.does);
      if t < |s'.calls| && s'.calls[t].Returned? then
        if deed.says.CallResult? && deed.says.isError == !s'.calls[t].ok
        then Some(StepResult(s', Some(Done(deed.says, None))))
        else None
      else Some(StepResult(s', None))
    else None
  }

  ghost function SetupOf(f: Front, s0: V.State): Setup<V.State, Deed>
    requires |f.requestIds| == |f.server.cfg.requests|
  {
    Setup(ParamsOf(f), DirectCalls(f), (s, t, deed) => ToolStep(f.server.cfg, s, t, deed), s0)
  }

  /** The call has run to its end. */
  predicate Ended(s: V.State, t: nat) {
    t < |s.calls| && s.calls[t].Returned?
  }

  /** The result is an error result exactly when the tool failed. */
  predicate Says(s: V.State, t: nat, r: RequestCache.CallResult)
    requires Ended(s, t)
  {
    r.CallResult? && r.isError == !s.calls[t].ok
  }

  lemma StepIsTool(f: Front, s0: V.State, s: V.State, t: nat, deed: Deed)
    requires |f.requestIds| == |f.server.cfg.requests|
    ensures SetupOf(f, s0).step(s, t, deed) == ToolStep(f.server.cfg, s, t, deed)
  {
  }

  /** A handler may take exactly the steps of its own call in the service, saying at its end what became of it. */
  lemma HandlerStepIff(f: Front, s0: V.State, store: V.State, t: nat, deed: Deed)
    requires |f.requestIds| == |f.server.cfg.requests|
    ensures var made, cfg := SetupOf(f, s0).step(store, t, deed), f.server.cfg;
            && (made.Some? <==>
                  && deed.does.t == t && V.Enabled(cfg, store, deed.does)
                  && (Ended(V.Step(cfg, store, deed.does), t) ==> Says(V.Step(cfg, store, deed.does), t, deed.says)))
            && (made.Some? ==> made.value.store == V.Step(cfg, store, deed.does))
  {
    StepIsTool(f, s0, store, t, deed);
  }

  /** So the handler of a call that has not ended can act, or waits for one that can, unless it never returns. */
  lemma HandlerCanAct(f: Front, s0: V.State, store: V.State, t: nat) returns (u: nat, deed: Deed)
    requires |f.requestIds| == |f.server.cfg.requests| && V.Inv(f.server.cfg, store) && V.SoundGrants(f.server.cfg)
    requires t < |store.calls| && !store.calls[t].Returned?
    requires var r := f.server.cfg.requests[t];
             store.calls[t].Arrived? && V.Target(f.server.cfg, r).Ok? ==>
               var root := V.RootOf(f.server.cfg, V.Target(f.server.cfg, r).value.id);
               !Effects.NeverReturns(f.server.cfg.lim, Effects.Rooted(store.fs, root), root, r.tool)
    ensures SetupOf(f, s0).step(store, u, deed).Some?
    ensures u == t || (u < |store.calls| && store.calls[u].Running?)
  {
    var l := Effects.CallCanMove(f.server.cfg, store, t, true, true);
    u := l.t;
    var after := V.Step(f.server.cfg, store, l);
    deed := Deed(l, RequestCache.CallResult(u < |after.calls| && after.calls[u].Returned? && !after.calls[u].ok, ""));
    HandlerStepIff(f, s0, store, u, deed);
  }

  function LabelsOf(trace: seq<Work<Deed>>): seq<V.Label> {
    seq(|trace|, i requires 0 <= i < |trace| => trace[i].action.does)
  }

  lemma {:induction false} ScheduleSnoc(cfg: V.Config, s: V.State, labels: seq<V.Label>, l: V.Label)
    requires V.Schedule(cfg, s, labels) && V.Enabled(cfg, V.After(cfg, s, labels), l)
    ensures V.Schedule(cfg, s, labels + [l])
    ensures V.After(cfg, s, labels + [l]) == V.Step(cfg, V.After(cfg, s, labels), l)
    decreases |labels|
  {
    if labels == [] {
      assert [l][1..] == [];
      assert [] + [l] == [l];
    } else {
      assert (labels + [l])[1..] == labels[1..] + [l] && (labels + [l])[0] == labels[0];
      ScheduleSnoc(cfg, V.Step(cfg, s, labels[0]), labels[1..], l);
    }
  }

  /** What the last of some handler steps that can be replayed is. */
  lemma LastDeed(f: Front, s0: V.State, trace: seq<Work<Deed>>)
    requires |f.requestIds| == |f.server.cfg.requests| && trace != [] && Replayed(SetupOf(f, s0), trace).Some?
    ensures var c, w := SetupOf(f, s0), trace[|trace| - 1];
            && Replayed(c, trace[..|trace| - 1]).Some?
            && var before, after := Replayed(c, trace[..|trace| - 1]).value, Replayed(c, trace).value;
               && w.action.does.t == w.t && V.Enabled(f.server.cfg, before.0, w.action.does)
               && after.0 == V.Step(f.server.cfg, before.0, w.action.does)
               && w.t !in before.1
               && after.1 == (if Ended(after.0, w.t) then before.1[w.t := Done(w.action.says, None)] else before.1)
               && (Ended(after.0, w.t) ==> Says(after.0, w.t, w.action.says))
  {
    var c, w := SetupOf(f, s0), trace[|trace| - 1];
    ReplayedLast(c, trace);
    var before := Replayed(c, trace[..|trace| - 1]).value;
    StepIsTool(f, s0, before.0, w.t, w.action);
    ToolStepFacts(f.server.cfg, before.0, w.t, w.action);
  }

  lemma ToolStepFacts(cfg: V.Config, s: V.State, t: nat, deed: Deed)
    requires ToolStep(cfg, s, t, deed).Some?
    ensures deed.does.t == t && V.Enabled(cfg, s, deed.does)
    ensures ToolStep(cfg, s, t, deed).value.store == V.Step(cfg, s, deed.does)
    ensures var s' := V.Step(cfg, s, deed.does);
            && ToolStep(cfg, s, t, deed).value.ended == (if Ended(s', t) then Some(Done(deed.says, None)) else None)
            && (Ended(s', t) ==> Says(s', t, deed.says))
  {
  }

  lemma LabelsSnoc(trace: seq<Work<Deed>>)
    requires trace != []
    ensures LabelsOf(trace) == LabelsOf(trace[..|trace| - 1]) + [trace[|trace| - 1].action.does]
  {
  }

  /** Handler steps that can be replayed are a schedule of the service, and lead where it leads. */
  lemma {:induction false} TraceIsSchedule(f: Front, s0: V.State, trace: seq<Work<Deed>>)
    requires |f.requestIds| == |f.server.cfg.requests| && Replayed(SetupOf(f, s0), trace).Some?
    ensures V.Schedule(f.server.cfg, s0, LabelsOf(trace))
    ensures V.After(f.server.cfg, s0, LabelsOf(trace)) == Replayed(SetupOf(f, s0), trace).value.0
    decreases |trace|
  {
    if trace == [] {
      assert LabelsOf(trace) == [];
    } else {
      var init := trace[..|trace| - 1];
      LastDeed(f, s0, trace);
      TraceIsSchedule(f, s0, init);
      ScheduleSnoc(f.server.cfg, s0, LabelsOf(init), trace[|trace| - 1].action.does);
      LabelsSnoc(trace);
    }
  }

  /** Every step of the trace is labelled with its own call... */
  predicate OwnLabels(trace: seq<Work<Deed>>) {
    forall i :: 0 <= i < |trace| ==> trace[i].action.does.t == trace[i].t
  }

  lemma OwnLabelsSnoc(trace: seq<Work<Deed>>)
    requires trace != [] && OwnLabels(trace[..|trace| - 1])
    requires trace[|trace| - 1].action.does.t == trace[|trace| - 1].t
    ensures OwnLabels(trace)
  {
    forall i | 0 <= i < |trace| ensures trace[i].action.does.t == trace[i].t {
      if i < |trace| - 1 { assert trace[i] == trace[..|trace| - 1][i]; }
    }
  }

  lemma {:induction false} TraceOwnLabels(f: Front, s0: V.State, trace: seq<Work<Deed>>)
    requires |f.requestIds| == |f.server.cfg.requests| && Replayed(SetupOf(f, s0), trace).Some?
    ensures OwnLabels(trace)
    decreases |trace|
  {
    if trace != [] {
      LastDeed(f, s0, trace);
      TraceOwnLabels(f, s0, trace[..|trace| - 1]);
      OwnLabelsSnoc(trace);
    }
  }

  /** ... and the calls that ran to their end said what became of them, without a Go error. */
  ghost predicate Truthful(s: V.State, outcome: map<nat, Done>) {
    && (forall t: nat :: Ended(s, t) <==> t in outcome)
    && forall t: nat :: t in outcome ==> outcome[t].err == None && Says(s, t, outcome[t].result)
  }

  lemma {:induction false} TraceTruthful(f: Front, s0: V.State, trace: seq<Work<Deed>>)
    requires |f.requestIds| == |f.server.cfg.requests| && Replayed(SetupOf(f, s0), trace).Some?
    requires forall t: nat :: !Ended(s0, t)
    ensures var (s, outcome) := Replayed(SetupOf(f, s0), trace).value; Truthful(s, outcome)
    decreases |trace|
  {
    if trace != [] {
      var w, init := trace[|trace| - 1], trace[..|trace| - 1];
      var before, after := Replayed(SetupOf(f, s0), init).value, Replayed(SetupOf(f, s0), trace).value;
      LastDeed(f, s0, trace);
      TraceTruthful(f, s0, init);
      Isolation.StepCalls(f.server.cfg, before.0, w.action.does);
      EndedOthers(before.0, after.0, w.t);
    }
  }

  lemma EndedOthers(s: V.State, s': V.State, t: nat)
    requires t < |s.calls| == |s'.calls| && s'.calls == s.calls[t := s'.calls[t]]
    ensures forall u: nat :: u != t ==> (Ended(s', u) <==> Ended(s, u)) && (Ended(s, u) ==> s'.calls[u] == s.calls[u])
  {
  }

  // ---------------------------------------------------------------- the hypotheses of the cache

  lemma FrontSound(f: Front, s0: V.State)
    requires WellPosed(f) && |f.requestIds| == |f.server.cfg.requests|
    ensures P.Sound(SetupOf(f, s0).params)
  {
    forall t | 0 <= t < |ParamsOf(f).keys| ensures ParamsOf(f).keys[t] != "" {
      if KeyOfCall(f, t).Some? { T.RequestKeyNotEmpty(f.server, f.server.cfg.requests[t], f.requestIds[t]); }
    }
  }

  /** Two deduplicated calls of one class. */
  predicate SameClass(f: Front, t: nat, u: nat)
    requires |f.requestIds| == |f.server.cfg.requests|
  {
    t < |f.requestIds| && u < |f.requestIds| && KeyOfCall(f, t).Some? && KeyOfCall(f, t) == KeyOfCall(f, u)
  }

  /** They are of one class exactly when user, request id, tool and canonical parameters agree. */
  lemma ClassIff(f: Front, t: nat, u: nat)
    requires D.SoundHashing(f.server.hashing) && |f.requestIds| == |f.server.cfg.requests|
    requires t < |f.requestIds| && u < |f.requestIds|
    ensures SameClass(f, t, u) <==>
              && KeyOfCall(f, t).Some? && KeyOfCall(f, u).Some?
              && var a, b := f.server.cfg.requests[t], f.server.cfg.requests[u];
                 && a.userId == b.userId && f.requestIds[t] == f.requestIds[u]
                 && T.ToolName(a.tool) == T.ToolName(b.tool)
                 && f.server.hashing.canonical(a) == f.server.hashing.canonical(b)
  {
    T.RequestKeys(f.server, f.server.cfg.requests[t], f.requestIds[t], f.server.cfg.requests[u], f.requestIds[u]);
  }

  // ---------------------------------------------------------------- every run

  /** Any run of the whole service from a proper start; entries may expire, be evicted, or never be filed. */
  ghost predicate ServiceRun(f: Front, s: Joint<V.State, Deed>, acts: seq<Act<Deed>>) {
    && |f.requestIds| == |f.server.cfg.requests| && Started(f.server.cfg, f.config, s.store)
    && Begin(SetupOf(f, s.store), s) && Course(SetupOf(f, s.store), s, acts)
  }

  ghost function EndOf(f: Front, s: Joint<V.State, Deed>, acts: seq<Act<Deed>>): Joint<V.State, Deed>
    requires ServiceRun(f, s, acts)
  {
    End(SetupOf(f, s.store), s, acts)
  }

  /** The schedule that the handlers ran. */
  ghost function RanLabels(f: Front, s: Joint<V.State, Deed>, acts: seq<Act<Deed>>): seq<V.Label>
    requires ServiceRun(f, s, acts)
  {
    LabelsOf(EndOf(f, s, acts).trace)
  }

  /**
   In every run the workspaces are what that schedule of the service, without any cache, makes
   of them, and each handler that ended said whether its tool had succeeded.
   */
  lemma RunIsSchedule(f: Front, s: Joint<V.State, Deed>, acts: seq<Act<Deed>>)
    requires ServiceRun(f, s, acts)
    ensures V.Schedule(f.server.cfg, s.store, RanLabels(f, s, acts))
    ensures V.After(f.server.cfg, s.store, RanLabels(f, s, acts)) == EndOf(f, s, acts).store
    ensures forall i :: 0 <= i < |EndOf(f, s, acts).trace| ==>
        RanLabels(f, s, acts)[i].t == EndOf(f, s, acts).trace[i].t
    ensures Truthful(EndOf(f, s, acts).store, EndOf(f, s, acts).outcome)
  {
    StoreAlways(SetupOf(f, s.store), s, acts);
    TraceIsSchedule(f, s.store, EndOf(f, s, acts).trace);
    TraceOwnLabels(f, s.store, EndOf(f, s, acts).trace);
    TraceTruthful(f, s.store, EndOf(f, s, acts).trace);
  }

  /** Quota, isolation and retention of files hold in every run, however often retries act again. */
  lemma RetriedServiceSafe(f: Front, s: Joint<V.State, Deed>, acts: seq<Act<Deed>>, ws: string)
    requires ServiceRun(f, s, acts) && V.WorkspaceId(ws)
    requires forall w :: V.WorkspaceId(w) ==>
               WithinCaps(f.server.cfg.lim, Leaves(s.store.fs, V.RootOf(f.server.cfg, w)))
    ensures var cfg, e, labels := f.server.cfg, EndOf(f, s, acts).store, RanLabels(f, s, acts);
            && V.Schedule(cfg, s.store, labels) && V.After(cfg, s.store, labels) == e
            && WithinCaps(cfg.lim, FilesOf(cfg, e, ws))
            && ChangedOnlyBy(cfg, s.store, labels, ws, ByGrant(cfg, ws))
            && |FilesOf(cfg, e, ws)| + Deletions(cfg, labels, ws) >= |Leaves(s.store.fs, V.RootOf(cfg, ws))|
  {
    RunIsSchedule(f, s, acts);
    ServiceSafe(f.server.cfg, f.config, s.store, RanLabels(f, s, acts), ws);
  }

  // ---------------------------------------------------------------- one class of retried calls

  /** The class of call `t` loses nothing it still needs along the run. */
  ghost predicate ClassSpared(f: Front, s: Joint<V.State, Deed>, acts: seq<Act<Deed>>, t: nat) {
    && ServiceRun(f, s, acts) && WellPosed(f) && t < |f.requestIds| && KeyOfCall(f, t).Some?
    && Unlost(SetupOf(f, s.store), s, acts, KeyOfCall(f, t).value)
  }

  /** It is enough that its retries enter in time, while there is room. */
  lemma TimelyIsSpared(f: Front, s: Joint<V.State, Deed>, acts: seq<Act<Deed>>, t: nat)
    requires ServiceRun(f, s, acts) && WellPosed(f) && t < |f.requestIds| && KeyOfCall(f, t).Some?
    requires Timely(SetupOf(f, s.store), s, acts, KeyOfCall(f, t).value)
    ensures ClassSpared(f, s, acts, t)
  {
    FrontSound(f, s.store);
    BeginInv(SetupOf(f, s.store), s);
    TimelyIsUnlost(SetupOf(f, s.store), s, acts, KeyOfCall(f, t).value);
  }

  lemma ClassMembers(f: Front, s0: V.State, t: nat, u: nat)
    requires |f.requestIds| == |f.server.cfg.requests| && t < |f.requestIds| && KeyOfCall(f, t).Some?
    ensures SameClass(f, t, u) <==> InClass(SetupOf(f, s0), u, KeyOfCall(f, t).value)
  {
  }

  /**
   Retries do not act: in a run of any length, of two steps by different calls of a class
   the earlier belongs to a call that has ended with a result that cannot be encoded.
   */
  lemma RetriesDoNotAct(f: Front, s: Joint<V.State, Deed>, acts: seq<Act<Deed>>, i: nat, j: nat)
    requires ServiceRun(f, s, acts) && i < j < |RanLabels(f, s, acts)|
    requires ClassSpared(f, s, acts, RanLabels(f, s, acts)[i].t)
    ensures var t, u, e := RanLabels(f, s, acts)[i].t, RanLabels(f, s, acts)[j].t, EndOf(f, s, acts);
            t != u && SameClass(f, t, u) ==>
              t in e.outcome && f.server.settings.codec.encode(e.outcome[t].result).None?
  {
    var c, t, u := SetupOf(f, s.store), RanLabels(f, s, acts)[i].t, RanLabels(f, s, acts)[j].t;
    var k := KeyOfCall(f, t).value;
    RunIsSchedule(f, s, acts);
    FrontSound(f, s.store);
    ClassRunsOnce(c, s, acts, k);
    ClassMembers(f, s.store, t, t);
    ClassMembers(f, s.store, t, u);
    EarlierNotKept(c, EndOf(f, s, acts), k, i, j);
  }

  /** And where the results can be encoded all callers of the class that have returned heard the same. */
  lemma RetriesHearTheSame(f: Front, s: Joint<V.State, Deed>, acts: seq<Act<Deed>>, t: nat, u: nat)
    requires ClassSpared(f, s, acts, t) && SameClass(f, t, u)
    requires forall x :: x in EndOf(f, s, acts).outcome && SameClass(f, t, x) ==>
               f.server.settings.codec.encode(EndOf(f, s, acts).outcome[x].result).Some?
    requires var calls := EndOf(f, s, acts).sys.calls;
             t < |calls| == |f.requestIds| && calls[t].Returned? && calls[u].Returned?
    ensures var calls := EndOf(f, s, acts).sys.calls;
            calls[t].answer.result == calls[u].answer.result && calls[t].answer.err == calls[u].answer.err == None
  {
    var c, e, k := SetupOf(f, s.store), EndOf(f, s, acts), KeyOfCall(f, t).value;
    RunIsSchedule(f, s, acts);
    FrontSound(f, s.store);
    forall x | x in e.outcome && InClass(c, x, k)
      ensures D.Kept(c.params.settings.codec, e.outcome[x].result, e.outcome[x].err)
    {
      ClassMembers(f, s.store, t, x);
    }
    ClassMembers(f, s.store, t, t);
    ClassMembers(f, s.store, t, u);
    ExactlyOnceConcurrently(c, s, acts, k, t, u);
  }
}
