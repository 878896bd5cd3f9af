/**
 Progress of calls through the cache, the workspace locks and the engine semaphore.  A call
 that executes waits for at most one workspace lock and, holding it, for at most one engine
 permit; nothing is ever waited for in another order.
 */
module Progress {
  import opened Base
  import opened RequestCache
  import opened CacheProtocol
  import opened CacheSafety

  const MAX_RUNS := 2

  /** What each call will need: its workspace, a shared or exclusive lock, and engine runs. */
  datatype Need = Need(ws: string, shared: bool, runs: nat)

  datatype Workload = Workload(params: Params, needs: seq<Need>, permits: nat)

  /** How far an executing call has come; `runs` counts the engine runs still ahead. */
  datatype Stage =
    | Planned
    | Announced
    | Holding(runs: nat)
    | Queued(runs: nat)
    | InEngine(runs: nat)
    | Unlocked

  datatype State = State(sys: System, stages: seq<Stage>)

  /** `Decline` is a call that fails before it takes a lock, `Cancel` one whose context ends while it queues. */
  datatype Move =
    | CacheMove(l: Label)
    | Decline(t: nat)
    | Announce(t: nat)
    | Lock(t: nat)
    | Ask(t: nat)
    | Acquire(t: nat)
    | Cancel(t: nat)
    | EngineDone(t: nat)
    | Unlock(t: nat)

  predicate Holds(st: Stage) {
    st.Holding? || st.Queued? || st.InEngine?
  }

  predicate Active(s: State, t: nat) {
    t < |s.sys.calls| && t < |s.stages| && s.sys.calls[t].Executing?
  }

  /** Call `t` holds the lock of the workspace. */
  predicate Holder(c: Workload, s: State, t: nat, ws: string) {
    Active(s, t) && t < |c.needs| && Holds(s.stages[t]) && c.needs[t].ws == ws
  }

  /** The reader-writer lock: readers exclude writers, writers everybody, and an announced writer new readers. */
  ghost predicate MayLock(c: Workload, s: State, t: nat)
    requires t < |c.needs|
  {
    forall u :: 0 <= u < |s.stages| && u < |c.needs| && u != t && Active(s, u) && c.needs[u].ws == c.needs[t].ws ==>
      if c.needs[t].shared then c.needs[u].shared || !(Holds(s.stages[u]) || s.stages[u].Announced?)
      else !Holds(s.stages[u])
  }

  function EngineUsers(s: State): set<nat> {
    set t | 0 <= t < |s.stages| && Active(s, t) && s.stages[t].InEngine?
  }

  ghost predicate CanMove(c: Workload, s: State, m: Move) {
    && |s.stages| == |s.sys.calls| == |c.needs|
    && match m
       case CacheMove(l) => Enabled(c.params, s.sys, l) && (l.Finish? ==> s.stages[l.t].Unlocked?)
       case Decline(t) => Active(s, t) && s.stages[t].Planned?
       case Announce(t) => Active(s, t) && s.stages[t].Planned? && !c.needs[t].shared
       case Lock(t) => Active(s, t) && (if c.needs[t].shared then s.stages[t].Planned? else s.stages[t].Announced?)
           && MayLock(c, s, t)
       case Ask(t) => Active(s, t) && s.stages[t].Holding? && s.stages[t].runs > 0
       case Acquire(t) => Active(s, t) && s.stages[t].Queued? && |EngineUsers(s)| < c.permits
       case Cancel(t) => Active(s, t) && s.stages[t].Queued?
       case EngineDone(t) => Active(s, t) && s.stages[t].InEngine?
       case Unlock(t) => Active(s, t) && s.stages[t].Holding?
  }

  ghost function AfterMove(c: Workload, s: State, m: Move): State
    requires CanMove(c, s, m)
  {
    match m
    case CacheMove(l) => State(Step(c.params, s.sys, l), if l.Enter? then s.stages[l.t := Planned] else s.stages)
    case Decline(t) => s.(stages := s.stages[t := Unlocked])
    case Announce(t) => s.(stages := s.stages[t := Announced])
    case Lock(t) => s.(stages := s.stages[t := Holding(c.needs[t].runs)])
    case Ask(t) => s.(stages := s.stages[t := Queued(s.stages[t].runs - 1)])
    case Acquire(t) => s.(stages := s.stages[t := InEngine(s.stages[t].runs)])
    case Cancel(t) => s.(stages := s.stages[t := Holding(s.stages[t].runs)])
    case EngineDone(t) => s.(stages := s.stages[t := Holding(s.stages[t].runs)])
    case Unlock(t) => s.(stages := s.stages[t := Unlocked])
  }

  ghost predicate Moves(c: Workload, s: State, ms: seq<Move>)
    decreases |ms|
  {
    ms == [] || (CanMove(c, s, ms[0]) && Moves(c, AfterMove(c, s, ms[0]), ms[1..]))
  }

  /** A bound on the engine runs, and at least one permit. */
  ghost predicate SoundWorkload(c: Workload) {
    && Sound(c.params) && c.permits > 0 && |c.needs| == |c.params.keys|
    && forall t :: 0 <= t < |c.needs| ==> c.needs[t].runs <= MAX_RUNS
  }

  predicate StageOk(c: Workload, t: nat, st: Stage)
    requires t < |c.needs|
  {
    && (st.Holding? ==> st.runs <= MAX_RUNS)
    && (st.Queued? || st.InEngine? ==> st.runs < MAX_RUNS)
    && (st.Announced? ==> !c.needs[t].shared)
  }

  ghost predicate LockInv(c: Workload, s: State) {
    && Inv(c.params, s.sys) && |s.stages| == |s.sys.calls| == |c.needs|
    && (forall t :: 0 <= t < |s.stages| ==> StageOk(c, t, s.stages[t]))
  }

  // ---------------------------------------------------------------- no deadlock

  /** Some move other than the clock is possible. */
  ghost predicate Alive(c: Workload, s: State) {
    exists m :: CanMove(c, s, m) && m != CacheMove(Tick)
  }

  /** A lock holder can move, or some call in the engine can. */
  lemma HolderAlive(c: Workload, s: State, t: nat)
    requires LockInv(c, s) && SoundWorkload(c) && Active(s, t) && Holds(s.stages[t])
    ensures Alive(c, s)
  {
    match s.stages[t]
    case Holding(_) => assert CanMove(c, s, Unlock(t));
    case InEngine(_) => assert CanMove(c, s, EngineDone(t));
    case Queued(_) =>
      if |EngineUsers(s)| < c.permits {
        assert CanMove(c, s, Acquire(t));
      } else {
        var u :| u in EngineUsers(s);
        assert CanMove(c, s, EngineDone(u));
      }
  }

  /** An announced writer can lock, or its lock has a holder. */
  lemma WriterAlive(c: Workload, s: State, t: nat)
    requires LockInv(c, s) && SoundWorkload(c) && Active(s, t) && s.stages[t].Announced?
    ensures Alive(c, s)
  {
    if MayLock(c, s, t) {
      assert CanMove(c, s, Lock(t));
    } else {
      var u :| 0 <= u < |s.stages| && Active(s, u) && Holds(s.stages[u]);
      HolderAlive(c, s, u);
    }
  }

  /** An executing call can move, or what it waits for can. */
  lemma ExecutingAlive(c: Workload, s: State, t: nat)
    requires LockInv(c, s) && SoundWorkload(c) && Active(s, t)
    ensures Alive(c, s)
  {
    match s.stages[t]
    case Holding(_) => HolderAlive(c, s, t);
    case Queued(_) => HolderAlive(c, s, t);
    case InEngine(_) => HolderAlive(c, s, t);
    case Announced => WriterAlive(c, s, t);
    case Unlocked =>
      assert CallOk(c.params, s.sys, t);
      assert CanMove(c, s, CacheMove(Finish(t, NoResult, None)));
    case Planned =>
      if !c.needs[t].shared {
        assert CanMove(c, s, Announce(t));
      } else if MayLock(c, s, t) {
        assert CanMove(c, s, Lock(t));
      } else {
        var u :| 0 <= u < |s.stages| && Active(s, u) && (Holds(s.stages[u]) || s.stages[u].Announced?);
        if Holds(s.stages[u]) { HolderAlive(c, s, u); } else { WriterAlive(c, s, u); }
      }
  }

  /** Among finitely many entries one is oldest. */
  lemma {:induction false} OldestExists(c: RequestCache.Cache, among: set<Key>) returns (victim: Key)
    requires WellFormed(c) && among <= c.entries.Keys
    requires exists k :: k in among && !InFlight(c, k)
    ensures victim in among && !InFlight(c, victim)
    ensures forall k :: k in among && !InFlight(c, k) ==> Stamp(c, victim) <= Stamp(c, k)
    decreases |among|
  {
    var k :| k in among && !InFlight(c, k);
    if exists j :: j in among - {k} && !InFlight(c, j) {
      var v := OldestExists(c, among - {k});
      victim := if Stamp(c, k) < Stamp(c, v) then k else v;
    } else {
      victim := k;
    }
  }

  /** The eviction always has an entry to pick. */
  lemma SomeVictim(st: Settings, cache: RequestCache.Cache, key: Key, now: RequestCache.Time) returns (victim: Key)
    requires WellFormed(cache)
    ensures VictimOk(st, cache, key, now, victim)
  {
    var live := Unexpired(cache, now, st.ttl);
    victim := "";
    if AnyCompleted(live) {
      victim := OldestExists(live, live.entries.Keys);
    }
  }

  /**
   The protocol takes whatever comes: time may always pass, a call may always enter, a handler
   may end with any result and error, and a waiting call may go on exactly when what it waits
   for has ended.
   */
  lemma Receptive(p: Params, s: System, t: nat, r: RequestCache.CallResult, err: Option<RequestCache.GoError>)
    requires Inv(p, s) && t < |s.calls|
    ensures CacheProtocol.Enabled(p, s, Tick)
    ensures s.calls[t].Entering? ==> exists victim :: CacheProtocol.Enabled(p, s, Enter(t, victim))
    ensures s.calls[t].Executing? ==> CacheProtocol.Enabled(p, s, Finish(t, r, err))
    ensures s.calls[t].Waiting? ==>
              && s.calls[t].id < |s.ledger|
              && (CacheProtocol.Enabled(p, s, Wake(t)) <==> s.ledger[s.calls[t].id].ended.Some?)
  {
    assert CallOk(p, s, t);
    if s.calls[t].Entering? {
      var victim := SomeVictim(p.settings, s.cache, p.keys[t], s.now);
      assert CacheProtocol.Enabled(p, s, Enter(t, victim));
    }
    if s.calls[t].Waiting? { assert EntryOk(p, s, s.calls[t].id); }
  }

  lemma EnteringAlive(c: Workload, s: State, t: nat)
    requires LockInv(c, s) && t < |s.sys.calls| && s.sys.calls[t].Entering?
    ensures Alive(c, s)
  {
    var victim := SomeVictim(c.params.settings, s.sys.cache, c.params.keys[t], s.sys.now);
    assert CanMove(c, s, CacheMove(Enter(t, victim)));
  }

  /** No reachable state is stuck: while a call has not returned, some call can move. */
  lemma NoDeadlock(c: Workload, s: State, t: nat)
    requires LockInv(c, s) && SoundWorkload(c) && t < |s.sys.calls| && !s.sys.calls[t].Returned?
    ensures Alive(c, s)
  {
    assert CallOk(c.params, s.sys, t);
    match s.sys.calls[t]
    case Entering => EnteringAlive(c, s, t);
    case Executing(_) => ExecutingAlive(c, s, t);
    case Waiting(id) =>
      assert EntryOk(c.params, s.sys, id);
      if s.sys.ledger[id].ended.Some? {
        assert CanMove(c, s, CacheMove(Wake(t)));
      } else {
        ExecutingAlive(c, s, s.sys.ledger[id].owner);
      }
    case Dropping =>
  }

  // ---------------------------------------------------------------- bounded work

  /** An injective image of a set is as large. */
  lemma {:induction false} ImageSize(s: set<nat>, f: seq<nat>)
    requires forall x :: x in s ==> x < |f|
    requires forall x, y :: x in s && y in s && f[x] == f[y] ==> x == y
    ensures |set x | x in s :: f[x]| == |s|
  {
    if s != {} {
      var x :| x in s;
      ImageSize(s - {x}, f);
      assert (set y | y in s :: f[y]) == (set y | y in s - {x} :: f[y]) + {f[x]};
    }
  }

  lemma BelowWithout(s: set<nat>, n: nat, t: nat)
    requires t < n && t !in s && forall x :: x in s ==> x < n
    ensures |s| < n
  {
    BoundedSetSize(s + {t}, n);
  }

  /** Each retry of a call is charged to another call's ended execution, and no two to the same call. */
  lemma RetriesBounded(p: Params, s: System, t: nat)
    requires Inv(p, s) && t < |s.calls|
    ensures |s.retried[t]| < |s.calls|
    ensures forall id :: id in s.retried[t] ==> id < |s.ledger| && s.ledger[id].ended.Some? && s.ledger[id].owner != t
    ensures forall i, j :: i in s.retried[t] && j in s.retried[t] && i != j ==> s.ledger[i].owner != s.ledger[j].owner
  {
    assert CallOk(p, s, t);
    var owners := seq(|s.ledger|, id requires 0 <= id < |s.ledger| => s.ledger[id].owner);
    assert forall id :: id in s.retried[t] ==>
        owners[id] == s.ledger[id].owner && owners[id] < |s.calls| && owners[id] != t;
    ImageSize(s.retried[t], owners);
    BelowWithout(set id | id in s.retried[t] :: owners[id], |s.calls|, t);
  }

  function StageRank(need: Need, st: Stage): nat {
    match st
    case Planned => 3 * need.runs + 4
    case Announced => 3 * need.runs + 3
    case Holding(n) => 3 * n + 2
    case Queued(n) => 3 * n + 4
    case InEngine(n) => 3 * n + 3
    case Unlocked => 1
  }

  function CallRank(need: Need, call: Call, st: Stage): nat {
    match call
    case Entering => 12
    case Waiting(_) => 11
    case Dropping => 13
    case Executing(_) => StageRank(need, st)
    case Returned(_) => 0
  }

  predicate Aligned(c: Workload, s: State) {
    |s.stages| == |s.sys.calls| == |c.needs| == |s.sys.retried|
  }

  /** The retries left to a call among `n`. */
  function Left(n: nat, retried: set<nat>): nat {
    if |retried| < n then n - |retried| else 0
  }

  /** What call `t` may still do: its retries left, twice, and the moves of its current round. */
  function Rank(c: Workload, s: State, t: nat): nat
    requires Aligned(c, s) && t < |s.stages|
  {
    2 * Left(|s.sys.calls|, s.sys.retried[t]) + CallRank(c.needs[t], s.sys.calls[t], s.stages[t])
  }

  function Ranks(c: Workload, s: State): seq<nat>
    requires Aligned(c, s)
  {
    seq(|s.stages|, t requires 0 <= t < |s.stages| => Rank(c, s, t))
  }

  lemma StageKeepsInv(c: Workload, s: State, t: nat, st: Stage)
    requires LockInv(c, s) && t < |s.stages| && StageOk(c, t, st)
    ensures LockInv(c, s.(stages := s.stages[t := st]))
  {
  }

  lemma LockInvOf(c: Workload, s: State, s': State)
    requires Inv(c.params, s'.sys) && |s'.stages| == |s'.sys.calls| == |c.needs|
    requires |s.stages| == |c.needs| && forall t :: 0 <= t < |s.stages| ==> StageOk(c, t, s.stages[t])
    requires forall t :: 0 <= t < |s'.stages| ==> s'.stages[t] == s.stages[t] || s'.stages[t].Planned?
    ensures LockInv(c, s')
  {
    forall t | 0 <= t < |s'.stages| ensures StageOk(c, t, s'.stages[t]) { assert StageOk(c, t, s.stages[t]); }
  }

  lemma CacheMoveKeepsInv(c: Workload, s: State, l: Label)
    requires LockInv(c, s) && SoundWorkload(c) && CanMove(c, s, CacheMove(l))
    ensures LockInv(c, AfterMove(c, s, CacheMove(l)))
  {
    StepCount(c.params, s.sys, l);
    assert Inv(c.params, Step(c.params, s.sys, l)) by { StepKeepsInv(c.params, s.sys, l); }
    LockInvOf(c, s, AfterMove(c, s, CacheMove(l)));
  }

  lemma StepCount(p: Params, s: System, l: Label)
    requires Shape(p, s) && Enabled(p, s, l)
    ensures |Step(p, s, l).calls| == |s.calls|
  {
    if l.Enter? {
      EnterCases(p, s, l.t, l.victim);
    }
  }

  /** What a move of a lock or an engine permit makes of its call's stage. */
  lemma StageMoves(c: Workload, s: State, m: Move)
    requires LockInv(c, s) && SoundWorkload(c) && CanMove(c, s, m) && !m.CacheMove?
    ensures Mover(m) < |s.stages| && |AfterMove(c, s, m).stages| == |s.stages|
    ensures var t, s' := Mover(m), AfterMove(c, s, m);
            s' == s.(stages := s.stages[t := s'.stages[t]]) && StageOk(c, t, s'.stages[t])
            && StageRank(c.needs[t], s'.stages[t]) < StageRank(c.needs[t], s.stages[t]) && s.sys.calls[t].Executing?
  {
    assert StageOk(c, Mover(m), s.stages[Mover(m)]);
  }

  lemma MoveKeepsInv(c: Workload, s: State, m: Move)
    requires LockInv(c, s) && SoundWorkload(c) && CanMove(c, s, m)
    ensures LockInv(c, AfterMove(c, s, m))
  {
    if m.CacheMove? {
      CacheMoveKeepsInv(c, s, m.l);
    } else {
      StageMoves(c, s, m);
      StageKeepsInv(c, s, Mover(m), AfterMove(c, s, m).stages[Mover(m)]);
    }
  }

  /** The call a move belongs to. */
  function Mover(m: Move): nat {
    match m
    case CacheMove(l) => if l.Tick? then 0 else l.t
    case Decline(t) => t
    case Announce(t) => t
    case Lock(t) => t
    case Ask(t) => t
    case Acquire(t) => t
    case Cancel(t) => t
    case EngineDone(t) => t
    case Unlock(t) => t
  }

  /** A step of the cache leaves the other calls where they are. */
  lemma StepFrame(p: Params, s: System, l: Label, u: nat)
    requires Shape(p, s) && Enabled(p, s, l) && (l.Tick? || u != l.t) && u < |s.calls|
    ensures |Step(p, s, l).calls| == |s.calls| && |Step(p, s, l).retried| == |s.retried|
    ensures Step(p, s, l).calls[u] == s.calls[u] && Step(p, s, l).retried[u] == s.retried[u]
  {
    if l.Enter? {
      EnterCases(p, s, l.t, l.victim);
    }
  }

  /** How a step moves its own call: forward, or back to entering at the price of one retry. */
  lemma StepForward(p: Params, s: System, l: Label)
    requires Inv(p, s) && Sound(p) && Enabled(p, s, l) && !l.Tick?
    ensures var s' := Step(p, s, l);
            && |s'.calls| == |s.calls| && |s'.retried| == |s.retried|
            && if l.Wake? && s'.calls[l.t].Entering? then
                 s.calls[l.t].Waiting? && s.calls[l.t].id !in s.retried[l.t]
                     && s'.retried[l.t] == s.retried[l.t] + {s.calls[l.t].id}
               else
                 && s'.retried[l.t] == s.retried[l.t]
                 && (s'.calls[l.t].Returned?
                     || (s.calls[l.t].Entering? && (s'.calls[l.t].Waiting? || s'.calls[l.t].Executing?)))
                 && !s.calls[l.t].Returned?
  {
    assert CallOk(p, s, l.t);
    if l.Enter? {
      EnterCases(p, s, l.t, l.victim);
      EnterKeeps(p, s, l.t, l.victim);
      NeverDropping(p, Step(p, s, l), l.t);
    }
  }

  /** Forward within a round, or a retry fewer: either way less is left. */
  lemma RankFalls(n: nat, retried: set<nat>, retried': set<nat>, id: nat, rank: nat, rank': nat)
    requires |retried'| < n
    requires retried' == retried ==> rank' < rank
    requires retried' != retried ==> id !in retried && retried' == retried + {id} && rank' < rank + 2
    ensures 2 * Left(n, retried') + rank' < 2 * Left(n, retried) + rank
  {
  }

  /** A call moves forward within its round. */
  lemma CallRankFalls(need: Need, call: Call, st: Stage, call': Call, st': Stage)
    requires need.runs <= MAX_RUNS && !call.Returned?
    requires call'.Returned? || (call.Entering? && (call'.Waiting? || (call'.Executing? && st'.Planned?)))
    ensures CallRank(need, call', st') < CallRank(need, call, st)
  {
  }

  /** The state that a step of the cache leads to, as far as ranks see it. */
  lemma CacheMoveEffect(c: Workload, s: State, l: Label)
    requires LockInv(c, s) && SoundWorkload(c) && CanMove(c, s, CacheMove(l)) && !l.Tick?
    ensures var s' := AfterMove(c, s, CacheMove(l));
            && Aligned(c, s) && Aligned(c, s') && l.t < |s.stages|
            && (l.Enter? ==> s'.stages[l.t].Planned?)
            && (s'.sys.calls[l.t].Executing? ==> l.Enter?)
            && |s'.sys.retried[l.t]| < |s.sys.calls|
  {
    StepForward(c.params, s.sys, l);
    StepKeepsInv(c.params, s.sys, l);
    RetriesBounded(c.params, Step(c.params, s.sys, l), l.t);
  }

  lemma CacheMoveRank(c: Workload, s: State, l: Label)
    requires LockInv(c, s) && SoundWorkload(c) && CanMove(c, s, CacheMove(l)) && !l.Tick?
    ensures Aligned(c, s) && l.t < |s.stages| && Aligned(c, AfterMove(c, s, CacheMove(l)))
    ensures Rank(c, AfterMove(c, s, CacheMove(l)), l.t) < Rank(c, s, l.t)
  {
    CacheMoveEffect(c, s, l);
    StepForward(c.params, s.sys, l);
    RankAfter(c, s.sys, s.stages[l.t], AfterMove(c, s, CacheMove(l)).sys, AfterMove(c, s, CacheMove(l)).stages[l.t], l);
  }

  lemma RankAfter(c: Workload, sys: System, st: Stage, sys': System, st': Stage, l: Label)
    requires !l.Tick? && l.t < |sys.calls| == |sys'.calls| == |c.needs| == |sys.retried| == |sys'.retried|
    requires c.needs[l.t].runs <= MAX_RUNS && |sys'.retried[l.t]| < |sys.calls|
    requires (l.Enter? ==> st'.Planned?) && (sys'.calls[l.t].Executing? ==> l.Enter?)
    requires if l.Wake? && sys'.calls[l.t].Entering? then
               sys.calls[l.t].Waiting? && sys.calls[l.t].id !in sys.retried[l.t]
                   && sys'.retried[l.t] == sys.retried[l.t] + {sys.calls[l.t].id}
             else
               && sys'.retried[l.t] == sys.retried[l.t]
               && (sys'.calls[l.t].Returned?
                   || (sys.calls[l.t].Entering? && (sys'.calls[l.t].Waiting? || sys'.calls[l.t].Executing?)))
               && !sys.calls[l.t].Returned?
    ensures 2 * Left(|sys.calls|, sys'.retried[l.t]) + CallRank(c.needs[l.t], sys'.calls[l.t], st')
            < 2 * Left(|sys.calls|, sys.retried[l.t]) + CallRank(c.needs[l.t], sys.calls[l.t], st)
  {
    var call, call' := sys.calls[l.t], sys'.calls[l.t];
    if l.Wake? && call'.Entering? {
      RankFalls(|sys.calls|, sys.retried[l.t], sys'.retried[l.t], call.id, CallRank(c.needs[l.t], call, st),
          CallRank(c.needs[l.t], call', st'));
    } else {
      CallRankFalls(c.needs[l.t], call, st, call', st');
    }
  }

  lemma CacheMoveOthers(c: Workload, s: State, l: Label, t: nat)
    requires LockInv(c, s) && CanMove(c, s, CacheMove(l)) && !l.Tick? && t != l.t && t < |s.stages|
    requires Aligned(c, s) && Aligned(c, AfterMove(c, s, CacheMove(l)))
    ensures Rank(c, AfterMove(c, s, CacheMove(l)), t) == Rank(c, s, t)
  {
    StepFrame(c.params, s.sys, l, t);
  }

  /** Every move but the clock's lowers the rank of its own call and leaves the others'. */
  lemma MoveLowersRank(c: Workload, s: State, m: Move)
    requires LockInv(c, s) && SoundWorkload(c) && CanMove(c, s, m) && m != CacheMove(Tick)
    ensures Aligned(c, s) && Aligned(c, AfterMove(c, s, m)) && Mover(m) < |s.stages|
    ensures Rank(c, AfterMove(c, s, m), Mover(m)) < Rank(c, s, Mover(m))
    ensures forall t :: 0 <= t < |s.stages| && t != Mover(m) ==> Rank(c, AfterMove(c, s, m), t) == Rank(c, s, t)
  {
    if m.CacheMove? {
      CacheMoveKeepsInv(c, s, m.l);
      CacheMoveRank(c, s, m.l);
      forall t | 0 <= t < |s.stages| && t != Mover(m) ensures Rank(c, AfterMove(c, s, m), t) == Rank(c, s, t) {
        CacheMoveOthers(c, s, m.l, t);
      }
    } else {
      StageMoves(c, s, m);
    }
  }

  /** A move but the clock's lowers the sum of the ranks. */
  lemma MoveLowersSum(c: Workload, s: State, m: Move)
    requires LockInv(c, s) && SoundWorkload(c) && CanMove(c, s, m) && m != CacheMove(Tick)
    ensures Aligned(c, s) && Aligned(c, AfterMove(c, s, m)) && Sum(Ranks(c, AfterMove(c, s, m))) < Sum(Ranks(c, s))
  {
    MoveLowersRank(c, s, m);
    var s', t := AfterMove(c, s, m), Mover(m);
    assert Ranks(c, s') == Ranks(c, s)[t := Rank(c, s', t)];
    SumUpdate(Ranks(c, s), t, Rank(c, s', t));
  }

  lemma TickKeepsRanks(c: Workload, s: State)
    requires LockInv(c, s) && CanMove(c, s, CacheMove(Tick))
    ensures Aligned(c, s) && Aligned(c, AfterMove(c, s, CacheMove(Tick)))
        && Ranks(c, AfterMove(c, s, CacheMove(Tick))) == Ranks(c, s)
  {
  }

  /** How many moves of a run are not the clock's. */
  function Work(ms: seq<Move>): nat {
    if ms == [] then 0 else (if ms[0] == CacheMove(Tick) then 0 else 1) + Work(ms[1..])
  }

  /** Every schedule does at most as much work as the ranks allow: progress is bounded, fair or not. */
  lemma {:induction false} WorkBounded(c: Workload, s: State, ms: seq<Move>)
    requires LockInv(c, s) && SoundWorkload(c) && Moves(c, s, ms)
    ensures Work(ms) <= Sum(Ranks(c, s))
    decreases |ms|
  {
    if ms != [] {
      MoveKeepsInv(c, s, ms[0]);
      WorkBounded(c, AfterMove(c, s, ms[0]), ms[1..]);
      if ms[0] == CacheMove(Tick) {
        TickKeepsRanks(c, s);
      } else {
        MoveLowersSum(c, s, ms[0]);
      }
    }
  }

  lemma {:induction false} SumBounded(s: seq<nat>, b: nat)
    requires forall i :: 0 <= i < |s| ==> s[i] <= b
    ensures Sum(s) <= |s| * b
  {
    if s != [] {
      SumBounded(s[1..], b);
    }
  }

  ghost predicate Start(c: Workload, s: State) {
    && Initial(c.params, s.sys) && |s.stages| == |s.sys.calls| == |c.needs|
    && forall t :: 0 <= t < |s.stages| ==> s.stages[t] == Planned
  }

  lemma StartRanks(c: Workload, s: State)
    requires Start(c, s) && forall t :: 0 <= t < |c.needs| ==> c.needs[t].runs <= MAX_RUNS
    ensures Aligned(c, s) && forall i :: 0 <= i < |Ranks(c, s)| ==> Ranks(c, s)[i] <= 2 * |c.needs| + 12
  {
  }

  /** From the start, `n` calls make at most `n * (2n + 12)` moves between them, whatever the schedule. */
  lemma ProgressBound(c: Workload, s: State, ms: seq<Move>)
    requires Start(c, s) && SoundWorkload(c) && Moves(c, s, ms)
    ensures Work(ms) <= |c.needs| * (2 * |c.needs| + 12)
  {
    InitialInv(c.params, s.sys);
    assert LockInv(c, s);
    WorkBounded(c, s, ms);
    StartRanks(c, s);
    SumBounded(Ranks(c, s), 2 * |c.needs| + 12);
  }

  ghost function Finally(c: Workload, s: State, ms: seq<Move>): State
    requires Moves(c, s, ms)
    decreases |ms|
  {
    if ms == [] then s else Finally(c, AfterMove(c, s, ms[0]), ms[1..])
  }

  lemma OneMove(c: Workload, s: State, m: Move, rest: seq<Move>)
    requires CanMove(c, s, m) && Moves(c, AfterMove(c, s, m), rest)
    ensures Moves(c, s, [m] + rest) && Finally(c, s, [m] + rest) == Finally(c, AfterMove(c, s, m), rest)
  {
    assert ([m] + rest)[1..] == rest;
  }

  /** One run of the engine, while a permit is free. */
  lemma EngineRound(c: Workload, s: State, t: nat, rest: seq<Move>)
    requires |s.stages| == |s.sys.calls| == |c.needs| && Active(s, t) && |EngineUsers(s)| < c.permits
    requires s.stages[t].Holding? && s.stages[t].runs > 0
    requires Moves(c, s.(stages := s.stages[t := Holding(s.stages[t].runs - 1)]), rest)
    ensures Moves(c, s, [Ask(t)] + ([Acquire(t)] + ([EngineDone(t)] + rest)))
    ensures Finally(c, s, [Ask(t)] + ([Acquire(t)] + ([EngineDone(t)] + rest)))
        == Finally(c, s.(stages := s.stages[t := Holding(s.stages[t].runs - 1)]), rest)
  {
    var asked := AfterMove(c, s, Ask(t));
    assert EngineUsers(asked) == EngineUsers(s);
    var served := AfterMove(c, asked, Acquire(t));
    assert AfterMove(c, served, EngineDone(t)).stages == s.stages[t := Holding(s.stages[t].runs - 1)];
    OneMove(c, served, EngineDone(t), rest);
    OneMove(c, asked, Acquire(t), [EngineDone(t)] + rest);
    OneMove(c, s, Ask(t), [Acquire(t)] + ([EngineDone(t)] + rest));
  }

  /**
   A call under its lock can make every engine run it has planned, one after the other, if a
   permit is free when it begins.
   */
  lemma {:induction false} EngineServes(c: Workload, s: State, t: nat) returns (ms: seq<Move>)
    requires |s.stages| == |s.sys.calls| == |c.needs| && Active(s, t) && |EngineUsers(s)| < c.permits
    requires s.stages[t].Holding?
    ensures Moves(c, s, ms) && |ms| == 3 * s.stages[t].runs
    ensures Finally(c, s, ms) == s.(stages := s.stages[t := Holding(0)])
    decreases s.stages[t].runs
  {
    if s.stages[t].runs == 0 {
      ms := [];
      assert s.stages[t := Holding(0)] == s.stages;
    } else {
      var back := s.(stages := s.stages[t := Holding(s.stages[t].runs - 1)]);
      assert EngineUsers(back) == EngineUsers(s);
      var rest := EngineServes(c, back, t);
      EngineRound(c, s, t, rest);
      ms := [Ask(t)] + ([Acquire(t)] + ([EngineDone(t)] + rest));
      assert back.stages[t := Holding(0)] == s.stages[t := Holding(0)];
    }
  }

  lemma {:induction false} LockInvAlways(c: Workload, s: State, ms: seq<Move>)
    requires LockInv(c, s) && SoundWorkload(c) && Moves(c, s, ms)
    ensures LockInv(c, Finally(c, s, ms))
    decreases |ms|
  {
    if ms != [] {
      MoveKeepsInv(c, s, ms[0]);
      LockInvAlways(c, AfterMove(c, s, ms[0]), ms[1..]);
    }
  }

  /**
   Whatever has happened since the start, either every call has returned or some move is
   possible; and no more than `n * (2n + 12)` moves have been made.
   */
  lemma EveryRunProgresses(c: Workload, s: State, ms: seq<Move>, t: nat)
    requires Start(c, s) && SoundWorkload(c) && Moves(c, s, ms)
    requires t < |Finally(c, s, ms).sys.calls| && !Finally(c, s, ms).sys.calls[t].Returned?
    ensures Alive(c, Finally(c, s, ms)) && Work(ms) <= |c.needs| * (2 * |c.needs| + 12)
  {
    InitialInv(c.params, s.sys);
    LockInvAlways(c, s, ms);
    NoDeadlock(c, Finally(c, s, ms), t);
    ProgressBound(c, s, ms);
  }

  // ---------------------------------------------------------------- what the locks guarantee

  /** Two holders of one workspace lock are both readers. */
  ghost predicate Exclusive(c: Workload, s: State) {
    forall t: nat, u: nat, ws :: t != u && Holder(c, s, t, ws) && Holder(c, s, u, ws) ==>
        c.needs[t].shared && c.needs[u].shared
  }

  /** And the engine serves no more calls than it has permits. */
  ghost predicate LocksSafe(c: Workload, s: State) {
    Exclusive(c, s) && |EngineUsers(s)| <= c.permits
  }

  /** A step of the cache makes nobody a holder. */
  lemma CacheMoveHolders(c: Workload, s: State, l: Label, u: nat, ws: string)
    requires LockInv(c, s) && SoundWorkload(c) && CanMove(c, s, CacheMove(l))
        && Holder(c, AfterMove(c, s, CacheMove(l)), u, ws)
    ensures Holder(c, s, u, ws) && AfterMove(c, s, CacheMove(l)).stages[u] == s.stages[u]
  {
    if !l.Tick? {
      CacheMoveEffect(c, s, l);
      if u != l.t { StepFrame(c.params, s.sys, l, u); }
    }
  }

  lemma CacheMoveLocks(c: Workload, s: State, l: Label)
    requires LockInv(c, s) && SoundWorkload(c) && CanMove(c, s, CacheMove(l)) && LocksSafe(c, s)
    ensures LocksSafe(c, AfterMove(c, s, CacheMove(l)))
  {
    var s' := AfterMove(c, s, CacheMove(l));
    forall t: nat, u: nat, ws | t != u && Holder(c, s', t, ws) && Holder(c, s', u, ws)
      ensures c.needs[t].shared && c.needs[u].shared
    {
      CacheMoveHolders(c, s, l, t, ws);
      CacheMoveHolders(c, s, l, u, ws);
    }
    StepCount(c.params, s.sys, l);
    forall t | t in EngineUsers(s') ensures t in EngineUsers(s) {
      CacheMoveHolders(c, s, l, t, c.needs[t].ws);
    }
    SubsetSize(EngineUsers(s'), EngineUsers(s));
  }

  /** A lock is granted past readers to a reader alone, and past nobody to a writer. */
  lemma StageMoveExclusive(c: Workload, s: State, m: Move)
    requires LockInv(c, s) && CanMove(c, s, m) && !m.CacheMove? && Exclusive(c, s)
    ensures Exclusive(c, AfterMove(c, s, m))
  {
    var s' := AfterMove(c, s, m);
    forall t: nat, u: nat, ws | t != u && Holder(c, s', t, ws) && Holder(c, s', u, ws)
      ensures c.needs[t].shared && c.needs[u].shared
    {
      assert t != Mover(m) ==> Holder(c, s, t, ws);
      assert u != Mover(m) ==> Holder(c, s, u, ws);
      assert !m.Lock? ==> Holder(c, s, Mover(m), c.needs[Mover(m)].ws) || !Holds(s'.stages[Mover(m)]);
    }
  }

  lemma StageMoveEngine(c: Workload, s: State, m: Move)
    requires LockInv(c, s) && CanMove(c, s, m) && !m.CacheMove? && |EngineUsers(s)| <= c.permits
    ensures |EngineUsers(AfterMove(c, s, m))| <= c.permits
  {
    var before, after := EngineUsers(s), EngineUsers(AfterMove(c, s, m));
    if m.Acquire? {
      assert after == before + {m.t};
    } else {
      SubsetSize(after, before);
    }
  }

  /** In every run writers exclude everybody and the engine's limit is kept. */
  lemma {:induction false} LocksAlwaysSafe(c: Workload, s: State, ms: seq<Move>)
    requires LockInv(c, s) && SoundWorkload(c) && Moves(c, s, ms) && LocksSafe(c, s)
    ensures LocksSafe(c, Finally(c, s, ms))
    decreases |ms|
  {
    if ms != [] {
      MoveKeepsInv(c, s, ms[0]);
      if ms[0].CacheMove? {
        CacheMoveLocks(c, s, ms[0].l);
      } else {
        StageMoveExclusive(c, s, ms[0]);
        StageMoveEngine(c, s, ms[0]);
      }
      LocksAlwaysSafe(c, AfterMove(c, s, ms[0]), ms[1..]);
    }
  }

  lemma StartLocksSafe(c: Workload, s: State)
    requires Start(c, s)
    ensures LocksSafe(c, s)
  {
    assert EngineUsers(s) == {};
  }

  /** From the start, that is, whatever the schedule. */
  lemma LocksSafeFromStart(c: Workload, s: State, ms: seq<Move>)
    requires Start(c, s) && SoundWorkload(c) && Moves(c, s, ms)
    ensures LocksSafe(c, Finally(c, s, ms))
  {
    InitialInv(c.params, s.sys);
    StartLocksSafe(c, s);
    LocksAlwaysSafe(c, s, ms);
  }
}
