/**
 Who changes a workspace, over whole runs: only requests entitled to write there, and a
 workspace loses a file only to `fs_delete` by one of its owners.
 */
module Isolation {
  import opened Base
  import opened Paths
  import opened Quota
  import opened Store
  import opened Access
  import opened Service

  // ---------------------------------------------------------------- entitlement

  /** The request is authorised to write in that workspace, and to delete if that is what it does. */
  predicate MayChange(cfg: Config, r: Request, ws: string) {
    && Target(cfg, r).Ok? && Target(cfg, r).value.id == ws
    && CanWrite(Target(cfg, r).value.access)
    && (r.tool.FsDelete? ==> CanDelete(Target(cfg, r).value.access))
  }

  /** Checked and running calls act for the workspace their request was granted. */
  ghost predicate Granted(cfg: Config, s: State) {
    forall t :: 0 <= t < |s.calls| && t < |cfg.requests| && (s.calls[t].Checked? || s.calls[t].Running?) ==>
      MayChange(cfg, cfg.requests[t], s.calls[t].ws)
  }

  lemma GrantedKept(cfg: Config, s: State, l: Label)
    requires Granted(cfg, s) && Enabled(cfg, s, l)
    ensures Granted(cfg, Step(cfg, s, l))
  {
    var s' := Step(cfg, s, l);
    assert s'.calls == s.calls[l.t := s'.calls[l.t]];
  }

  lemma TouchedMayChange(cfg: Config, s: State, l: Label)
    requires Granted(cfg, s) && Enabled(cfg, s, l) && Touched(cfg, s, l).Some?
    ensures MayChange(cfg, cfg.requests[l.t], Touched(cfg, s, l).value)
  {
  }

  lemma TouchedOnly(cfg: Config, s: State, l: Label, s': State, ws: string)
    requires GoodStep(cfg, s, l, s')
    ensures Leaves(s'.fs, RootOf(cfg, ws)) != Leaves(s.fs, RootOf(cfg, ws)) ==> Touched(cfg, s, l) == Some(ws)
  {
    if s'.fs != s.fs && Touched(cfg, s, l) != Some(ws) {
      OtherWorkspace(cfg, s.fs, s'.fs, Touched(cfg, s, l).value, ws);
    }
  }

  /** A step that changes the files of a workspace is a step of a request entitled to write there. */
  lemma StepIsolated(cfg: Config, s: State, l: Label, ws: string)
    requires Inv(cfg, s) && SoundGrants(cfg) && Granted(cfg, s) && Enabled(cfg, s, l)
    ensures Leaves(Step(cfg, s, l).fs, RootOf(cfg, ws)) != Leaves(s.fs, RootOf(cfg, ws)) ==>
              MayChange(cfg, cfg.requests[l.t], ws)
  {
    EveryStep(cfg, s, l);
    if Touched(cfg, s, l).Some? { TouchedMayChange(cfg, s, l); }
    TouchedOnly(cfg, s, l, Step(cfg, s, l), ws);
  }

  /** While a call holds a lock no step of another call touches that workspace. */
  lemma LockExcludes(cfg: Config, s: State, l: Label, t: nat)
    requires Inv(cfg, s) && SoundGrants(cfg) && Enabled(cfg, s, l)
    requires t < |s.calls| && s.calls[t].Running? && l.t != t
    ensures Leaves(Step(cfg, s, l).fs, RootOf(cfg, s.calls[t].ws)) == Leaves(s.fs, RootOf(cfg, s.calls[t].ws))
    ensures Step(cfg, s, l).calls[t] == s.calls[t]
  {
    var ws, s' := s.calls[t].ws, Step(cfg, s, l);
    if Touched(cfg, s, l) == Some(ws) {
      LockStops(cfg, s, l, t);
    } else {
      EveryStep(cfg, s, l);
      TouchedOnly(cfg, s, l, s', ws);
    }
  }

  /** All that another call can do in a locked workspace is check. */
  lemma LockStops(cfg: Config, s: State, l: Label, t: nat)
    requires Inv(cfg, s) && SoundGrants(cfg) && Enabled(cfg, s, l)
    requires t < |s.calls| && s.calls[t].Running? && l.t != t && Touched(cfg, s, l) == Some(s.calls[t].ws)
    ensures Leaves(Step(cfg, s, l).fs, RootOf(cfg, s.calls[t].ws)) == Leaves(s.fs, RootOf(cfg, s.calls[t].ws))
  {
    InvOneHolder(cfg, s);
    assert l.Check?;
    CheckLeaves(cfg, s, l, s.calls[t].ws);
  }

  // ---------------------------------------------------------------- the files of a workspace

  /** The files a workspace has, or had when the call that holds its lock took it. */
  ghost function FilesOf(cfg: Config, s: State, ws: string): map<Path, Node> {
    if t: nat :| t < |s.calls| && s.calls[t].Running? && s.calls[t].ws == ws then s.calls[t].before
    else Leaves(s.fs, RootOf(cfg, ws))
  }

  lemma FilesWhenFree(cfg: Config, s: State, ws: string)
    requires LockFree(s, ws)
    ensures FilesOf(cfg, s, ws) == Leaves(s.fs, RootOf(cfg, ws))
  {
  }

  /** No two calls hold one lock. */
  ghost predicate OneHolder(s: State) {
    forall t, u :: 0 <= t < |s.calls| && 0 <= u < |s.calls| && s.calls[t].Running? && s.calls[u].Running? ==>
      s.calls[t].ws == s.calls[u].ws ==> t == u
  }

  lemma InvOneHolder(cfg: Config, s: State)
    requires Inv(cfg, s)
    ensures OneHolder(s)
  {
  }

  lemma FilesWhenHeld(cfg: Config, s: State, t: nat)
    requires OneHolder(s) && t < |s.calls| && s.calls[t].Running?
    ensures FilesOf(cfg, s, s.calls[t].ws) == s.calls[t].before
  {
  }

  /** A step on another workspace, or one that only prepares, leaves them as they are. */
  lemma FilesSame(cfg: Config, s: State, s': State, ws: string)
    requires OneHolder(s) && OneHolder(s') && |s'.calls| == |s.calls|
    requires Leaves(s'.fs, RootOf(cfg, ws)) == Leaves(s.fs, RootOf(cfg, ws))
    requires forall t :: 0 <= t < |s.calls| ==>
               (s.calls[t].Running? && s.calls[t].ws == ws) == (s'.calls[t].Running? && s'.calls[t].ws == ws)
    requires forall t :: 0 <= t < |s.calls| && s.calls[t].Running? && s.calls[t].ws == ws ==> s'.calls[t] == s.calls[t]
    ensures FilesOf(cfg, s', ws) == FilesOf(cfg, s, ws)
  {
    if t: nat :| t < |s.calls| && s.calls[t].Running? && s.calls[t].ws == ws {
      FilesWhenHeld(cfg, s, t);
      FilesWhenHeld(cfg, s', t);
    } else {
      FilesWhenFree(cfg, s, ws);
      FilesWhenFree(cfg, s', ws);
    }
  }

  /** No tool but `fs_delete` leaves fewer files, and that one file fewer. */
  lemma FileToolCount(lim: Limits, fs: Tree, root: Path, order: seq<Path>, tool: Tool)
    requires IsFileTool(tool) && CanonicalRoot(fs, root)
    requires !RunFileTool(lim, fs, root, order, tool).Hangs?
    ensures var after, before := Leaves(RunFileTool(lim, fs, root, order, tool).tree, root), Leaves(fs, root);
            |after| + (if tool.FsDelete? then 1 else 0) >= |before|
  {
    var o, before := RunFileTool(lim, fs, root, order, tool), Leaves(fs, root);
    match tool
    case FsWrite(path, content, overwrite) =>
      WriteExact(lim, fs, root, order, path, content, overwrite);
      PutCount(before, root + CleanPath(path), File(content));
    case FsEdit(path, oldText, newText) =>
      EditToolExact(lim, fs, root, order, path, oldText, newText);
      if o.Success? {
        var full := root + CleanPath(path);
        var p, q :| EditsTo(lim, fs, order, full, oldText, newText, p, q);
        PutCount(before, full, File(p + newText + q));
      }
    case FsMove(src, dst) =>
      MoveExact(fs, root, src, dst);
      if o.Success? { assert UsageOf(Leaves(o.tree, root)).count == UsageOf(before).count; }
    case FsDelete(path, confirm) =>
      DeleteExact(lim, fs, root, path, confirm);
      if o.Success? { UsageSplit(before, Resolve(fs, root, path, false).path); }
  }

  /** What one step does to the files of a workspace. */
  ghost predicate FilesStep(cfg: Config, s: State, l: Label, s': State, ws: string) {
    && l.t < |cfg.requests|
    && var before, after := FilesOf(cfg, s, ws), FilesOf(cfg, s', ws);
       after == before ||
       (Touched(cfg, s, l) == Some(ws)
        && |after| + (if l.Direct? && cfg.requests[l.t].tool.FsDelete? then 1 else 0) >= |before|)
  }

  /** A step moves its own call, which holds no lock but that of the workspace it touches. */
  lemma StepCalls(cfg: Config, s: State, l: Label)
    requires Enabled(cfg, s, l)
    ensures var s' := Step(cfg, s, l);
            && |s'.calls| == |s.calls| && s'.calls == s.calls[l.t := s'.calls[l.t]]
            && (s.calls[l.t].Running? ==> Touched(cfg, s, l) == Some(s.calls[l.t].ws) && l.Commit?)
            && (s'.calls[l.t].Running? ==> Touched(cfg, s, l) == Some(s'.calls[l.t].ws) && (l.Engine? || s' == s))
  {
  }

  lemma UntouchedFiles(cfg: Config, s: State, l: Label, s': State, ws: string)
    requires OneHolder(s) && OneHolder(s') && l.t < |s.calls| == |s'.calls| == |cfg.requests|
    requires Touched(cfg, s, l) != Some(ws) && s'.calls == s.calls[l.t := s'.calls[l.t]]
    requires s.calls[l.t].Running? ==> Touched(cfg, s, l) == Some(s.calls[l.t].ws)
    requires s'.calls[l.t].Running? ==> Touched(cfg, s, l) == Some(s'.calls[l.t].ws)
    requires Leaves(s'.fs, RootOf(cfg, ws)) == Leaves(s.fs, RootOf(cfg, ws))
    ensures FilesStep(cfg, s, l, s', ws)
  {
    FilesSame(cfg, s, s', ws);
  }

  lemma DirectFiles(cfg: Config, s: State, l: Label, ws: string)
    requires Inv(cfg, s) && SoundGrants(cfg) && l.Direct? && Enabled(cfg, s, l) && Touched(cfg, s, l) == Some(ws)
    ensures FilesStep(cfg, s, l, Step(cfg, s, l), ws)
  {
    var r, s' := cfg.requests[l.t], Step(cfg, s, l);
    assert r in cfg.requests && WorkspaceId(ws);
    FilesWhenFree(cfg, s, ws);
    FilesWhenFree(cfg, s', ws);
    WithRootSound(cfg, s.fs, ws);
    FileToolCount(cfg.lim, WithRoot(cfg, s.fs, ws), RootOf(cfg, ws), l.order, r.tool);
  }

  /** A check makes at most directories. */
  lemma CheckLeaves(cfg: Config, s: State, l: Label, ws: string)
    requires Inv(cfg, s) && SoundGrants(cfg) && l.Check? && Enabled(cfg, s, l) && Touched(cfg, s, l) == Some(ws)
    ensures Leaves(Step(cfg, s, l).fs, RootOf(cfg, ws)) == Leaves(s.fs, RootOf(cfg, ws))
  {
    assert cfg.requests[l.t] in cfg.requests && WorkspaceId(ws);
    WithRootSound(cfg, s.fs, ws);
  }

  lemma EngineFiles(cfg: Config, s: State, l: Label, ws: string)
    requires l.Engine? && Enabled(cfg, s, l) && Touched(cfg, s, l) == Some(ws)
    requires OneHolder(s) && OneHolder(Step(cfg, s, l))
    ensures FilesStep(cfg, s, l, Step(cfg, s, l), ws)
  {
    var s' := Step(cfg, s, l);
    FilesWhenFree(cfg, s, ws);
    if l.output.None? {
      FilesWhenFree(cfg, s', ws);
    } else {
      FilesWhenHeld(cfg, s', l.t);
    }
  }

  lemma CommitFiles(cfg: Config, s: State, l: Label, ws: string)
    requires OneHolder(s) && l.Commit? && Enabled(cfg, s, l) && Touched(cfg, s, l) == Some(ws)
    requires Inv(cfg, s)
    ensures FilesStep(cfg, s, l, Step(cfg, s, l), ws)
  {
    var c, s' := s.calls[l.t], Step(cfg, s, l);
    OfficeCallAtomic(cfg, s, l);
    FilesWhenHeld(cfg, s, l.t);
    FilesWhenFree(cfg, s', ws);
    if s'.calls[l.t].ok { PutCount(c.before, c.final, s.fs[c.temp]); }
  }

  lemma EveryFilesStep(cfg: Config, s: State, l: Label, ws: string)
    requires Inv(cfg, s) && SoundGrants(cfg) && Enabled(cfg, s, l)
    ensures FilesStep(cfg, s, l, Step(cfg, s, l), ws)
  {
    var s' := Step(cfg, s, l);
    assert Inv(cfg, s')
        && (Touched(cfg, s, l) != Some(ws) ==> Leaves(s'.fs, RootOf(cfg, ws)) == Leaves(s.fs, RootOf(cfg, ws))) by {
      EveryStep(cfg, s, l);
      TouchedOnly(cfg, s, l, s', ws);
    }
    InvOneHolder(cfg, s);
    InvOneHolder(cfg, s');
    StepCalls(cfg, s, l);
    if Touched(cfg, s, l) != Some(ws) {
      UntouchedFiles(cfg, s, l, s', ws);
    } else {
      match l
      case Direct(_, _) => DirectFiles(cfg, s, l, ws);
      case Check(_, _, _, _) =>
        CheckLeaves(cfg, s, l, ws);
        FilesSame(cfg, s, s', ws);
      case Engine(_, _, _) => EngineFiles(cfg, s, l, ws);
      case Commit(_, _, _) => CommitFiles(cfg, s, l, ws);
    }
  }

  // ---------------------------------------------------------------- runs

  /**
   Along the run every step that changes the workspace, or its files once settled, belongs to
   a request satisfying `who`, and every step that costs it a file is an `fs_delete` of such.
   */
  ghost predicate ChangedOnlyBy(cfg: Config, s: State, labels: seq<Label>, ws: string, who: Request -> bool)
    requires Schedule(cfg, s, labels)
    decreases |labels|
  {
    labels == [] ||
    (var l, s' := labels[0], Step(cfg, s, labels[0]);
     var r := cfg.requests[l.t];
     && (Leaves(s'.fs, RootOf(cfg, ws)) != Leaves(s.fs, RootOf(cfg, ws)) ==> who(r))
     && (FilesOf(cfg, s', ws) != FilesOf(cfg, s, ws) ==> who(r))
     && (|FilesOf(cfg, s', ws)| < |FilesOf(cfg, s, ws)| ==> l.Direct? && r.tool.FsDelete? && who(r))
     && ChangedOnlyBy(cfg, s', labels[1..], ws, who))
  }

  /** Isolation over whole runs, for any reading of "entitled" that the grants imply. */
  lemma {:induction false} IsolationAlways(cfg: Config, s: State, labels: seq<Label>, ws: string, who: Request -> bool)
    requires Inv(cfg, s) && SoundGrants(cfg) && Granted(cfg, s) && Schedule(cfg, s, labels)
    requires forall r: Request :: MayChange(cfg, r, ws) ==> who(r)
    ensures ChangedOnlyBy(cfg, s, labels, ws, who)
    decreases |labels|
  {
    if labels != [] {
      var l, s' := labels[0], Step(cfg, s, labels[0]);
      StepIsolated(cfg, s, l, ws);
      EveryFilesStep(cfg, s, l, ws);
      if Touched(cfg, s, l).Some? { TouchedMayChange(cfg, s, l); }
      EveryStep(cfg, s, l);
      GrantedKept(cfg, s, l);
      IsolationAlways(cfg, s', labels[1..], ws, who);
    }
  }

  /** How many steps of a run are `fs_delete` calls by owners of the workspace. */
  function Deletions(cfg: Config, labels: seq<Label>, ws: string): nat {
    if labels == [] then 0
    else (if IsDeletion(cfg, labels[0], ws) then 1 else 0) + Deletions(cfg, labels[1..], ws)
  }

  predicate IsDeletion(cfg: Config, l: Label, ws: string) {
    && l.Direct? && l.t < |cfg.requests|
    && var r := cfg.requests[l.t];
       r.tool.FsDelete? && MayChange(cfg, r, ws) && CanDelete(Target(cfg, r).value.access)
  }

  /** A workspace loses at most one file for each `fs_delete` by an owner, and none otherwise. */
  lemma {:induction false} FilesOnlyDeleted(cfg: Config, s: State, labels: seq<Label>, ws: string)
    requires Inv(cfg, s) && SoundGrants(cfg) && Granted(cfg, s) && Schedule(cfg, s, labels)
    ensures |FilesOf(cfg, After(cfg, s, labels), ws)| + Deletions(cfg, labels, ws) >= |FilesOf(cfg, s, ws)|
    decreases |labels|
  {
    if labels != [] {
      var l := labels[0];
      EveryFilesStep(cfg, s, l, ws);
      if Touched(cfg, s, l).Some? { TouchedMayChange(cfg, s, l); }
      EveryStep(cfg, s, l);
      GrantedKept(cfg, s, l);
      FilesOnlyDeleted(cfg, Step(cfg, s, l), labels[1..], ws);
    }
  }

  // ---------------------------------------------------------------- personal and shared workspaces

  /** User `n` may write in the personal workspace of `n`, asking for it by name or not at all, and nobody else. */
  lemma PersonalIffOwn(cfg: Config, config: seq<WorkspaceConfig>, r: Request, n: nat)
    requires ValidConfig(config) && cfg.grants == GrantsOf(config)
    ensures MayChange(cfg, r, PersonalID(n)) <==> r.userId == n && (r.workspace == "" || r.workspace == PersonalID(n))
  {
    PersonalInjective(r.userId, n);
    GrantIffListed(config, r.userId);
  }

  /** The user's role in the workspace lets the request through. */
  ghost predicate HasRole(config: seq<WorkspaceConfig>, r: Request, ws: string) {
    exists g: WorkspaceGrant ::
      && g.id == ws && RoleOf(config, r.userId, g) && (g.access == "editor" || g.access == "owner")
      && (r.tool.FsDelete? ==> g.access == "owner")
  }

  /** In a shared workspace configured editors and owners may, owners alone may delete, and nobody else. */
  lemma SharedIffRole(cfg: Config, config: seq<WorkspaceConfig>, r: Request, ws: string)
    requires ValidConfig(config) && cfg.grants == GrantsOf(config) && ValidWorkspaceID(ws)
    ensures MayChange(cfg, r, ws) <==> r.workspace == ws && HasRole(config, r, ws)
  {
    assert PersonalID(r.userId)[..5] == "user-";
    var target := Target(cfg, r);
    if target.Ok? {
      AuthorizeIff(config, r.userId, r.workspace, true, r.tool.FsDelete?, target.value);
    }
    if r.workspace == ws && HasRole(config, r, ws) {
      var g: WorkspaceGrant :|
        && g.id == ws && RoleOf(config, r.userId, g) && (g.access == "editor" || g.access == "owner")
        && (r.tool.FsDelete? ==> g.access == "owner");
      AuthorizeIff(config, r.userId, ws, true, r.tool.FsDelete?, g);
    }
  }

  /** The three readings of "entitled". */
  function ByUser(n: nat): Request -> bool {
    (r: Request) => r.userId == n
  }

  ghost function ByRole(config: seq<WorkspaceConfig>, ws: string): Request -> bool {
    (r: Request) => HasRole(config, r, ws)
  }

  function ByGrant(cfg: Config, ws: string): Request -> bool {
    (r: Request) => MayChange(cfg, r, ws)
  }

  /** A server that has just started with a validated configuration. */
  ghost predicate Started(cfg: Config, config: seq<WorkspaceConfig>, s: State) {
    ValidConfig(config) && cfg.grants == GrantsOf(config) && Initial(cfg, s)
  }

  lemma StartedSound(cfg: Config, config: seq<WorkspaceConfig>, s: State)
    requires Started(cfg, config, s)
    ensures Inv(cfg, s) && Granted(cfg, s) && SoundGrants(cfg)
  {
    InitialSound(cfg, s);
    ValidConfigSound(cfg, config);
  }

  /** Every run changes the personal workspace of `n` by steps of user `n` alone. */
  lemma PersonalIsolation(cfg: Config, config: seq<WorkspaceConfig>, s: State, labels: seq<Label>, n: nat)
    requires Started(cfg, config, s) && Schedule(cfg, s, labels)
    ensures ChangedOnlyBy(cfg, s, labels, PersonalID(n), ByUser(n))
  {
    StartedSound(cfg, config, s);
    forall r: Request | MayChange(cfg, r, PersonalID(n)) ensures r.userId == n {
      PersonalIffOwn(cfg, config, r, n);
    }
    IsolationAlways(cfg, s, labels, PersonalID(n), ByUser(n));
  }

  /** Every run changes a shared workspace for configured editors and owners alone, and deletes for owners alone. */
  lemma SharedIsolation(cfg: Config, config: seq<WorkspaceConfig>, s: State, labels: seq<Label>, ws: string)
    requires Started(cfg, config, s) && Schedule(cfg, s, labels) && ValidWorkspaceID(ws)
    ensures ChangedOnlyBy(cfg, s, labels, ws, ByRole(config, ws))
  {
    StartedSound(cfg, config, s);
    forall r: Request | MayChange(cfg, r, ws) ensures HasRole(config, r, ws) {
      SharedIffRole(cfg, config, r, ws);
    }
    IsolationAlways(cfg, s, labels, ws, ByRole(config, ws));
  }

  /** Quota, isolation and retention of files together. */
  lemma ServiceSafe(cfg: Config, config: seq<WorkspaceConfig>, s: State, labels: seq<Label>, ws: string)
    requires Started(cfg, config, s) && Schedule(cfg, s, labels) && WorkspaceId(ws)
    requires forall w :: WorkspaceId(w) ==> WithinCaps(cfg.lim, Leaves(s.fs, RootOf(cfg, w)))
    ensures WithinCaps(cfg.lim, FilesOf(cfg, After(cfg, s, labels), ws))
    ensures ChangedOnlyBy(cfg, s, labels, ws, ByGrant(cfg, ws))
    ensures |FilesOf(cfg, After(cfg, s, labels), ws)| + Deletions(cfg, labels, ws) >= |Leaves(s.fs, RootOf(cfg, ws))|
  {
    StartedSound(cfg, config, s);
    InitialSound(cfg, s);
    QuotaAlways(cfg, s, labels);
    FilesWithinCaps(cfg, After(cfg, s, labels), ws);
    IsolationAlways(cfg, s, labels, ws, ByGrant(cfg, ws));
    FilesOnlyDeleted(cfg, s, labels, ws);
    FilesWhenFree(cfg, s, ws);
  }

  lemma FilesWithinCaps(cfg: Config, s: State, ws: string)
    requires Inv(cfg, s) && Caps(cfg, s) && WorkspaceId(ws)
    ensures WithinCaps(cfg.lim, FilesOf(cfg, s, ws))
  {
    InvOneHolder(cfg, s);
    if t: nat :| t < |s.calls| && s.calls[t].Running? && s.calls[t].ws == ws {
      FilesWhenHeld(cfg, s, t);
    } else {
      FilesWhenFree(cfg, s, ws);
    }
  }
}
