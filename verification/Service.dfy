/**
 The mutating tools of many callers, interleaved.  A file tool is one step under its
 workspace lock.  An Office tool takes three: a check before the lock, the engine's run,
 which takes the lock and leaves a temporary file, and the commit, which releases it.  A
 run is a list of labels; a label carries every choice the model does not make itself.
 */
module Service {
  import opened Base
  import opened Paths
  import opened Quota
  import opened TextEdit
  import opened Store
  import opened Access
  import Batch

  datatype Tool =
    | FsWrite(path: string, content: Bytes, overwrite: bool)
    | FsEdit(path: string, oldText: Bytes, newText: Bytes)
    | FsMove(src: string, dst: string)
    | FsDelete(path: string, confirm: bool)
    | DocCreate(path: string, overwrite: bool)
    | DocEdit(path: string)
    | SheetSetCells(path: string, sheet: string, cells: seq<Batch.SheetCell>)

  datatype Request = Request(userId: nat, workspace: string, tool: Tool)

  datatype Config = Config(base: Path, grants: Grants, lim: Limits, requests: seq<Request>)

  datatype Call =
    | Arrived
    | Checked(ws: string, final: Path, isNew: bool)
    | Running(ws: string, final: Path, isNew: bool, temp: Path, before: map<Path, Node>)
    | Returned(ok: bool)

  datatype State = State(fs: Tree, calls: seq<Call>)

  datatype Label =
    | Direct(t: nat, order: seq<Path>)
    | Check(t: nat, order: seq<Path>, shapeOk: bool, inputOk: bool)
    | Engine(t: nat, tempName: string, output: Option<Bytes>)
    | Commit(t: nat, order: seq<Path>, inputOk: bool)

  // ---------------------------------------------------------------- roots

  function RootOf(cfg: Config, ws: string): Path {
    cfg.base + [ws]
  }

  /** `Workspace.Root`: the root directory exists from here on. */
  function WithRoot(cfg: Config, fs: Tree, ws: string): Tree {
    MkdirAll(fs, RootOf(cfg, ws))
  }

  /** A workspace id that may be granted: personal, or one a configuration can declare. */
  ghost predicate WorkspaceId(ws: string) {
    (exists n: nat :: ws == PersonalID(n)) || ValidWorkspaceID(ws)
  }

  predicate IsFileTool(tool: Tool) {
    tool.FsWrite? || tool.FsEdit? || tool.FsMove? || tool.FsDelete?
  }

  /** The workspace a request acts on, if it is authorised. */
  function Target(cfg: Config, r: Request): Result<WorkspaceGrant, string> {
    Authorize(cfg.grants, r.userId, r.workspace, true, r.tool.FsDelete?)
  }

  ghost predicate LockFree(s: State, ws: string) {
    forall t :: 0 <= t < |s.calls| && s.calls[t].Running? ==> s.calls[t].ws != ws
  }

  // ---------------------------------------------------------------- steps

  function RunFileTool(lim: Limits, fs: Tree, root: Path, order: seq<Path>, tool: Tool): Outcome
    requires IsFileTool(tool)
  {
    match tool
    case FsWrite(path, content, overwrite) => WriteTool(lim, fs, root, order, path, content, overwrite)
    case FsEdit(path, oldText, newText) => EditTool(lim, fs, root, order, path, oldText, newText)
    case FsMove(src, dst) => MoveTool(fs, root, src, dst)
    case FsDelete(path, confirm) => DeleteTool(lim, fs, root, path, confirm)
  }

  /** `sheet_set_cells` refuses a bad batch; the other shape checks are the label's choice. */
  ghost predicate ShapeOk(tool: Tool, shapeOk: bool) {
    shapeOk && (tool.SheetSetCells? ==> Batch.ValidBatch(tool.sheet, tool.cells))
  }

  function RunCheck(lim: Limits, fs: Tree, root: Path, order: seq<Path>, tool: Tool, inputOk: bool): Precheck
    requires !IsFileTool(tool)
  {
    if tool.DocCreate? then CreatePrecheck(lim, fs, root, order, tool.path, tool.overwrite)
    else EditPrecheck(fs, root, tool.path, inputOk)
  }

  function TempPath(final: Path, tempName: string): Path {
    Parent(final) + [tempName]
  }

  /** The engine can place its output: the way is open, the name is fresh, and an edit finds its file. */
  ghost predicate Placeable(fs: Tree, root: Path, final: Path, tool: Tool, tempName: string) {
    && PlainName(tempName)
    && ParentsUsable(fs, root, final)
    && TempPath(final, tempName) !in fs && TempPath(final, tempName) != final
    && (!tool.DocCreate? ==> final in fs && fs[final].File?)
  }

  ghost predicate Enabled(cfg: Config, s: State, l: Label) {
    && l.t < |s.calls| && |s.calls| == |cfg.requests|
    && var r := cfg.requests[l.t];
    match l
    case Direct(t, order) =>
      && s.calls[t].Arrived? && IsFileTool(r.tool)
      && (Target(cfg, r).Ok? ==>
            var ws := Target(cfg, r).value.id;
            && LockFree(s, ws)
            && WalkOrder(WithRoot(cfg, s.fs, ws), RootOf(cfg, ws), order)
            && !RunFileTool(cfg.lim, WithRoot(cfg, s.fs, ws), RootOf(cfg, ws), order, r.tool).Hangs?)
    case Check(t, order, shapeOk, inputOk) =>
      && s.calls[t].Arrived? && !IsFileTool(r.tool)
      && (Target(cfg, r).Ok? && ShapeOk(r.tool, shapeOk) ==>
            var ws := Target(cfg, r).value.id;
            && WalkOrder(WithRoot(cfg, s.fs, ws), RootOf(cfg, ws), order)
            && !RunCheck(cfg.lim, WithRoot(cfg, s.fs, ws), RootOf(cfg, ws), order, r.tool, inputOk).Stuck?)
    case Engine(t, tempName, output) =>
      && s.calls[t].Checked? && LockFree(s, s.calls[t].ws)
      && (output.Some? ==> Placeable(s.fs, RootOf(cfg, s.calls[t].ws), s.calls[t].final, r.tool, tempName))
    case Commit(t, order, _) =>
      && s.calls[t].Running?
      && WalkOrder(s.fs, RootOf(cfg, s.calls[t].ws), order)
  }

  ghost function Step(cfg: Config, s: State, l: Label): State
    requires Enabled(cfg, s, l)
  {
    var r := cfg.requests[l.t];
    match l
    case Direct(t, order) =>
      if Target(cfg, r).Err? then Done(s, t, s.fs, false)
      else
        var ws := Target(cfg, r).value.id;
        var o := RunFileTool(cfg.lim, WithRoot(cfg, s.fs, ws), RootOf(cfg, ws), order, r.tool);
        Done(s, t, o.tree, o.Success?)
    case Check(t, order, shapeOk, inputOk) =>
      if Target(cfg, r).Err? || !ShapeOk(r.tool, shapeOk) then Done(s, t, s.fs, false)
      else
        var ws := Target(cfg, r).value.id;
        var fs := WithRoot(cfg, s.fs, ws);
        var p := RunCheck(cfg.lim, fs, RootOf(cfg, ws), order, r.tool, inputOk);
        State(fs, s.calls[t := if p.Proceed? then Checked(ws, p.final, p.isNew) else Returned(false)])
    case Engine(t, tempName, output) =>
      if output.None? then Done(s, t, s.fs, false)
      else
        var c := s.calls[t];
        var temp := TempPath(c.final, tempName);
        State(MkdirAll(s.fs, Parent(c.final))[temp := File(output.value)],
              s.calls[t := Running(c.ws, c.final, c.isNew, temp, Leaves(s.fs, RootOf(cfg, c.ws)))])
    case Commit(t, order, inputOk) =>
      var c := s.calls[t];
      var o := CommitOffice(cfg.lim, s.fs, order, c.final, c.temp, c.temp, c.isNew, inputOk);
      if o.Hangs? then s else Done(s, t, o.tree, o.Success?)
  }

  function Done(s: State, t: nat, fs: Tree, ok: bool): State
    requires t < |s.calls|
  {
    State(fs, s.calls[t := Returned(ok)])
  }

  ghost predicate Schedule(cfg: Config, s: State, labels: seq<Label>)
    decreases |labels|
  {
    labels == [] || (Enabled(cfg, s, labels[0]) && Schedule(cfg, Step(cfg, s, labels[0]), labels[1..]))
  }

  ghost function After(cfg: Config, s: State, labels: seq<Label>): State
    requires Schedule(cfg, s, labels)
    decreases |labels|
  {
    if labels == [] then s else After(cfg, Step(cfg, s, labels[0]), labels[1..])
  }

  // ---------------------------------------------------------------- the invariant

  /** The base directory is there; workspace roots are directories; no symlinks from the base down. */
  ghost predicate SoundTree(cfg: Config, fs: Tree) {
    && ValidTree(fs) && cfg.base in fs && fs[cfg.base] == Dir
    && (forall ws :: WorkspaceId(ws) && RootOf(cfg, ws) in fs ==> fs[RootOf(cfg, ws)] == Dir)
    && forall p :: p in fs && cfg.base <= p ==> !fs[p].Link?
  }

  /** Without symlinks the temporary file stands beside the target, where its name says. */
  ghost predicate TempBeside(fs: Tree, root: Path, final: Path, temp: Path) {
    TempPlaced(fs, root, final, temp, temp) && root < temp && Parent(temp) == Parent(final)
  }

  /** A call between its check and its end knows a proper place inside its workspace. */
  ghost predicate SoundCall(cfg: Config, fs: Tree, tool: Tool, c: Call) {
    && (c.Checked? ==>
          && WorkspaceId(c.ws) && RootOf(cfg, c.ws) in fs
          && RootOf(cfg, c.ws) <= c.final && PlainNames(c.final)
          && (tool.DocCreate? ==> RootOf(cfg, c.ws) < c.final))
    && (c.Running? ==>
          && WorkspaceId(c.ws)
          && TempBeside(fs, RootOf(cfg, c.ws), c.final, c.temp)
          && c.before == Leaves(fs, RootOf(cfg, c.ws)) - {c.temp})
  }

  ghost predicate Inv(cfg: Config, s: State) {
    && SoundTree(cfg, s.fs)
    && |s.calls| == |cfg.requests|
    && (forall t :: 0 <= t < |s.calls| ==> SoundCall(cfg, s.fs, cfg.requests[t].tool, s.calls[t]))
    && forall t, u :: 0 <= t < u < |s.calls| && s.calls[t].Running? && s.calls[u].Running? ==>
        s.calls[t].ws != s.calls[u].ws
  }

  /** Every grant names a proper workspace id. */
  ghost predicate SoundGrants(cfg: Config) {
    forall r :: r in cfg.requests && Target(cfg, r).Ok? ==> WorkspaceId(Target(cfg, r).value.id)
  }

  /** A validated configuration only grants proper workspace ids. */
  lemma ValidConfigSound(cfg: Config, config: seq<WorkspaceConfig>)
    requires ValidConfig(config) && cfg.grants == GrantsOf(config)
    ensures SoundGrants(cfg)
  {
    forall r | r in cfg.requests && Target(cfg, r).Ok? ensures WorkspaceId(Target(cfg, r).value.id) {
      GrantIffListed(config, r.userId);
    }
  }

  lemma WorkspaceIdPlain(ws: string)
    requires WorkspaceId(ws)
    ensures PlainName(ws)
  {
    if ValidWorkspaceID(ws) {
      assert ws[0] != '.';
    } else {
      var n: nat :| ws == PersonalID(n);
      assert ws[0] == 'u';
    }
  }

  /** The subtrees of different workspaces are disjoint. */
  lemma RootsApart(cfg: Config, a: string, b: string, p: Path)
    requires a != b && RootOf(cfg, a) <= p
    ensures !(RootOf(cfg, b) <= p)
  {
    assert p[|cfg.base|] == a;
  }

  /** A change under one root is invisible in every other workspace. */
  lemma OtherWorkspace(cfg: Config, fs: Tree, fs': Tree, a: string, b: string)
    requires OnlyUnder(RootOf(cfg, a), fs, fs') && a != b
    ensures Leaves(fs', RootOf(cfg, b)) == Leaves(fs, RootOf(cfg, b))
  {
    forall p | (p in fs || p in fs') && RootOf(cfg, b) <= p
      ensures (p in fs' <==> p in fs) && (p in fs ==> p in fs' && fs'[p] == fs[p])
    {
      RootsApart(cfg, b, a, p);
    }
  }

  /** A new directory below an existing one keeps the tree a tree. */
  lemma NewDir(fs: Tree, p: Path)
    requires ValidTree(fs) && p != [] && p !in fs && Parent(p) in fs && fs[Parent(p)] == Dir && PlainName(p[|p| - 1])
    ensures ValidTree(fs[p := Dir]) && forall other :: Leaves(fs[p := Dir], other) == Leaves(fs, other)
  {
    var fs' := fs[p := Dir];
    forall q | q in fs' && q != [] ensures Parent(q) in fs' && fs'[Parent(q)] == Dir && PlainName(q[|q| - 1]) {
      assert q != p ==> q in fs;
    }
  }

  lemma WithRootSound(cfg: Config, fs: Tree, ws: string)
    requires SoundTree(cfg, fs) && WorkspaceId(ws)
    ensures var fs' := WithRoot(cfg, fs, ws);
            && SoundTree(cfg, fs') && CanonicalRoot(fs', RootOf(cfg, ws)) && OnlyUnder(RootOf(cfg, ws), fs, fs')
            && (forall other :: Leaves(fs', other) == Leaves(fs, other))
            && (forall p :: p in fs ==> p in fs' && fs'[p] == fs[p])
  {
    var root := RootOf(cfg, ws);
    WorkspaceIdPlain(ws);
    assert Parent(root) == cfg.base;
    if root !in fs {
      assert MkdirAll(fs, root) == fs[root := Dir];
      NewDir(fs, root);
    }
  }

  // ---------------------------------------------------------------- one change under one root

  ghost predicate Linkless(m: map<Path, Node>) {
    forall p :: p in m ==> m[p].File?
  }

  lemma SoundLinkless(cfg: Config, fs: Tree, ws: string)
    requires SoundTree(cfg, fs)
    ensures Linkless(Leaves(fs, RootOf(cfg, ws)))
  {
    forall p | p in Leaves(fs, RootOf(cfg, ws)) ensures Leaves(fs, RootOf(cfg, ws))[p].File? {
      assert cfg.base <= RootOf(cfg, ws) <= p;
    }
  }

  /** The new tree differs from the old one inside one workspace, soundly. */
  ghost predicate Change(cfg: Config, fs: Tree, fs': Tree, ws: string) {
    && WorkspaceId(ws)
    && CanonicalRoot(fs', RootOf(cfg, ws)) && OnlyUnder(RootOf(cfg, ws), fs, fs')
    && Linkless(Leaves(fs', RootOf(cfg, ws)))
  }

  lemma ChangeKeepsTree(cfg: Config, fs: Tree, fs': Tree, ws: string)
    requires SoundTree(cfg, fs) && Change(cfg, fs, fs', ws)
    ensures SoundTree(cfg, fs')
  {
    var root := RootOf(cfg, ws);
    assert Parent(root) == cfg.base;
    forall other | WorkspaceId(other) && RootOf(cfg, other) in fs' ensures fs'[RootOf(cfg, other)] == Dir {
      if other != ws { RootsApart(cfg, other, ws, RootOf(cfg, other)); }
    }
    forall p | p in fs' && cfg.base <= p ensures !fs'[p].Link? {
      if root <= p && fs'[p] != Dir { assert p in Leaves(fs', root); }
    }
  }

  /** Calls of other workspaces do not notice the change. */
  lemma ChangeKeepsCall(cfg: Config, fs: Tree, fs': Tree, ws: string, tool: Tool, c: Call)
    requires SoundTree(cfg, fs) && Change(cfg, fs, fs', ws) && SoundCall(cfg, fs, tool, c)
    requires c.Running? ==> c.ws != ws
    ensures SoundCall(cfg, fs', tool, c)
  {
    if c.Checked? && c.ws != ws {
      RootsApart(cfg, c.ws, ws, RootOf(cfg, c.ws));
    }
    if c.Running? {
      var root := RootOf(cfg, c.ws);
      RootsApart(cfg, c.ws, ws, root);
      RootsApart(cfg, c.ws, ws, c.final);
      RootsApart(cfg, c.ws, ws, c.temp);
      ChangeKeepsTree(cfg, fs, fs', ws);
      OtherWorkspace(cfg, fs, fs', ws, c.ws);
    }
  }

  /** A call ends, having changed only its workspace, which no other call has locked. */
  lemma DoneKeepsInv(cfg: Config, s: State, t: nat, fs': Tree, ws: string, c: Call)
    requires Inv(cfg, s) && t < |s.calls| && Change(cfg, s.fs, fs', ws)
    requires forall u :: 0 <= u < |s.calls| && u != t && s.calls[u].Running? ==> s.calls[u].ws != ws
    requires SoundCall(cfg, fs', cfg.requests[t].tool, c) && (c.Running? ==> c.ws == ws)
    ensures Inv(cfg, State(fs', s.calls[t := c]))
  {
    ChangeKeepsTree(cfg, s.fs, fs', ws);
    forall u | 0 <= u < |s.calls| && u != t ensures SoundCall(cfg, fs', cfg.requests[u].tool, s.calls[u]) {
      ChangeKeepsCall(cfg, s.fs, fs', ws, cfg.requests[u].tool, s.calls[u]);
    }
  }

  // ---------------------------------------------------------------- what the tools do

  /** A tool changes only its own workspace, soundly, and keeps its caps; a failure changes no file. */
  ghost predicate GoodTool(lim: Limits, fs: Tree, root: Path, o: Outcome) {
    o.Hangs? ||
    (&& CanonicalRoot(o.tree, root) && OnlyUnder(root, fs, o.tree) && Linkless(Leaves(o.tree, root))
     && (WithinCaps(lim, Leaves(fs, root)) ==> WithinCaps(lim, Leaves(o.tree, root)))
     && (o.Failure? ==> Leaves(o.tree, root) == Leaves(fs, root)))
  }

  lemma WriteIsGood(lim: Limits, fs: Tree, root: Path, order: seq<Path>, path: string, content: Bytes, overwrite: bool)
    requires CanonicalRoot(fs, root) && Linkless(Leaves(fs, root)) && WalkOrder(fs, root, order)
    ensures GoodTool(lim, fs, root, WriteTool(lim, fs, root, order, path, content, overwrite))
  {
    WriteExact(lim, fs, root, order, path, content, overwrite);
    if WriteTool(lim, fs, root, order, path, content, overwrite).Success? && WithinCaps(lim, Leaves(fs, root)) {
      WriteKeepsCaps(lim, fs, root, order, path, content, overwrite);
    }
  }

  lemma EditIsGood(lim: Limits, fs: Tree, root: Path, order: seq<Path>, path: string, oldText: Bytes, newText: Bytes)
    requires CanonicalRoot(fs, root) && Linkless(Leaves(fs, root)) && WalkOrder(fs, root, order)
    ensures GoodTool(lim, fs, root, EditTool(lim, fs, root, order, path, oldText, newText))
  {
    EditToolExact(lim, fs, root, order, path, oldText, newText);
    if EditTool(lim, fs, root, order, path, oldText, newText).Success? && WithinCaps(lim, Leaves(fs, root)) {
      EditKeepsCaps(lim, fs, root, order, path, oldText, newText);
    }
  }

  lemma SameContents(before: map<Path, Node>, after: map<Path, Node>)
    requires Linkless(before) && Contents(after) == Contents(before)
    ensures Linkless(after)
  {
    forall p | p in after ensures after[p].File? {
      ContentsMember(after, after[p]);
      ContentsMember(before, after[p]);
    }
  }

  lemma MoveIsGood(lim: Limits, fs: Tree, root: Path, src: string, dst: string)
    requires CanonicalRoot(fs, root) && Linkless(Leaves(fs, root))
    ensures GoodTool(lim, fs, root, MoveTool(fs, root, src, dst))
  {
    var o := MoveTool(fs, root, src, dst);
    MoveExact(fs, root, src, dst);
    if o.Success? {
      assert Contents(Leaves(o.tree, root)) == Contents(Leaves(fs, root));
      assert UsageOf(Leaves(o.tree, root)) == UsageOf(Leaves(fs, root));
      SameContents(Leaves(fs, root), Leaves(o.tree, root));
    }
  }

  lemma DeleteIsGood(lim: Limits, fs: Tree, root: Path, path: string, confirm: bool)
    requires CanonicalRoot(fs, root) && Linkless(Leaves(fs, root))
    ensures GoodTool(lim, fs, root, DeleteTool(lim, fs, root, path, confirm))
  {
    DeleteExact(lim, fs, root, path, confirm);
    if DeleteTool(lim, fs, root, path, confirm).Success? && WithinCaps(lim, Leaves(fs, root)) {
      DropKeepsCaps(lim, Leaves(fs, root), Resolve(fs, root, path, false).path);
    }
  }

  lemma FileToolEffect(lim: Limits, fs: Tree, root: Path, order: seq<Path>, tool: Tool)
    requires IsFileTool(tool) && CanonicalRoot(fs, root) && Linkless(Leaves(fs, root)) && WalkOrder(fs, root, order)
    ensures GoodTool(lim, fs, root, RunFileTool(lim, fs, root, order, tool))
  {
    match tool
    case FsWrite(path, content, overwrite) => WriteIsGood(lim, fs, root, order, path, content, overwrite);
    case FsEdit(path, oldText, newText) => EditIsGood(lim, fs, root, order, path, oldText, newText);
    case FsMove(src, dst) => MoveIsGood(lim, fs, root, src, dst);
    case FsDelete(path, confirm) => DeleteIsGood(lim, fs, root, path, confirm);
  }

  /** Placing the engine's output adds directories and one temporary file. */
  lemma EnginePlaces(fs: Tree, root: Path, final: Path, tool: Tool, tempName: string, data: Bytes)
    requires CanonicalRoot(fs, root) && root < final && PlainNames(final) && Placeable(fs, root, final, tool, tempName)
    requires Linkless(Leaves(fs, root))
    ensures var temp := TempPath(final, tempName);
            var fs' := MkdirAll(fs, Parent(final))[temp := File(data)];
            && TempBeside(fs', root, final, temp) && OnlyUnder(root, fs, fs') && Linkless(Leaves(fs', root))
            && Leaves(fs', root) - {temp} == Leaves(fs, root)
            && fs'[temp] == File(data)
  {
    var temp := TempPath(final, tempName);
    EngineDirs(fs, root, final, tempName);
    var made := MkdirAll(fs, Parent(final));
    PutLeaf(made, root, temp, File(data));
    assert Leaves(made, root)[temp := File(data)] - {temp} == Leaves(made, root);
    if final in fs && fs[final] != Dir {
      assert final in Leaves(fs, root);
    }
  }

  /** The directories an engine's output may need. */
  lemma EngineDirs(fs: Tree, root: Path, final: Path, tempName: string)
    requires CanonicalRoot(fs, root) && root < final && PlainNames(final) && ParentsUsable(fs, root, final)
    requires TempPath(final, tempName) !in fs
    ensures var made, dir, temp := MkdirAll(fs, Parent(final)), Parent(final), TempPath(final, tempName);
            && CanonicalRoot(made, root) && OnlyUnder(root, fs, made) && Leaves(made, root) == Leaves(fs, root)
            && dir in made && made[dir] == Dir && Parent(temp) == dir && root < temp && temp !in made
            && (final in made <==> final in fs) && (final in fs ==> made[final] == fs[final])
  {
    var dir := Parent(final);
    assert root <= dir < final;
    MkdirAllEffect(fs, root, dir);
    DirsKeepLeaves(root, fs, MkdirAll(fs, dir), dir, root);
    assert !(TempPath(final, tempName) <= dir) && !(final <= dir);
  }

  /** What a check lets through is a proper place in the workspace. */
  lemma CheckSound(cfg: Config, fs: Tree, ws: string, order: seq<Path>, tool: Tool, inputOk: bool)
    requires CanonicalRoot(fs, RootOf(cfg, ws)) && !IsFileTool(tool) && WorkspaceId(ws)
    requires Linkless(Leaves(fs, RootOf(cfg, ws)))
    ensures var p := RunCheck(cfg.lim, fs, RootOf(cfg, ws), order, tool, inputOk);
            p.Proceed? ==>
              && RootOf(cfg, ws) <= p.final && PlainNames(p.final)
              && (tool.DocCreate? ==> RootOf(cfg, ws) < p.final)
  {
    var root := RootOf(cfg, ws);
    if tool.DocCreate? {
      ResolveTargetExact(fs, root, tool.path);
      if StaysInside(tool.path) { LexicalChecksPass(fs, root, tool.path); }
    } else if Resolve(fs, root, tool.path, false).Accepted? {
      ResolveContained(fs, root, tool.path, false);
      ExistingPlain(fs, Resolve(fs, root, tool.path, false).path);
    }
  }

  // ---------------------------------------------------------------- every step

  /** The workspace a label touches, if any. */
  function Touched(cfg: Config, s: State, l: Label): Option<string> {
    if l.t >= |s.calls| || l.t >= |cfg.requests| then None
    else match s.calls[l.t]
      case Arrived => (match Target(cfg, cfg.requests[l.t]) case Ok(g) => Some(g.id) case Err(_) => None)
      case Checked(ws, _, _) => Some(ws)
      case Running(ws, _, _, _, _) => Some(ws)
      case Returned(_) => None
  }

  /** Caps hold in every workspace whose lock is free, and held when a running call took its lock. */
  ghost predicate Caps(cfg: Config, s: State) {
    && (forall ws :: WorkspaceId(ws) && LockFree(s, ws) ==> WithinCaps(cfg.lim, Leaves(s.fs, RootOf(cfg, ws))))
    && forall t :: 0 <= t < |s.calls| && s.calls[t].Running? ==> WithinCaps(cfg.lim, s.calls[t].before)
  }

  /** No other call than `t` holds the lock of `ws`. */
  ghost predicate OthersAway(s: State, t: nat, ws: string) {
    forall u :: 0 <= u < |s.calls| && u != t && s.calls[u].Running? ==> s.calls[u].ws != ws
  }

  lemma CapsKept(cfg: Config, s: State, t: nat, fs': Tree, ws: string, c: Call)
    requires Caps(cfg, s) && t < |s.calls| && OnlyUnder(RootOf(cfg, ws), s.fs, fs')
    requires s.calls[t].Running? ==> s.calls[t].ws == ws
    requires c.Running? ==> c.ws == ws && WithinCaps(cfg.lim, c.before)
    requires !c.Running? && WorkspaceId(ws) && OthersAway(s, t, ws) ==>
        WithinCaps(cfg.lim, Leaves(fs', RootOf(cfg, ws)))
    ensures Caps(cfg, State(fs', s.calls[t := c]))
  {
    var s' := State(fs', s.calls[t := c]);
    forall w | WorkspaceId(w) && LockFree(s', w) ensures WithinCaps(cfg.lim, Leaves(fs', RootOf(cfg, w))) {
      assert s'.calls[t] == c;
      assert forall u :: 0 <= u < |s.calls| && u != t ==> s'.calls[u] == s.calls[u];
      if w != ws {
        OtherWorkspace(cfg, s.fs, fs', ws, w);
        assert LockFree(s, w);
      } else {
        assert OthersAway(s, t, ws);
      }
    }
  }

  /** What every step guarantees: the invariant, the caps, and that only one workspace is touched. */
  ghost predicate GoodStep(cfg: Config, s: State, l: Label, s': State) {
    Inv(cfg, s') && (Caps(cfg, s) ==> Caps(cfg, s')) && Framed(cfg, s, l, s')
  }

  ghost predicate Framed(cfg: Config, s: State, l: Label, s': State) {
    s'.fs == s.fs || (Touched(cfg, s, l).Some? && OnlyUnder(RootOf(cfg, Touched(cfg, s, l).value), s.fs, s'.fs))
  }

  lemma RefusedCaps(cfg: Config, s: State, t: nat)
    requires Caps(cfg, s) && t < |s.calls| && !s.calls[t].Running?
    ensures Caps(cfg, Done(s, t, s.fs, false))
  {
    var s' := Done(s, t, s.fs, false);
    forall w | WorkspaceId(w) && LockFree(s', w) ensures LockFree(s, w) {
      forall u | 0 <= u < |s.calls| && s.calls[u].Running?
        ensures s.calls[u].ws != w
      {
        assert s'.calls[u] == s.calls[u];
      }
    }
  }

  lemma RefusedInv(cfg: Config, s: State, t: nat)
    requires Inv(cfg, s) && t < |s.calls|
    ensures Inv(cfg, Done(s, t, s.fs, false))
  {
  }

  /** A call ends without touching the tree. */
  lemma RefusedStep(cfg: Config, s: State, l: Label)
    requires Inv(cfg, s) && l.t < |s.calls| && !s.calls[l.t].Running?
    ensures GoodStep(cfg, s, l, Done(s, l.t, s.fs, false))
  {
    RefusedInv(cfg, s, l.t);
    if Caps(cfg, s) { RefusedCaps(cfg, s, l.t); }
  }

  /** One file tool under its lock, the root directory made first. */
  lemma FileToolChange(cfg: Config, s: State, t: nat, ws: string, order: seq<Path>, tool: Tool)
    requires Inv(cfg, s) && t < |s.calls| && WorkspaceId(ws) && IsFileTool(tool) && LockFree(s, ws)
    requires WalkOrder(WithRoot(cfg, s.fs, ws), RootOf(cfg, ws), order)
    requires !RunFileTool(cfg.lim, WithRoot(cfg, s.fs, ws), RootOf(cfg, ws), order, tool).Hangs?
    ensures var o := RunFileTool(cfg.lim, WithRoot(cfg, s.fs, ws), RootOf(cfg, ws), order, tool);
            && Change(cfg, s.fs, o.tree, ws)
            && (Caps(cfg, s) ==> WithinCaps(cfg.lim, Leaves(o.tree, RootOf(cfg, ws))))
  {
    var root, fs := RootOf(cfg, ws), WithRoot(cfg, s.fs, ws);
    WithRootSound(cfg, s.fs, ws);
    SoundLinkless(cfg, fs, ws);
    FileToolEffect(cfg.lim, fs, root, order, tool);
    assert Leaves(fs, root) == Leaves(s.fs, root);
  }

  lemma DirectStep(cfg: Config, s: State, l: Label)
    requires Inv(cfg, s) && SoundGrants(cfg) && l.Direct? && Enabled(cfg, s, l)
    ensures GoodStep(cfg, s, l, Step(cfg, s, l))
  {
    var r := cfg.requests[l.t];
    assert r in cfg.requests;
    if Target(cfg, r).Err? {
      RefusedStep(cfg, s, l);
    } else {
      var ws := Target(cfg, r).value.id;
      FileToolChange(cfg, s, l.t, ws, l.order, r.tool);
      var o := RunFileTool(cfg.lim, WithRoot(cfg, s.fs, ws), RootOf(cfg, ws), l.order, r.tool);
      DoneKeepsInv(cfg, s, l.t, o.tree, ws, Returned(o.Success?));
      if Caps(cfg, s) {
        CapsKept(cfg, s, l.t, o.tree, ws, Returned(o.Success?));
      }
    }
  }

  /** A workspace without a directory has no call under its lock. */
  lemma RootlessFree(cfg: Config, s: State, ws: string)
    requires Inv(cfg, s) && RootOf(cfg, ws) !in s.fs
    ensures LockFree(s, ws)
  {
    forall u | 0 <= u < |s.calls| && s.calls[u].Running? ensures s.calls[u].ws != ws {
      assert SoundCall(cfg, s.fs, cfg.requests[u].tool, s.calls[u]);
    }
  }

  /** A check that gets as far as the tree makes the root directory and settles where the call goes. */
  lemma CheckEffect(cfg: Config, s: State, t: nat, ws: string, order: seq<Path>, tool: Tool, inputOk: bool)
    requires Inv(cfg, s) && t < |s.calls| && WorkspaceId(ws) && !IsFileTool(tool) && cfg.requests[t].tool == tool
    ensures var fs := WithRoot(cfg, s.fs, ws);
            var p := RunCheck(cfg.lim, fs, RootOf(cfg, ws), order, tool, inputOk);
            var c := if p.Proceed? then Checked(ws, p.final, p.isNew) else Returned(false);
            && SoundCall(cfg, fs, tool, c) && Change(cfg, s.fs, fs, ws)
            && Leaves(fs, RootOf(cfg, ws)) == Leaves(s.fs, RootOf(cfg, ws))
            && (RootOf(cfg, ws) in s.fs ==> fs == s.fs)
  {
    var fs := WithRoot(cfg, s.fs, ws);
    WithRootSound(cfg, s.fs, ws);
    SoundLinkless(cfg, fs, ws);
    CheckSound(cfg, fs, ws, order, tool, inputOk);
  }

  /** A call goes on to its locked part, or ends, without changing any file. */
  lemma QuietStep(cfg: Config, s: State, t: nat, fs: Tree, ws: string, c: Call)
    requires Inv(cfg, s) && t < |s.calls| && !s.calls[t].Running? && !c.Running?
    requires Change(cfg, s.fs, fs, ws) && Leaves(fs, RootOf(cfg, ws)) == Leaves(s.fs, RootOf(cfg, ws))
    requires RootOf(cfg, ws) in s.fs ==> fs == s.fs
    requires SoundCall(cfg, fs, cfg.requests[t].tool, c)
    ensures Inv(cfg, State(fs, s.calls[t := c]))
  {
    if RootOf(cfg, ws) !in s.fs {
      RootlessFree(cfg, s, ws);
      DoneKeepsInv(cfg, s, t, fs, ws, c);
    }
  }

  lemma QuietCaps(cfg: Config, s: State, t: nat, fs: Tree, ws: string, c: Call)
    requires Caps(cfg, s) && t < |s.calls| && !s.calls[t].Running? && !c.Running?
    requires OnlyUnder(RootOf(cfg, ws), s.fs, fs) && Leaves(fs, RootOf(cfg, ws)) == Leaves(s.fs, RootOf(cfg, ws))
    ensures Caps(cfg, State(fs, s.calls[t := c]))
  {
    if OthersAway(s, t, ws) { assert LockFree(s, ws); }
    CapsKept(cfg, s, t, fs, ws, c);
  }

  lemma CheckStep(cfg: Config, s: State, l: Label)
    requires Inv(cfg, s) && SoundGrants(cfg) && l.Check? && Enabled(cfg, s, l)
    ensures GoodStep(cfg, s, l, Step(cfg, s, l))
  {
    var r := cfg.requests[l.t];
    assert r in cfg.requests;
    if Target(cfg, r).Err? || !ShapeOk(r.tool, l.shapeOk) {
      RefusedStep(cfg, s, l);
    } else {
      var ws := Target(cfg, r).value.id;
      CheckEffect(cfg, s, l.t, ws, l.order, r.tool, l.inputOk);
      QuietStep(cfg, s, l.t, WithRoot(cfg, s.fs, ws), ws, Step(cfg, s, l).calls[l.t]);
      if Caps(cfg, s) {
        QuietCaps(cfg, s, l.t, WithRoot(cfg, s.fs, ws), ws, Step(cfg, s, l).calls[l.t]);
      }
    }
  }

  /** An engine run that left its output. */
  lemma EngineChange(cfg: Config, s: State, l: Label)
    requires Inv(cfg, s) && l.Engine? && l.output.Some? && Enabled(cfg, s, l)
    ensures var c, s' := s.calls[l.t], Step(cfg, s, l);
            && Change(cfg, s.fs, s'.fs, c.ws) && s' == State(s'.fs, s.calls[l.t := s'.calls[l.t]])
            && s'.calls[l.t].Running? && s'.calls[l.t].ws == c.ws
            && s'.calls[l.t].before == Leaves(s.fs, RootOf(cfg, c.ws))
            && SoundCall(cfg, s'.fs, cfg.requests[l.t].tool, s'.calls[l.t])
  {
    var c, tool := s.calls[l.t], cfg.requests[l.t].tool;
    assert SoundCall(cfg, s.fs, tool, c);
    SoundLinkless(cfg, s.fs, c.ws);
    assert RootOf(cfg, c.ws) != c.final;
    EnginePlaces(s.fs, RootOf(cfg, c.ws), c.final, tool, l.tempName, l.output.value);
  }

  lemma EngineStep(cfg: Config, s: State, l: Label)
    requires Inv(cfg, s) && l.Engine? && Enabled(cfg, s, l)
    ensures GoodStep(cfg, s, l, Step(cfg, s, l))
  {
    if l.output.None? {
      RefusedStep(cfg, s, l);
    } else {
      var c, s' := s.calls[l.t], Step(cfg, s, l);
      EngineChange(cfg, s, l);
      DoneKeepsInv(cfg, s, l.t, s'.fs, c.ws, s'.calls[l.t]);
      if Caps(cfg, s) {
        CapsKept(cfg, s, l.t, s'.fs, c.ws, s'.calls[l.t]);
      }
    }
  }

  /** A commit changes its own workspace soundly, within its caps. */
  lemma CommitChange(cfg: Config, s: State, t: nat, order: seq<Path>, inputOk: bool)
    requires Inv(cfg, s) && t < |s.calls| && s.calls[t].Running? && WalkOrder(s.fs, RootOf(cfg, s.calls[t].ws), order)
    ensures var c := s.calls[t];
            var o := CommitOffice(cfg.lim, s.fs, order, c.final, c.temp, c.temp, c.isNew, inputOk);
            && !o.Hangs? && Change(cfg, s.fs, o.tree, c.ws)
            && (WithinCaps(cfg.lim, c.before) ==> WithinCaps(cfg.lim, Leaves(o.tree, RootOf(cfg, c.ws))))
  {
    var c := s.calls[t];
    assert SoundCall(cfg, s.fs, cfg.requests[t].tool, c);
    SoundLinkless(cfg, s.fs, c.ws);
    CommitOfficeExact(cfg.lim, s.fs, RootOf(cfg, c.ws), order, c.final, c.temp, c.temp, c.isNew, inputOk);
  }

  lemma CommitKeepsInv(cfg: Config, s: State, l: Label)
    requires Inv(cfg, s) && l.Commit? && Enabled(cfg, s, l)
    ensures Inv(cfg, Step(cfg, s, l)) && Framed(cfg, s, l, Step(cfg, s, l))
  {
    var c := s.calls[l.t];
    var o := CommitOffice(cfg.lim, s.fs, l.order, c.final, c.temp, c.temp, c.isNew, l.inputOk);
    CommitChange(cfg, s, l.t, l.order, l.inputOk);
    DoneKeepsInv(cfg, s, l.t, o.tree, c.ws, Returned(o.Success?));
  }

  lemma CommitKeepsCaps(cfg: Config, s: State, l: Label)
    requires Inv(cfg, s) && Caps(cfg, s) && l.Commit? && Enabled(cfg, s, l)
    ensures Caps(cfg, Step(cfg, s, l))
  {
    var c := s.calls[l.t];
    var o := CommitOffice(cfg.lim, s.fs, l.order, c.final, c.temp, c.temp, c.isNew, l.inputOk);
    CommitChange(cfg, s, l.t, l.order, l.inputOk);
    CapsKept(cfg, s, l.t, o.tree, c.ws, Returned(o.Success?));
  }

  lemma EveryStep(cfg: Config, s: State, l: Label)
    requires Inv(cfg, s) && SoundGrants(cfg) && Enabled(cfg, s, l)
    ensures GoodStep(cfg, s, l, Step(cfg, s, l))
  {
    match l
    case Direct(_, _) => DirectStep(cfg, s, l);
    case Check(_, _, _, _) => CheckStep(cfg, s, l);
    case Engine(_, _, _) => EngineStep(cfg, s, l);
    case Commit(_, _, _) =>
      CommitKeepsInv(cfg, s, l);
      if Caps(cfg, s) { CommitKeepsCaps(cfg, s, l); }
  }

  // ---------------------------------------------------------------- runs

  /** All calls have yet to begin. */
  ghost predicate Initial(cfg: Config, s: State) {
    && SoundTree(cfg, s.fs) && |s.calls| == |cfg.requests|
    && forall t :: 0 <= t < |s.calls| ==> s.calls[t].Arrived?
  }

  /**
   Quota over whole runs: if every workspace starts within its caps, then after any
   interleaving of any calls every workspace whose lock is free is within its caps.
   */
  lemma {:induction false} QuotaAlways(cfg: Config, s: State, labels: seq<Label>)
    requires Inv(cfg, s) && Caps(cfg, s) && SoundGrants(cfg) && Schedule(cfg, s, labels)
    ensures Inv(cfg, After(cfg, s, labels)) && Caps(cfg, After(cfg, s, labels))
    decreases |labels|
  {
    if labels != [] {
      EveryStep(cfg, s, labels[0]);
      QuotaAlways(cfg, Step(cfg, s, labels[0]), labels[1..]);
    }
  }

  lemma InitialSound(cfg: Config, s: State)
    requires Initial(cfg, s)
    ensures Inv(cfg, s)
    ensures (forall ws :: WorkspaceId(ws) ==> WithinCaps(cfg.lim, Leaves(s.fs, RootOf(cfg, ws)))) ==> Caps(cfg, s)
  {
  }

  /**
   An Office call is all or nothing: when its commit releases the lock, its workspace holds
   the files it held when the lock was taken, with at most the target replaced by the
   engine's output, and no temporary file.
   */
  lemma OfficeCallAtomic(cfg: Config, s: State, l: Label)
    requires Inv(cfg, s) && l.Commit? && Enabled(cfg, s, l)
    ensures var c, s' := s.calls[l.t], Step(cfg, s, l);
            && s'.calls[l.t].Returned? && c.temp !in s'.fs
            && Leaves(s'.fs, RootOf(cfg, c.ws)) ==
               if s'.calls[l.t].ok then c.before[c.final := s.fs[c.temp]] else c.before
  {
    var c := s.calls[l.t];
    CommitOfficeExact(cfg.lim, s.fs, RootOf(cfg, c.ws), l.order, c.final, c.temp, c.temp, c.isNew, l.inputOk);
  }
}
