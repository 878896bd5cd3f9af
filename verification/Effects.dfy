/**
 What the steps of the service do, said on the trees before and after: each file tool with its
 exact success condition, each part of an Office call, and a whole call with no other in between.
 None of it refers to the functions that run the tools.
 */
module Effects {
  import opened Base
  import opened Paths
  import opened Quota
  import opened TextEdit
  import opened Store
  import opened Access
  import opened Service
  import opened Isolation
  import Batch
  import FileTools
  import RequestCache
  import D = Deduplicate
  import T = ToolStream

  // ---------------------------------------------------------------- the file tools

  /** The text splits around the old one into something that may be stored. */
  ghost predicate Rewrites(lim: Limits, fs: Tree, root: Path, order: seq<Path>, full: Path, oldText: Bytes,
                           newText: Bytes, p: Bytes, s: Bytes)
    requires full in fs && fs[full].File?
  {
    && EditsAt(fs[full].data, oldText, p, s)
    && |p + newText + s| <= lim.maxBytes
    && WriteFits(lim, fs, root, order, full, p + newText + s)
  }

  /** A file tool has run from `fs` to `fs'` and says whether it succeeded. */
  ghost predicate ToolDone(lim: Limits, fs: Tree, fs': Tree, root: Path, order: seq<Path>, tool: Tool, ok: bool)
    requires IsFileTool(tool)
  {
    && (!ok ==> Leaves(fs', root) == Leaves(fs, root))
    && match tool
       case FsWrite(path, content, overwrite) =>
         var full := root + CleanPath(path);
         && (ok <==>
             && |content| <= lim.maxBytes
             && StaysInside(path) && Writable(fs, root, full)
             && (overwrite || full !in fs)
             && WriteFits(lim, fs, root, order, full, content))
         && (ok ==> Leaves(fs', root) == Leaves(fs, root)[full := File(content)])
       case FsEdit(path, oldText, newText) =>
         var full := root + CleanPath(path);
         && (ok <==>
             && oldText != "" && Editable(lim, fs, root, path)
             && exists p, s :: Rewrites(lim, fs, root, order, full, oldText, newText, p, s))
         && (ok ==> forall p, s :: EditsAt(fs[full].data, oldText, p, s) ==>
               Leaves(fs', root) == Leaves(fs, root)[full := File(p + newText + s)])
       case FsMove(src, dst) =>
         var d := root + CleanPath(dst);
         && (ok <==> exists s :: MovesFrom(fs, root, src, dst, s))
         && (forall s :: MovesFrom(fs, root, src, dst, s) ==> MovedTree(fs, fs', root, s, d))
       case FsDelete(path, confirm) =>
         && (ok <==> lim.deleteEnabled && confirm && exists p :: Finds(fs, root, path, p) && fs[p].File?)
         && (ok ==> forall p :: Finds(fs, root, path, p) ==> Leaves(fs', root) == Leaves(fs, root) - {p})
  }

  /** The supplied path stays inside and leads, through symlinks or not, to an existing place under the root. */
  ghost predicate Finds(fs: Tree, root: Path, supplied: string, p: Path) {
    && StaysInside(supplied) && root <= p && p in fs
    && EvalSymlinks(fs, root + CleanPath(supplied)) == Found(p)
  }

  /** A move may take `s` to the wanted place: that is free, can be made, and is not below `s`. */
  ghost predicate MovesFrom(fs: Tree, root: Path, src: string, dst: string, s: Path) {
    var d := root + CleanPath(dst);
    && Finds(fs, root, src, s)
    && StaysInside(dst) && d != root && ParentsUsable(fs, root, d) && d !in fs
    && !(s <= d)
  }

  /** The call never returns: it would write, or make or move something, onto the root itself. */
  ghost predicate NeverReturns(lim: Limits, fs: Tree, root: Path, tool: Tool) {
    match tool
    case FsWrite(path, content, _) => |content| <= lim.maxBytes && StaysInside(path) && CleanPath(path) == []
    case FsEdit(_, _, _) => false
    case FsMove(src, dst) => (exists s :: Finds(fs, root, src, s)) && StaysInside(dst) && CleanPath(dst) == []
    case FsDelete(_, _) => false
    case DocCreate(path, _) => StaysInside(path) && CleanPath(path) == []
    case DocEdit(_) => false
    case SheetSetCells(_, _, _) => false
  }

  lemma FindsIff(fs: Tree, root: Path, supplied: string, p: Path)
    requires CanonicalRoot(fs, root)
    ensures Finds(fs, root, supplied, p) <==> Resolve(fs, root, supplied, false) == Accepted(p)
  {
    ResolveExistingIff(fs, root, supplied, p);
    WalkPhysical(fs, [], root + CleanPath(supplied), EVAL_LINKS);
  }

  lemma WriteDoes(lim: Limits, fs: Tree, root: Path, order: seq<Path>, tool: Tool)
    requires CanonicalRoot(fs, root) && WalkOrder(fs, root, order) && tool.FsWrite?
    ensures var o := RunFileTool(lim, fs, root, order, tool);
            && (o.Hangs? <==> NeverReturns(lim, fs, root, tool))
            && (!o.Hangs? ==> ToolDone(lim, fs, o.tree, root, order, tool, o.Success?))
  {
    var full := root + CleanPath(tool.path);
    WriteExact(lim, fs, root, order, tool.path, tool.content, tool.overwrite);
    if Writable(fs, root, full) { WriteFitsIff(lim, fs, root, order, full, tool.content); }
  }

  /** What an edit writes is what would be written back. */
  lemma RewritesIff(lim: Limits, fs: Tree, root: Path, order: seq<Path>, full: Path, oldText: Bytes, newText: Bytes,
                    p: Bytes, s: Bytes)
    requires WalkOrder(fs, root, order) && root <= full && full in fs && fs[full].File?
    ensures Rewrites(lim, fs, root, order, full, oldText, newText, p, s) <==>
            EditsTo(lim, fs, order, full, oldText, newText, p, s)
  {
    WriteFitsIff(lim, fs, root, order, full, p + newText + s);
  }

  lemma EditDoes(lim: Limits, fs: Tree, root: Path, order: seq<Path>, tool: Tool)
    requires CanonicalRoot(fs, root) && WalkOrder(fs, root, order) && tool.FsEdit?
    ensures var o := RunFileTool(lim, fs, root, order, tool);
            !o.Hangs? && ToolDone(lim, fs, o.tree, root, order, tool, o.Success?)
  {
    var o, full := RunFileTool(lim, fs, root, order, tool), root + CleanPath(tool.path);
    EditToolExact(lim, fs, root, order, tool.path, tool.oldText, tool.newText);
    if Editable(lim, fs, root, tool.path) {
      forall p, s
        ensures Rewrites(lim, fs, root, order, full, tool.oldText, tool.newText, p, s) <==>
                EditsTo(lim, fs, order, full, tool.oldText, tool.newText, p, s)
      {
        RewritesIff(lim, fs, root, order, full, tool.oldText, tool.newText, p, s);
      }
      if o.Success? {
        var p, s :| EditsTo(lim, fs, order, full, tool.oldText, tool.newText, p, s);
        forall p', s' | EditsAt(fs[full].data, tool.oldText, p', s')
          ensures Leaves(o.tree, root) == Leaves(fs, root)[full := File(p' + tool.newText + s')]
        {
          EditsOnce(fs[full].data, tool.oldText, tool.newText, p, s, p', s');
        }
      }
    }
  }

  /** A text that may be edited splits in one way. */
  lemma EditsOnce(data: Bytes, oldText: Bytes, newText: Bytes, p: Bytes, s: Bytes, p': Bytes, s': Bytes)
    requires oldText != "" && EditsAt(data, oldText, p, s) && EditsAt(data, oldText, p', s')
    ensures p + newText + s == p' + newText + s'
  {
    EditMeaning(data, oldText, newText);
  }

  lemma MoveDoes(lim: Limits, fs: Tree, root: Path, order: seq<Path>, tool: Tool)
    requires CanonicalRoot(fs, root) && tool.FsMove?
    ensures var o := RunFileTool(lim, fs, root, order, tool);
            && (o.Hangs? <==> NeverReturns(lim, fs, root, tool))
            && (!o.Hangs? ==> ToolDone(lim, fs, o.tree, root, order, tool, o.Success?))
  {
    MoveExact(fs, root, tool.src, tool.dst);
    forall s ensures Finds(fs, root, tool.src, s) <==> Resolve(fs, root, tool.src, false) == Accepted(s) {
      FindsIff(fs, root, tool.src, s);
    }
    assert CleanPath(tool.dst) == [] <==> root + CleanPath(tool.dst) == root;
    var r := Resolve(fs, root, tool.src, false);
    if r.Accepted? {
      assert Finds(fs, root, tool.src, r.path);
      assert RunFileTool(lim, fs, root, order, tool).Success? ==> MovesFrom(fs, root, tool.src, tool.dst, r.path);
    }
  }

  lemma DeleteDoes(lim: Limits, fs: Tree, root: Path, order: seq<Path>, tool: Tool)
    requires CanonicalRoot(fs, root) && tool.FsDelete?
    ensures var o := RunFileTool(lim, fs, root, order, tool);
            !o.Hangs? && ToolDone(lim, fs, o.tree, root, order, tool, o.Success?)
  {
    DeleteExact(lim, fs, root, tool.path, tool.confirm);
    forall p ensures Finds(fs, root, tool.path, p) <==> Resolve(fs, root, tool.path, false) == Accepted(p) {
      FindsIff(fs, root, tool.path, p);
    }
    var r := Resolve(fs, root, tool.path, false);
    if r.Accepted? { assert Finds(fs, root, tool.path, r.path); }
  }

  /** Every file tool returns unless it aims at the root, and does what it promises. */
  lemma FileToolDoes(lim: Limits, fs: Tree, root: Path, order: seq<Path>, tool: Tool)
    requires IsFileTool(tool) && CanonicalRoot(fs, root) && WalkOrder(fs, root, order)
    ensures var o := RunFileTool(lim, fs, root, order, tool);
            && (o.Hangs? <==> NeverReturns(lim, fs, root, tool))
            && (!o.Hangs? ==> ToolDone(lim, fs, o.tree, root, order, tool, o.Success?))
  {
    match tool
    case FsWrite(_, _, _) => WriteDoes(lim, fs, root, order, tool);
    case FsEdit(_, _, _) => EditDoes(lim, fs, root, order, tool);
    case FsMove(_, _) => MoveDoes(lim, fs, root, order, tool);
    case FsDelete(_, _) => DeleteDoes(lim, fs, root, order, tool);
  }

  // ---------------------------------------------------------------- one step of the service

  /** The tree with the directory of the workspace in it. */
  function Rooted(fs: Tree, root: Path): Tree {
    if root in fs then fs else fs[root := Dir]
  }

  lemma RootedIs(cfg: Config, fs: Tree, ws: string)
    requires SoundTree(cfg, fs) && WorkspaceId(ws)
    ensures var fs' := Rooted(fs, RootOf(cfg, ws));
            && WithRoot(cfg, fs, ws) == fs' && CanonicalRoot(fs', RootOf(cfg, ws)) && SoundTree(cfg, fs')
            && OnlyUnder(RootOf(cfg, ws), fs, fs') && Leaves(fs', RootOf(cfg, ws)) == Leaves(fs, RootOf(cfg, ws))
  {
    WithRootSound(cfg, fs, ws);
    WorkspaceIdPlain(ws);
    assert Parent(RootOf(cfg, ws)) == cfg.base;
    if RootOf(cfg, ws) !in fs {
      assert MkdirAll(fs, RootOf(cfg, ws)) == fs[RootOf(cfg, ws) := Dir];
    }
  }

  /** A refused call ends without success, and nothing else changes. */
  ghost predicate JustRefused(s: State, s': State, t: nat)
    requires t < |s.calls|
  {
    s' == State(s.fs, s.calls[t := Returned(false)])
  }

  /** A file tool of an authorised request does what it promises to the workspace of the grant, and to nothing else. */
  lemma DirectDoes(cfg: Config, s: State, l: Label)
    requires Inv(cfg, s) && SoundGrants(cfg) && l.Direct? && Enabled(cfg, s, l)
    ensures var r, s' := cfg.requests[l.t], Step(cfg, s, l);
            match Authorize(cfg.grants, r.userId, r.workspace, true, r.tool.FsDelete?)
            case Err(_) => JustRefused(s, s', l.t)
            case Ok(g) =>
              var root := cfg.base + [g.id];
              && l.t < |s'.calls| && s'.calls[l.t].Returned? && s'.calls == s.calls[l.t := s'.calls[l.t]]
              && OnlyUnder(root, s.fs, s'.fs) && Leaves(Rooted(s.fs, root), root) == Leaves(s.fs, root)
              && ToolDone(cfg.lim, Rooted(s.fs, root), s'.fs, root, l.order, r.tool, s'.calls[l.t].ok)
  {
    var r := cfg.requests[l.t];
    assert r in cfg.requests;
    if Target(cfg, r).Ok? {
      var ws := Target(cfg, r).value.id;
      var root := RootOf(cfg, ws);
      RootedIs(cfg, s.fs, ws);
      FileToolDoes(cfg.lim, Rooted(s.fs, root), root, l.order, r.tool);
      EveryStep(cfg, s, l);
    }
  }

  /** Where a checked call goes on to its locked part, and for what. */
  ghost predicate Admits(lim: Limits, fs: Tree, root: Path, tool: Tool, shapeOk: bool, inputOk: bool, final: Path,
                         isNew: bool)
    requires !IsFileTool(tool)
  {
    && shapeOk && (tool.SheetSetCells? ==> Batch.ValidBatch(tool.sheet, tool.cells))
    && (if tool.DocCreate? then
          && StaysInside(tool.path) && final == root + CleanPath(tool.path) && final != root
          && ParentsUsable(fs, root, final) && (final in fs ==> !fs[final].Link?)
          && isNew == (final !in fs) && (tool.overwrite || isNew)
          && HasRoom(lim, Leaves(fs, root), isNew)
        else Finds(fs, root, tool.path, final) && inputOk && !isNew)
  }

  /** The byte cap holds, and one more file may be added if need be. */
  ghost predicate HasRoom(lim: Limits, m: map<Path, Node>, isNew: bool) {
    && (lim.maxWorkspaceBytes > 0 ==> TotalSize(m) <= lim.maxWorkspaceBytes)
    && (lim.maxWorkspaceFiles > 0 && isNew ==> |m| + 1 <= lim.maxWorkspaceFiles)
  }

  /** The check before the lock, for a document that is new or a workspace within its caps. */
  lemma CheckAdmits(lim: Limits, fs: Tree, root: Path, order: seq<Path>, tool: Tool, shapeOk: bool, inputOk: bool,
                    final: Path, isNew: bool)
    requires CanonicalRoot(fs, root) && WalkOrder(fs, root, order) && !IsFileTool(tool)
    requires tool.DocCreate? ==> isNew || WithinCaps(lim, Leaves(fs, root))
    ensures ShapeOk(tool, shapeOk) && RunCheck(lim, fs, root, order, tool, inputOk) == Proceed(final, isNew) <==>
            Admits(lim, fs, root, tool, shapeOk, inputOk, final, isNew)
  {
    if tool.DocCreate? {
      CreatePrecheckExact(lim, fs, root, order, tool.path, tool.overwrite);
      RoomIff(lim, fs, root, order, isNew);
    } else {
      EditPrecheckExact(fs, root, tool.path, inputOk, final, isNew);
      WalkPhysical(fs, [], root + CleanPath(tool.path), EVAL_LINKS);
    }
  }

  /** The check of an Office call changes no file; it admits the call exactly when it should. */
  lemma CheckDoes(cfg: Config, s: State, l: Label, final: Path, isNew: bool)
    requires Inv(cfg, s) && SoundGrants(cfg) && l.Check? && Enabled(cfg, s, l)
    ensures var r, s' := cfg.requests[l.t], Step(cfg, s, l);
            match Authorize(cfg.grants, r.userId, r.workspace, true, false)
            case Err(_) => JustRefused(s, s', l.t)
            case Ok(g) =>
              var root := cfg.base + [g.id];
              && l.t < |s'.calls| && s'.calls == s.calls[l.t := s'.calls[l.t]]
              && (s'.fs == s.fs || s'.fs == Rooted(s.fs, root))
              && (s'.calls[l.t].Checked? || s'.calls[l.t] == Returned(false))
              && ((r.tool.DocCreate? ==> isNew || WithinCaps(cfg.lim, Leaves(s.fs, root))) ==>
                    (s'.calls[l.t] == Checked(g.id, final, isNew) <==>
                       Admits(cfg.lim, Rooted(s.fs, root), root, r.tool, l.shapeOk, l.inputOk, final, isNew)))
  {
    var r := cfg.requests[l.t];
    assert r in cfg.requests;
    if Target(cfg, r).Ok? {
      var ws := Target(cfg, r).value.id;
      var root := RootOf(cfg, ws);
      RootedIs(cfg, s.fs, ws);
      if ShapeOk(r.tool, l.shapeOk) && (r.tool.DocCreate? ==> isNew || WithinCaps(cfg.lim, Leaves(s.fs, root))) {
        CheckAdmits(cfg.lim, Rooted(s.fs, root), root, l.order, r.tool, l.shapeOk, l.inputOk, final, isNew);
      }
    }
  }

  /** The engine's output goes to the temporary file as it is, and the call holds the lock from then on. */
  lemma EngineDoes(cfg: Config, s: State, l: Label)
    requires Inv(cfg, s) && l.Engine? && Enabled(cfg, s, l)
    ensures var c, s' := s.calls[l.t], Step(cfg, s, l);
            var root, temp := cfg.base + [c.ws], Parent(c.final) + [l.tempName];
            match l.output
            case None => JustRefused(s, s', l.t)
            case Some(data) =>
              && s'.calls == s.calls[l.t := Running(c.ws, c.final, c.isNew, temp, Leaves(s.fs, root))]
              && OnlyUnder(root, s.fs, s'.fs) && temp in s'.fs && s'.fs[temp] == File(data)
              && Leaves(s'.fs, root) == Leaves(s.fs, root)[temp := File(data)]
  {
    if l.output.Some? {
      var c, tool := s.calls[l.t], cfg.requests[l.t].tool;
      assert SoundCall(cfg, s.fs, tool, c);
      SoundLinkless(cfg, s.fs, c.ws);
      assert RootOf(cfg, c.ws) != c.final;
      EnginePlaces(s.fs, RootOf(cfg, c.ws), c.final, tool, l.tempName, l.output.value);
      LeavesWith(Leaves(Step(cfg, s, l).fs, RootOf(cfg, c.ws)), Leaves(s.fs, RootOf(cfg, c.ws)),
                 TempPath(c.final, l.tempName), File(l.output.value));
    }
  }

  lemma LeavesWith(after: map<Path, Node>, before: map<Path, Node>, p: Path, n: Node)
    requires after - {p} == before && p in after && after[p] == n
    ensures after == before[p := n]
  {
    forall q ensures q in after <==> q in before[p := n]
      ensures q in after ==> after[q] == before[p := n][q]
    {
      assert q != p ==> (q in after <==> q in after - {p});
    }
  }

  lemma CommitOk(cfg: Config, s: State, l: Label)
    requires Inv(cfg, s) && l.Commit? && Enabled(cfg, s, l)
    requires SoundCall(cfg, s.fs, cfg.requests[l.t].tool, s.calls[l.t])
    ensures var c, s' := s.calls[l.t], Step(cfg, s, l);
            && s'.calls == s.calls[l.t := s'.calls[l.t]] && s'.calls[l.t].Returned? && c.temp in s.fs
            && (s'.calls[l.t].ok <==>
                  && l.inputOk && (c.final in s.fs ==> s.fs[c.final].File?)
                  && OutputFits(cfg.lim, c.before, c.final, s.fs[c.temp], Usage(0, 0), c.isNew))
  {
    var c := s.calls[l.t];
    var root := RootOf(cfg, c.ws);
    CommitOfficeExact(cfg.lim, s.fs, root, l.order, c.final, c.temp, c.temp, c.isNew, l.inputOk);
    CommitIff(cfg.lim, s.fs, root, l.order, c.final, c.temp, c.temp, c.isNew, l.inputOk);
    assert CountedTwice(s.fs, root, c.temp, c.temp) == Usage(0, 0);
  }

  /** The commit succeeds exactly when the output is acceptable, may stand there and fits; the target then holds it. */
  lemma CommitDoes(cfg: Config, s: State, l: Label)
    requires Inv(cfg, s) && l.Commit? && Enabled(cfg, s, l)
    ensures var c, s' := s.calls[l.t], Step(cfg, s, l);
            var root := cfg.base + [c.ws];
            && s'.calls[l.t].Returned? && s'.calls == s.calls[l.t := s'.calls[l.t]]
            && c.temp in s.fs && c.temp !in s'.fs
            && (s'.calls[l.t].ok <==>
                  && l.inputOk && (c.final in s.fs ==> s.fs[c.final].File?)
                  && OutputFits(cfg.lim, c.before, c.final, s.fs[c.temp], Usage(0, 0), c.isNew))
            && Leaves(s'.fs, root) == if s'.calls[l.t].ok then c.before[c.final := s.fs[c.temp]] else c.before
  {
    assert SoundCall(cfg, s.fs, cfg.requests[l.t].tool, s.calls[l.t]);
    CommitOk(cfg, s, l);
    OfficeCallAtomic(cfg, s, l);
  }

  // ---------------------------------------------------------------- a whole Office call, interleaved

  /** While a call holds its lock the steps of the others leave its workspace alone. */
  lemma {:induction false} HeldThrough(cfg: Config, s: State, labels: seq<Label>, t: nat)
    requires Inv(cfg, s) && SoundGrants(cfg) && Schedule(cfg, s, labels)
    requires t < |s.calls| && s.calls[t].Running? && forall i :: 0 <= i < |labels| ==> labels[i].t != t
    ensures var e := After(cfg, s, labels);
            && Inv(cfg, e) && t < |e.calls| && e.calls[t] == s.calls[t]
            && Leaves(e.fs, RootOf(cfg, s.calls[t].ws)) == Leaves(s.fs, RootOf(cfg, s.calls[t].ws))
    decreases |labels|
  {
    if labels != [] {
      LockExcludes(cfg, s, labels[0], t);
      EveryStep(cfg, s, labels[0]);
      HeldThrough(cfg, Step(cfg, s, labels[0]), labels[1..], t);
    }
  }

  /**
   Whatever other calls do between its engine's run and its commit, an Office call that
   succeeds leaves its workspace as it was when the engine ran, the target holding exactly what
   the engine left; one that fails leaves it as it was.
   */
  lemma OfficeWritesOutput(cfg: Config, s: State, run: Label, between: seq<Label>, commit: Label)
    requires Inv(cfg, s) && SoundGrants(cfg)
    requires run.Engine? && run.output.Some? && Enabled(cfg, s, run)
    requires Schedule(cfg, Step(cfg, s, run), between) && forall i :: 0 <= i < |between| ==> between[i].t != run.t
    requires commit.Commit? && commit.t == run.t && Enabled(cfg, After(cfg, Step(cfg, s, run), between), commit)
    ensures var c, e := s.calls[run.t], Step(cfg, After(cfg, Step(cfg, s, run), between), commit);
            var before, after := Leaves(s.fs, cfg.base + [c.ws]), Leaves(e.fs, cfg.base + [c.ws]);
            && e.calls[run.t].Returned?
            && after == if e.calls[run.t].ok then before[c.final := File(run.output.value)] else before
  {
    var locked := Step(cfg, s, run);
    var c, root := locked.calls[run.t], RootOf(cfg, s.calls[run.t].ws);
    EngineDoes(cfg, s, run);
    EveryStep(cfg, s, run);
    HeldThrough(cfg, locked, between, run.t);
    var held := After(cfg, locked, between);
    CommitDoes(cfg, held, commit);
    assert SoundCall(cfg, held.fs, cfg.requests[run.t].tool, held.calls[run.t]);
    assert c.temp in Leaves(locked.fs, root) && c.temp in Leaves(held.fs, root);
  }

  // ---------------------------------------------------------------- no call is stuck

  /** There is a walk of any set of places. */
  lemma {:induction false} SomeListing(places: set<Path>) returns (order: seq<Path>)
    ensures forall i, j :: 0 <= i < j < |order| ==> order[i] != order[j]
    ensures forall p :: p in order <==> p in places
  {
    if places == {} {
      order := [];
    } else {
      var p :| p in places;
      var rest := SomeListing(places - {p});
      order := rest + [p];
    }
  }

  lemma SomeWalk(fs: Tree, root: Path) returns (order: seq<Path>)
    ensures WalkOrder(fs, root, order)
  {
    order := SomeListing(set p | p in fs && root <= p);
  }

  /** The workspace whose lock a call holds, or needs for its next step. */
  function Wants(cfg: Config, s: State, t: nat): Option<string>
    requires t < |s.calls| && t < |cfg.requests|
  {
    match s.calls[t]
    case Arrived => (match Target(cfg, cfg.requests[t]) case Ok(g) => Some(g.id) case Err(_) => None)
    case Checked(ws, _, _) => Some(ws)
    case Running(ws, _, _, _, _) => Some(ws)
    case Returned(_) => None
  }

  /**
   Every call that has not returned has a next step, or waits for a lock whose holder has one,
   unless it aims at the root of its workspace and never returns; whatever the document checks say.
   */
  lemma CallCanMove(cfg: Config, s: State, t: nat, shapeOk: bool, inputOk: bool) returns (l: Label)
    requires Inv(cfg, s) && SoundGrants(cfg) && t < |s.calls| && !s.calls[t].Returned?
    requires var r := cfg.requests[t];
             s.calls[t].Arrived? && Target(cfg, r).Ok? ==>
               var root := RootOf(cfg, Target(cfg, r).value.id);
               !NeverReturns(cfg.lim, Rooted(s.fs, root), root, r.tool)
    ensures Enabled(cfg, s, l)
    ensures l.t == t || (l.t < |s.calls| && s.calls[l.t].Running? && Wants(cfg, s, t) == Some(s.calls[l.t].ws))
    ensures (l.Check? ==> l.shapeOk == shapeOk && l.inputOk == inputOk) && (l.Commit? ==> l.inputOk == inputOk)
  {
    var ws := Wants(cfg, s, t);
    if ws.None? {
      l := if IsFileTool(cfg.requests[t].tool) then Direct(t, []) else Check(t, [], shapeOk, inputOk);
    } else if u :| 0 <= u < |s.calls| && s.calls[u].Running? && s.calls[u].ws == ws.value {
      var order := SomeWalk(s.fs, RootOf(cfg, ws.value));
      l := Commit(u, order, inputOk);
    } else {
      l := FreeMove(cfg, s, t, ws.value, shapeOk, inputOk);
    }
  }

  lemma CheckReturns(lim: Limits, fs: Tree, root: Path, order: seq<Path>, tool: Tool, inputOk: bool)
    requires CanonicalRoot(fs, root) && !IsFileTool(tool)
    ensures RunCheck(lim, fs, root, order, tool, inputOk).Stuck? <==> NeverReturns(lim, fs, root, tool)
  {
    if tool.DocCreate? {
      CreatePrecheckExact(lim, fs, root, order, tool.path, tool.overwrite);
      assert CleanPath(tool.path) == [] <==> root + CleanPath(tool.path) == root;
    } else {
      EditPrecheckExact(fs, root, tool.path, inputOk, root, false);
    }
  }

  /** With its lock free a call moves by itself. */
  lemma FreeMove(cfg: Config, s: State, t: nat, ws: string, shapeOk: bool, inputOk: bool) returns (l: Label)
    requires Inv(cfg, s) && SoundGrants(cfg) && t < |s.calls| && Wants(cfg, s, t) == Some(ws) && LockFree(s, ws)
    requires s.calls[t].Arrived? ==>
               !NeverReturns(cfg.lim, Rooted(s.fs, RootOf(cfg, ws)), RootOf(cfg, ws), cfg.requests[t].tool)
    ensures Enabled(cfg, s, l) && l.t == t && !l.Commit?
    ensures l.Check? ==> l.shapeOk == shapeOk && l.inputOk == inputOk
  {
    var r := cfg.requests[t];
    assert r in cfg.requests;
    if s.calls[t].Checked? {
      l := Engine(t, "", None);
    } else {
      var root, fs := RootOf(cfg, ws), Rooted(s.fs, RootOf(cfg, ws));
      RootedIs(cfg, s.fs, ws);
      var order := SomeWalk(fs, root);
      if IsFileTool(r.tool) {
        FileToolDoes(cfg.lim, fs, root, order, r.tool);
        l := Direct(t, order);
      } else {
        CheckReturns(cfg.lim, fs, root, order, r.tool, inputOk);
        l := Check(t, order, shapeOk, inputOk);
      }
    }
  }

  // ---------------------------------------------------------------- a whole call, alone

  /** The workspace of the grant, where a call made alone acts. */
  ghost predicate ActsIn(server: T.Server, fs: Tree, c: T.ToolCall, ws: string) {
    && SoundTree(server.cfg, fs) && WorkspaceId(ws)
    && var r := c.request;
       var g := Authorize(server.cfg.grants, r.userId, r.workspace, true, r.tool.FsDelete?);
       g.Ok? && g.value.id == ws
  }

  /** What the handler answered: an error result, or one without, and no Go error. */
  ghost predicate Answers(run: D.Ran<Tree>, ok: bool) {
    run.err == None && run.result.CallResult? && run.result.isError == !ok
  }

  /** A call that is not authorised has an error result and changes nothing. */
  lemma HandleRefuses(server: T.Server, fs: Tree, c: T.ToolCall)
    requires Authorize(server.cfg.grants, c.request.userId, c.request.workspace, true, c.request.tool.FsDelete?).Err?
    ensures Answers(T.Handle(server, fs, c), false) && T.Handle(server, fs, c).state == fs
  {
  }

  /** A file tool made alone does what it promises and says so, unless it aims at the root. */
  lemma HandleDoes(server: T.Server, fs: Tree, c: T.ToolCall, ws: string)
    requires ActsIn(server, fs, c, ws) && IsFileTool(c.request.tool)
    requires var root := RootOf(server.cfg, ws); WalkOrder(Rooted(fs, root), root, c.around.order)
    ensures var run, root, tool := T.Handle(server, fs, c), RootOf(server.cfg, ws), c.request.tool;
            if NeverReturns(server.cfg.lim, Rooted(fs, root), root, tool) then run.err == Some(T.NEVER_RETURNS)
            else
              && run.err == None && run.result.CallResult?
              && ToolDone(server.cfg.lim, Rooted(fs, root), run.state, root, c.around.order, tool, !run.result.isError)
  {
    RootedIs(server.cfg, fs, ws);
    var root := RootOf(server.cfg, ws);
    FileToolDoes(server.cfg.lim, Rooted(fs, root), root, c.around.order, c.request.tool);
  }

  /** A `doc_create` made alone: the target holds what the last run left, exactly when all went well. */
  lemma HandleCreates(server: T.Server, fs: Tree, c: T.ToolCall, ws: string, final: Path, isNew: bool)
    requires ActsIn(server, fs, c, ws) && c.request.tool.DocCreate?
    requires var root, x := RootOf(server.cfg, ws), c.around;
             var tree, temp := Rooted(fs, root), TempPath(final, x.tempName);
             && WalkOrder(tree, root, x.order) && (isNew || WithinCaps(server.cfg.lim, Leaves(tree, root)))
             && Admits(server.cfg.lim, tree, root, c.request.tool, x.shapeOk, x.inputOk, final, isNew)
             && FileTools.CreateTemp(tree, root, final, temp)
             && WalkOrder(MkdirAll(tree, Parent(temp))[temp := File("")], root, x.commitOrder)
    ensures var run, root, x := T.Handle(server, fs, c), RootOf(server.cfg, ws), c.around;
            var tree, left := Rooted(fs, root), FileTools.LastRun(x.create, x.batch).leaves;
            var ok := FileTools.Creates(server.cfg.lim, tree, root, final, isNew, x.create, x.batch, x.outputOk);
            && Answers(run, ok)
            && Leaves(run.state, root) ==
               if ok then Leaves(tree, root)[final := File(left.value)] else Leaves(tree, root)
  {
    var root, x, tool := RootOf(server.cfg, ws), c.around, c.request.tool;
    var tree := Rooted(fs, root);
    RootedIs(server.cfg, fs, ws);
    CheckAdmits(server.cfg.lim, tree, root, x.order, tool, x.shapeOk, x.inputOk, final, isNew);
    FileTools.CreateAllOrNothing(server.cfg.lim, tree, root, x.commitOrder, final, TempPath(final, x.tempName), isNew,
                                 x.create, x.batch, x.outputOk);
  }

  /** The editing tools made alone likewise, the temporary copy wherever the supplied path puts it. */
  lemma HandleEdits(server: T.Server, fs: Tree, c: T.ToolCall, ws: string, final: Path)
    requires ActsIn(server, fs, c, ws) && !IsFileTool(c.request.tool) && !c.request.tool.DocCreate?
    requires var root, x := RootOf(server.cfg, ws), c.around;
             var tree, named := Rooted(fs, root), TempName(root, c.request.tool.path, x.tempName);
             var temp := TempPlace(tree, named);
             && WalkOrder(tree, root, x.order)
             && Admits(server.cfg.lim, tree, root, c.request.tool, x.shapeOk, x.inputOk, final, false)
             && FileTools.EditTemp(tree, root, final, temp, named)
             && WalkOrder(tree[temp := File("")], root, x.commitOrder)
    ensures var run, root, x := T.Handle(server, fs, c), RootOf(server.cfg, ws), c.around;
            var tree, named := Rooted(fs, root), TempName(root, c.request.tool.path, x.tempName);
            var ok := FileTools.Edits(server.cfg.lim, tree, root, final, TempPlace(tree, named), named, x.create,
                                      x.outputOk);
            && Answers(run, ok)
            && Leaves(run.state, root) ==
               if ok then Leaves(tree, root)[final := File(FileTools.EditLeaves(tree, final, x.create).value)]
               else Leaves(tree, root)
  {
    var root, x, tool := RootOf(server.cfg, ws), c.around, c.request.tool;
    var tree, named := Rooted(fs, root), TempName(root, tool.path, x.tempName);
    RootedIs(server.cfg, fs, ws);
    CheckAdmits(server.cfg.lim, tree, root, x.order, tool, x.shapeOk, x.inputOk, final, false);
    FileTools.EditAllOrNothing(server.cfg.lim, tree, root, x.commitOrder, final, TempPlace(tree, named), named,
                               x.create, x.outputOk);
  }

  /** An Office call that its check does not admit changes no file and has an error result, or never returns. */
  lemma HandleDeclines(server: T.Server, fs: Tree, c: T.ToolCall, ws: string)
    requires ActsIn(server, fs, c, ws) && !IsFileTool(c.request.tool)
    requires var root, x := RootOf(server.cfg, ws), c.around;
             var tree := Rooted(fs, root);
             && WalkOrder(tree, root, x.order)
             && (c.request.tool.DocCreate? ==> WithinCaps(server.cfg.lim, Leaves(tree, root)))
             && forall final, isNew ::
                  !Admits(server.cfg.lim, tree, root, c.request.tool, x.shapeOk, x.inputOk, final, isNew)
    ensures var run, tree := T.Handle(server, fs, c), Rooted(fs, RootOf(server.cfg, ws));
            run.state == tree && (Answers(run, false) || run.err == Some(T.NEVER_RETURNS))
  {
    var root, x, tool := RootOf(server.cfg, ws), c.around, c.request.tool;
    var tree := Rooted(fs, root);
    RootedIs(server.cfg, fs, ws);
    var p := RunCheck(server.cfg.lim, tree, root, x.order, tool, x.inputOk);
    if p.Proceed? {
      CheckAdmits(server.cfg.lim, tree, root, x.order, tool, x.shapeOk, x.inputOk, p.final, p.isNew);
    }
  }
}
