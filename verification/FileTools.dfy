/**
 The file tools as they run under the workspace lock, step by step: directories are made,
 a temporary sibling is written, checked and renamed, and removed again on every way out.
 Each method is proved to do to the tree exactly what its one-step function in Store says.
 */
module FileTools {
  import opened Base
  import opened Paths
  import opened Quota
  import opened Store
  import TextEdit

  /** What the caller hears; `NoReply` is a call that never returns. */
  datatype Reply = Done | Denied(why: ToolError) | NoReply

  /** One run of the external engine on the temporary path: what it leaves there, and its exit. */
  datatype EngineRun = EngineRun(leaves: Option<string>, ok: bool)

  /** The engine on one command: what it makes of the document it finds at the temporary path, if there is one. */
  type Engine = Option<string> -> EngineRun

  function DocumentAt(fs: Tree, temp: Path): Option<string> {
    if temp in fs && fs[temp].File? then Some(fs[temp].data) else None
  }

  /** The tree after a run: the engine writes at the temporary path, or removes what is there. */
  function AfterRun(fs: Tree, temp: Path, run: EngineRun): Tree {
    match run.leaves
    case Some(data) => MkdirAll(fs, Parent(temp))[temp := File(data)]
    case None => fs - {temp}
  }

  /** A method call agrees with the one-step function. */
  predicate Agrees(o: Outcome, before: Tree, after: Tree, reply: Reply) {
    match o
    case Success(tree) => reply == Done && after == tree
    case Failure(tree, why) => reply == Denied(why) && after == tree
    case Hangs => reply == NoReply && after == before
  }

  /** No existing or wanted path goes through the name. */
  ghost predicate FreshName(fs: Tree, target: Path, name: Name) {
    && name !in target
    && forall p :: p in fs ==> name !in p
  }

  lemma {:induction false} MkdirAllAddsAncestors(fs: Tree, p: Path, q: Path)
    requires q in MkdirAll(fs, p) && q !in fs
    ensures q <= p
    decreases |p|
  {
    if !(p in fs || p == []) && q != p {
      MkdirAllAddsAncestors(fs, Parent(p), q);
    }
  }

  /** The whole locked section of `docCreate`: two engine runs at most, then the commit. */
  function CreateLocked(lim: Limits, fs: Tree, order: seq<Path>, final: Path, temp: Path, isNew: bool,
                        create: Engine, batch: Option<Engine>, inputOk: bool): Outcome
  {
    var first := create(DocumentAt(fs, temp));
    var made := AfterRun(fs, temp, first);
    if !first.ok then Failure(made - {temp}, EngineFailed)
    else if batch.None? then CommitOffice(lim, made, order, final, temp, temp, isNew, inputOk)
    else
      var second := batch.value(DocumentAt(made, temp));
      var ready := AfterRun(made, temp, second);
      if !second.ok then Failure(ready - {temp}, EngineFailed)
      else CommitOffice(lim, ready, order, final, temp, temp, isNew, inputOk)
  }

  /** The same for `docEdit` and `sheetSetCells`: copy, one engine run, commit. */
  function EditLocked(lim: Limits, fs: Tree, order: seq<Path>, final: Path, temp: Path, named: Path, batch: Engine,
                      inputOk: bool): Outcome
  {
    if final !in fs || !fs[final].File? then Failure(fs - {temp}, StatFailed)
    else
      var copied := fs[temp := fs[final]];
      var run := batch(DocumentAt(copied, temp));
      var ready := AfterRun(copied, temp, run);
      if !run.ok then Failure(ready - {temp}, EngineFailed)
      else CommitOffice(lim, ready, order, final, temp, named, false, inputOk)
  }

  // ---------------------------------------------------------------- all or nothing

  /** Where `docCreate` puts its temporary file: a free name beside an acceptable target. */
  ghost predicate CreateTemp(fs: Tree, root: Path, final: Path, temp: Path) {
    && CanonicalRoot(fs, root) && root < final && PlainNames(final) && ParentsUsable(fs, root, final)
    && temp != [] && temp != final && Parent(temp) == Parent(final) && PlainNames(temp) && temp !in fs
    && (final in fs ==> !fs[final].Link?)
  }

  /** Where the edit tools put it: a free place in any directory, its name free as well. */
  ghost predicate EditTemp(fs: Tree, root: Path, final: Path, temp: Path, named: Path) {
    && CanonicalRoot(fs, root) && root < final && (final in fs ==> !fs[final].Link?)
    && temp != [] && temp != final && PlainName(temp[|temp| - 1]) && temp !in fs && named !in fs
    && Parent(temp) in fs && fs[Parent(temp)] == Dir
  }

  /**
   What an Office call does to the tree, in one piece: no temporary file remains, nothing but
   new directories and the target has changed, that holds exactly what was written, and the
   caps hold.
   */
  ghost predicate AllOrNothing(lim: Limits, fs: Tree, fs': Tree, root: Path, final: Path, temp: Path,
                               wrote: Option<string>) {
    && CanonicalRoot(fs', root) && OnlyUnder(root, fs, fs') && temp !in fs'
    && (forall p :: p in fs && p != final ==> p in fs' && fs'[p] == fs[p])
    && Leaves(fs', root) == (if wrote.Some? then Leaves(fs, root)[final := File(wrote.value)] else Leaves(fs, root))
    && (WithinCaps(lim, Leaves(fs, root)) ==> WithinCaps(lim, Leaves(fs', root)))
  }

  /** What a call wrote: the document `data`, if it succeeded. */
  function Wrote(o: Outcome, data: Option<string>): Option<string> {
    if o.Success? then data else None
  }

  /** The last run of `docCreate`: the batch on what the first run left, if there is a batch. */
  function LastRun(create: Engine, batch: Option<Engine>): EngineRun {
    match batch
    case Some(edit) => edit(create(None).leaves)
    case None => create(None)
  }

  /** When `docCreate` succeeds: every run ended well, and the last left an acceptable document that fits. */
  ghost predicate Creates(lim: Limits, fs: Tree, root: Path, final: Path, isNew: bool, create: Engine,
                          batch: Option<Engine>, inputOk: bool) {
    && create(None).ok && LastRun(create, batch).ok && LastRun(create, batch).leaves.Some? && inputOk
    && (final in fs ==> fs[final].File?)
    && OutputFits(lim, Leaves(fs, root), final, File(LastRun(create, batch).leaves.value), Usage(0, 0), isNew)
  }

  /** What the engine makes of a document, if it is there. */
  function EditRun(fs: Tree, final: Path, batch: Engine): Option<EngineRun> {
    if final in fs && fs[final].File? then Some(batch(Some(fs[final].data))) else None
  }

  function EditLeaves(fs: Tree, final: Path, batch: Engine): Option<string> {
    if EditRun(fs, final, batch).Some? then EditRun(fs, final, batch).value.leaves else None
  }

  /** When an edit does: there is a file, and the run on it left an acceptable document that fits. */
  ghost predicate Edits(lim: Limits, fs: Tree, root: Path, final: Path, temp: Path, named: Path, batch: Engine,
                        inputOk: bool) {
    && EditRun(fs, final, batch).Some? && EditRun(fs, final, batch).value.ok
    && EditLeaves(fs, final, batch).Some? && inputOk
    && var n := File(EditLeaves(fs, final, batch).value);
       OutputFits(lim, Leaves(fs, root), final, n, CountedTwice(fs[temp := n], root, temp, named), false)
  }

  /** A new file in an existing directory keeps the tree a tree, and is gone without trace when removed. */
  lemma FileAdded(fs: Tree, temp: Path, data: string)
    requires ValidTree(fs) && temp != [] && PlainName(temp[|temp| - 1]) && temp !in fs
    requires Parent(temp) in fs && fs[Parent(temp)] == Dir
    ensures ValidTree(fs[temp := File(data)]) && fs[temp := File(data)] - {temp} == fs
  {
    assert Parent(temp) + [temp[|temp| - 1]] == temp;
    EntryAdded(fs, Parent(temp), temp[|temp| - 1], File(data));
  }

  lemma LeavesBeside(fs: Tree, root: Path, temp: Path, data: string)
    requires temp !in fs
    ensures Leaves(fs[temp := File(data)], root) - {temp} == Leaves(fs, root)
  {
  }

  lemma CommitAtTemp(lim: Limits, fs: Tree, root: Path, order: seq<Path>, final: Path, temp: Path, named: Path,
                     isNew: bool, inputOk: bool, data: string)
    requires EditTemp(fs, root, final, temp, named) && PlainNames(final) && Parent(final) in fs
        && fs[Parent(final)] == Dir
    requires WalkOrder(fs[temp := File(data)], root, order)
    ensures var o := CommitOffice(lim, fs[temp := File(data)], order, final, temp, named, isNew, inputOk);
            && !o.Hangs? && AllOrNothing(lim, fs, o.tree, root, final, temp, Wrote(o, Some(data)))
            && (o.Failure? ==> o.tree == fs)
            && (o.Success? <==>
                && inputOk && (final in fs ==> fs[final].File?)
                && OutputFits(lim, Leaves(fs, root), final, File(data),
                              CountedTwice(fs[temp := File(data)], root, temp, named), isNew))
  {
    var ready := fs[temp := File(data)];
    FileAdded(fs, temp, data);
    LeavesBeside(fs, root, temp, data);
    CommitTree(lim, ready, order, final, temp, named, isNew, inputOk);
    CommitIff(lim, ready, root, order, final, temp, named, isNew, inputOk);
    CommitOfficeExact(lim, ready, root, order, final, temp, named, isNew, inputOk);
    Summed(lim, fs, CommitOffice(lim, ready, order, final, temp, named, isNew, inputOk), root, final, temp, data);
  }

  /** A commit leaves the tree without the temporary file, or that with the target replaced. */
  lemma CommitTree(lim: Limits, fs: Tree, order: seq<Path>, final: Path, temp: Path, named: Path, isNew: bool,
      inputOk: bool)
    ensures var o := CommitOffice(lim, fs, order, final, temp, named, isNew, inputOk);
            && !o.Hangs? && (o.Failure? ==> o.tree == fs - {temp})
            && (o.Success? ==> temp in fs && o.tree == (fs - {temp})[final := fs[temp]])
  {
  }

  /** The conclusions about a commit add up. */
  lemma Summed(lim: Limits, fs: Tree, o: Outcome, root: Path, final: Path, temp: Path, data: string)
    requires !o.Hangs? && CanonicalRoot(o.tree, root) && OnlyUnder(root, fs, o.tree) && temp !in o.tree
    requires o.Failure? ==> o.tree == fs
    requires o.Success? ==>
        o.tree == fs[final := File(data)] && Leaves(o.tree, root) == Leaves(fs, root)[final := File(data)]
    requires WithinCaps(lim, Leaves(fs, root)) ==> WithinCaps(lim, Leaves(o.tree, root))
    ensures AllOrNothing(lim, fs, o.tree, root, final, temp, Wrote(o, Some(data)))
  {
  }

  lemma NothingDone(lim: Limits, fs: Tree, root: Path, final: Path, temp: Path)
    requires CanonicalRoot(fs, root) && temp !in fs
    ensures AllOrNothing(lim, fs, fs, root, final, temp, None) && fs - {temp} == fs
  {
  }

  /** The directories that `docCreate` may find made for its target. */
  lemma CreateDirs(lim: Limits, fs: Tree, root: Path, final: Path, temp: Path)
    requires CreateTemp(fs, root, final, temp)
    ensures var made := MkdirAll(fs, Parent(temp));
            && EditTemp(made, root, final, temp, temp) && Parent(final) in made && made[Parent(final)] == Dir
            && AllOrNothing(lim, fs, made, root, final, temp, None)
            && (Parent(final) in fs ==> made == fs)
            && (final in made <==> final in fs) && (final in fs ==> made[final] == fs[final])
  {
    var dir := Parent(final);
    assert root <= dir < final;
    MkdirAllEffect(fs, root, dir);
    DirsKeepLeaves(root, fs, MkdirAll(fs, dir), dir, root);
    assert !(temp <= dir) && !(final <= dir);
  }

  /** One after the other. */
  lemma AllOrNothingAfter(lim: Limits, fs: Tree, made: Tree, fs': Tree, root: Path, final: Path, temp: Path,
                          wrote: Option<string>)
    requires AllOrNothing(lim, fs, made, root, final, temp, None)
        && AllOrNothing(lim, made, fs', root, final, temp, wrote)
    ensures AllOrNothing(lim, fs, fs', root, final, temp, wrote)
  {
  }

  /** What the engine's runs leave for the commit: nothing, directories, or a file at the temporary path. */
  lemma RunsLeave(fs: Tree, temp: Path, create: EngineRun, batch: Option<EngineRun>)
    requires temp != [] && temp !in fs && temp !in MkdirAll(fs, Parent(temp))
        && Parent(temp) in MkdirAll(fs, Parent(temp))
    ensures var made := AfterRun(fs, temp, create);
            var ready := if batch.Some? then AfterRun(made, temp, batch.value) else made;
            var left := if batch.Some? then batch.value.leaves else create.leaves;
            && (made - {temp} == fs || made - {temp} == MkdirAll(fs, Parent(temp)))
            && (ready - {temp} == fs || ready - {temp} == MkdirAll(fs, Parent(temp)))
            && (temp in ready <==> left.Some?)
            && (left.Some? ==> ready == MkdirAll(fs, Parent(temp))[temp := File(left.value)])
  {
    var dir := Parent(temp);
    var made := AfterRun(fs, temp, create);
    assert fs - {temp} == fs;
    if create.leaves.Some? {
      MkdirAllWithin(fs, dir, temp, File(create.leaves.value));
    }
    if batch.Some? && batch.value.leaves.Some? {
      assert MkdirAll(made, dir)[temp := File(batch.value.leaves.value)]
          == MkdirAll(fs, dir)[temp := File(batch.value.leaves.value)];
    }
  }

  /** Once made, a directory is not made again. */
  lemma MkdirAllWithin(fs: Tree, dir: Path, temp: Path, n: Node)
    requires dir in MkdirAll(fs, dir)
    ensures MkdirAll(MkdirAll(fs, dir)[temp := n], dir) == MkdirAll(fs, dir)[temp := n]
  {
  }

  /**
   `docCreate`: it succeeds exactly when every run ended well, the last of them left a document
   that is acceptable, the target is no directory, and the document fits; the target then holds
   what that run left.  Otherwise nothing has changed; where the target's directory is missing
   the engine may have made it, and that is all a failure leaves.
   */
  lemma CreateAllOrNothing(lim: Limits, fs: Tree, root: Path, order: seq<Path>, final: Path, temp: Path, isNew: bool,
                           create: Engine, batch: Option<Engine>, inputOk: bool)
    requires CreateTemp(fs, root, final, temp)
    requires WalkOrder(MkdirAll(fs, Parent(temp))[temp := File("")], root, order)
    ensures var o, left := CreateLocked(lim, fs, order, final, temp, isNew, create, batch, inputOk),
                           LastRun(create, batch).leaves;
            && !o.Hangs? && AllOrNothing(lim, fs, o.tree, root, final, temp, Wrote(o, left))
            && (o.Failure? && Parent(final) in fs ==> o.tree == fs)
            && (o.Success? <==> Creates(lim, fs, root, final, isNew, create, batch, inputOk))
  {
    var first, last := create(None), LastRun(create, batch);
    var made := AfterRun(fs, temp, first);
    assert DocumentAt(fs, temp) == None && DocumentAt(made, temp) == first.leaves;
    CreateDirs(lim, fs, root, final, temp);
    RunsLeave(fs, temp, first, if batch.Some? then Some(last) else None);
    if first.ok && last.ok && last.leaves.Some? {
      CreateCommits(lim, fs, root, order, final, temp, isNew, inputOk, last.leaves.value);
    } else {
      NothingDone(lim, fs, root, final, temp);
    }
  }

  /** The walk of a tree does not depend on what a file holds. */
  lemma SameWalk(fs: Tree, root: Path, order: seq<Path>, temp: Path, a: Node, b: Node)
    requires WalkOrder(fs[temp := a], root, order)
    ensures WalkOrder(fs[temp := b], root, order)
  {
  }

  /** The commit of a document whose directory may just have been made. */
  lemma CreateCommits(lim: Limits, fs: Tree, root: Path, order: seq<Path>, final: Path, temp: Path, isNew: bool,
                      inputOk: bool, data: string)
    requires CreateTemp(fs, root, final, temp)
    requires WalkOrder(MkdirAll(fs, Parent(temp))[temp := File("")], root, order)
    ensures var ready := MkdirAll(fs, Parent(temp))[temp := File(data)];
            var o := CommitOffice(lim, ready, order, final, temp, temp, isNew, inputOk);
            && !o.Hangs? && AllOrNothing(lim, fs, o.tree, root, final, temp, Wrote(o, Some(data)))
            && (o.Failure? && Parent(final) in fs ==> o.tree == fs)
            && (o.Success? <==>
                && inputOk && (final in fs ==> fs[final].File?)
                && OutputFits(lim, Leaves(fs, root), final, File(data), Usage(0, 0), isNew))
  {
    var dirs := MkdirAll(fs, Parent(temp));
    CreateDirs(lim, fs, root, final, temp);
    SameWalk(dirs, root, order, temp, File(""), File(data));
    CommitAtTemp(lim, dirs, root, order, final, temp, temp, isNew, inputOk, data);
    assert Leaves(dirs, root) == Leaves(fs, root);
    assert CountedTwice(dirs[temp := File(data)], root, temp, temp) == Usage(0, 0);
    var o := CommitOffice(lim, dirs[temp := File(data)], order, final, temp, temp, isNew, inputOk);
    AllOrNothingAfter(lim, fs, dirs, o.tree, root, final, temp, Wrote(o, Some(data)));
  }

  /**
   The editing tools likewise: the target is a file before, and on success holds what the run
   left of its copy; the copy counts again where its place is not its name.
   */
  lemma EditAllOrNothing(lim: Limits, fs: Tree, root: Path, order: seq<Path>, final: Path, temp: Path, named: Path,
                         batch: Engine, inputOk: bool)
    requires EditTemp(fs, root, final, temp, named) && WalkOrder(fs[temp := File("")], root, order)
    ensures var o := EditLocked(lim, fs, order, final, temp, named, batch, inputOk);
            && !o.Hangs? && AllOrNothing(lim, fs, o.tree, root, final, temp, Wrote(o, EditLeaves(fs, final, batch)))
            && (o.Failure? ==> o.tree == fs)
            && (o.Success? <==> Edits(lim, fs, root, final, temp, named, batch, inputOk))
  {
    NothingDone(lim, fs, root, final, temp);
    if final in fs && fs[final].File? {
      ExistingPlain(fs, final);
      var run := batch(Some(fs[final].data));
      assert DocumentAt(fs[temp := fs[final]], temp) == Some(fs[final].data);
      var ready := AfterRun(fs[temp := fs[final]], temp, run);
      assert ready - {temp} == fs;
      if run.leaves.Some? {
        assert ready == fs[temp := File(run.leaves.value)];
        if run.ok {
          CommitAtTemp(lim, fs, root, order, final, temp, named, false, inputOk, run.leaves.value);
        }
      }
    }
  }

  /** The temporary file an edit chooses, once its place is free, is such a place. */
  lemma ChosenTempFits(fs: Tree, root: Path, supplied: string, name: string, final: Path)
    requires CanonicalRoot(fs, root) && PlainName(name) && root < final && (final in fs ==> !fs[final].Link?)
    requires var named := TempName(root, supplied, name);
             && Stat(fs, Parent(named)).Found?
             && Stat(fs, Parent(named)).path in fs && fs[Stat(fs, Parent(named)).path] == Dir
             && TempPlace(fs, named) !in fs && TempPlace(fs, named) != final
    ensures var named := TempName(root, supplied, name); EditTemp(fs, root, final, TempPlace(fs, named), named)
  {
    var named := TempName(root, supplied, name);
    TempPlaceFree(fs, named);
    var dir := Stat(fs, Parent(named)).path;
    assert TempPlace(fs, named) == dir + [name] && Parent(dir + [name]) == dir;
  }

  class Files {
    const root: Path
    const lim: Limits
    var nodes: Tree

    constructor (root: Path, lim: Limits, nodes: Tree)
      ensures this.root == root && this.lim == lim && this.nodes == nodes
    {
      this.root, this.lim, this.nodes := root, lim, nodes;
    }

    method EnforceQuota(order: seq<Path>, newSize: nat, existingSize: nat, isNew: bool) returns (v: Verdict)
      ensures v == Quota.EnforceQuota(lim, nodes, order, newSize, existingSize, isNew)
    {
      if lim.maxWorkspaceBytes <= 0 && lim.maxWorkspaceFiles <= 0 {
        return Allowed;
      }
      var used := UsageExcluding(nodes, order, None, lim);
      if lim.maxWorkspaceBytes > 0 && used.bytes - existingSize + newSize > lim.maxWorkspaceBytes {
        return BytesExceeded;
      }
      if isNew && lim.maxWorkspaceFiles > 0 && used.count >= lim.maxWorkspaceFiles {
        return FilesExceeded;
      }
      return Allowed;
    }

    method CheckOfficeOutputAllowed(order: seq<Path>, existing: Path, output: Path, named: Path, isNew: bool)
      returns (e: Option<ToolError>)
      requires output in nodes
      ensures e == CheckOfficeOutput(lim, nodes, order, existing, output, named, isNew)
    {
      if lim.maxWorkspaceBytes <= 0 && lim.maxWorkspaceFiles <= 0 {
        return None;
      }
      var existingSize := 0;
      if !isNew {
        var info := Stat(nodes, existing);
        if !info.Found? || info.path !in nodes {
          return Some(StatFailed);
        }
        existingSize := NodeSize(nodes[info.path]);
      }
      var used := UsageExactExcluding(nodes, order, Some(named));
      if lim.maxWorkspaceBytes > 0 && used.bytes - existingSize + NodeSize(nodes[output]) > lim.maxWorkspaceBytes {
        return Some(QuotaExceeded(BytesExceeded));
      }
      if isNew && lim.maxWorkspaceFiles > 0 && used.count + 1 > lim.maxWorkspaceFiles {
        return Some(QuotaExceeded(FilesExceeded));
      }
      return None;
    }

    /** Temporary file, rename, and the deferred removal. */
    method Replace(target: Path, content: string, name: Name) returns (reply: Reply)
      requires target != [] && Parent(target) + [name] !in nodes && Parent(target) + [name] != target
      modifies this`nodes
      ensures Agrees(RenameOver(old(nodes), target, File(content)), old(nodes), nodes, reply)
    {
      var temp := Parent(target) + [name];
      nodes := nodes[temp := File("")];
      nodes := nodes[temp := File(content)];
      if target in nodes && nodes[target] == Dir {
        nodes := nodes - {temp};
        assert nodes == old(nodes);
        return Denied(RenameFailed);
      }
      nodes := (nodes - {temp})[target := nodes[temp]];
      nodes := nodes - {temp};
      assert nodes == old(nodes)[target := File(content)];
      return Done;
    }

    /** `Files.Write`; `name` is the temporary name that was free. */
    method Write(supplied: string, content: string, overwrite: bool, order: seq<Path>, name: Name)
        returns (reply: Reply)
      requires CanonicalRoot(nodes, root) && FreshName(nodes, CleanPath(supplied), name)
      modifies this`nodes
      ensures Agrees(WriteTool(lim, old(nodes), root, order, supplied, content, overwrite), old(nodes), nodes, reply)
      ensures reply.Denied? ==> nodes == old(nodes)
      ensures reply == Done ==>
                && OnlyUnder(root, old(nodes), nodes)
                && Leaves(nodes, root) == Leaves(old(nodes), root)[root + CleanPath(supplied) := File(content)]
    {
      WriteExact(lim, nodes, root, order, supplied, content, overwrite);
      if |content| > lim.maxBytes {
        return Denied(TooLarge);
      }
      var target;
      match Resolve(nodes, root, supplied, true) {
        case Rejected(why) => return Denied(PathProblem(why));
        case NoReturn => return NoReply;
        case Accepted(p) => target := p;
      }
      assert root < target == root + CleanPath(supplied) by { ResolveTargetExact(nodes, root, supplied); }
      if !overwrite {
        var info := Lstat(nodes, target);
        if info.Found? {
          return Denied(AlreadyExists);
        }
        if info.Failed? {
          return Denied(PathProblem(LookupError));
        }
      }
      var existingSize, isNew := 0, true;
      var info := Stat(nodes, target);
      if info.Found? && info.path in nodes {
        existingSize, isNew := NodeSize(nodes[info.path]), false;
      }
      var verdict := EnforceQuota(order, |content|, existingSize, isNew);
      if verdict != Allowed {
        return Denied(QuotaExceeded(verdict));
      }
      var made := MkdirAll(nodes, Parent(target));
      ghost var temp := Parent(target) + [name];
      assert temp !in made by {
        assert name in temp;
        if temp in made { MkdirAllAddsAncestors(nodes, Parent(target), temp); }
      }
      assert temp != target by {
        assert root in nodes;
        assert name in temp && name !in root && name !in CleanPath(supplied);
      }
      nodes := made;
      reply := Replace(target, content, name);
    }

    /** `Files.Read` with the server's limit. */
    method Read(supplied: string) returns (r: Result<string, ToolError>)
      requires CanonicalRoot(nodes, root)
      ensures r == ReadTool(lim, nodes, root, supplied)
    {
      var target;
      match Resolve(nodes, root, supplied, false) {
        case Rejected(why) => return Err(PathProblem(why));
        case NoReturn => return Err(PathProblem(LookupError));
        case Accepted(p) => target := p;
      }
      assert target in nodes && !nodes[target].Link? by { ResolveContained(nodes, root, supplied, false); }
      if nodes[target] == Dir {
        return Err(IsDirectory);
      }
      if |nodes[target].data| > lim.maxBytes {
        return Err(TooLarge);
      }
      return Ok(nodes[target].data);
    }

    /** `Files.Edit`. */
    method Edit(supplied: string, oldText: string, newText: string, order: seq<Path>, name: Name) returns (reply: Reply)
      requires CanonicalRoot(nodes, root) && FreshName(nodes, CleanPath(supplied), name)
      modifies this`nodes
      ensures Agrees(EditTool(lim, old(nodes), root, order, supplied, oldText, newText), old(nodes), nodes, reply)
      ensures reply != NoReply && (reply.Denied? ==> nodes == old(nodes))
      ensures reply == Done ==>
                var full := root + CleanPath(supplied);
                && full in old(nodes) && old(nodes)[full].File? && OnlyUnder(root, old(nodes), nodes)
                && exists p, s ::
                     && TextEdit.EditsAt(old(nodes)[full].data, oldText, p, s)
                     && Leaves(nodes, root) == Leaves(old(nodes), root)[full := File(p + newText + s)]
    {
      EditToolExact(lim, nodes, root, order, supplied, oldText, newText);
      if oldText == "" {
        return Denied(EditProblem(TextEdit.EmptyOld));
      }
      var data := Read(supplied);
      if data.Err? {
        return Denied(data.error);
      }
      var text := TextEdit.EditText(data.value, oldText, newText);
      if text.Err? {
        return Denied(EditProblem(text.error));
      }
      reply := Write(supplied, text.value, true, order, name);
      if reply == Done {
        ghost var full := root + CleanPath(supplied);
        ghost var p, s :| EditsTo(lim, old(nodes), order, full, oldText, newText, p, s);
        assert TextEdit.EditsAt(old(nodes)[full].data, oldText, p, s);
      }
    }

    /** `Files.Move`. */
    method Move(src: string, dst: string) returns (reply: Reply)
      requires CanonicalRoot(nodes, root)
      modifies this`nodes
      ensures Agrees(MoveTool(old(nodes), root, src, dst), old(nodes), nodes, reply)
      ensures reply == Done ==>
                && Resolve(old(nodes), root, src, false).Accepted? && OnlyUnder(root, old(nodes), nodes)
                && MovedTree(old(nodes), nodes, root, Resolve(old(nodes), root, src, false).path, root + CleanPath(dst))
      ensures reply.Denied? ==> forall other :: Leaves(nodes, other) == Leaves(old(nodes), other)
    {
      MoveExact(nodes, root, src, dst);
      var source, destination;
      match Resolve(nodes, root, src, false) {
        case Rejected(why) => return Denied(PathProblem(why));
        case NoReturn => return NoReply;
        case Accepted(p) => source := p;
      }
      match Resolve(nodes, root, dst, true) {
        case Rejected(why) => return Denied(PathProblem(why));
        case NoReturn => return NoReply;
        case Accepted(p) => destination := p;
      }
      if Lstat(nodes, destination).Found? {
        return Denied(AlreadyExists);
      }
      nodes := MkdirAll(nodes, Parent(destination));
      if source <= destination {
        return Denied(RenameFailed);
      }
      nodes := Rename(nodes, source, destination);
      return Done;
    }

    /** `Files.Delete`. */
    method Delete(supplied: string, confirm: bool) returns (reply: Reply)
      requires CanonicalRoot(nodes, root)
      modifies this`nodes
      ensures Agrees(DeleteTool(lim, old(nodes), root, supplied, confirm), old(nodes), nodes, reply)
      ensures reply != NoReply && (reply.Denied? ==> nodes == old(nodes))
      ensures reply == Done ==>
                var target := Resolve(old(nodes), root, supplied, false);
                && target.Accepted? && lim.deleteEnabled && confirm
                && target.path in Leaves(old(nodes), root)
                && Leaves(nodes, root) == Leaves(old(nodes), root) - {target.path}
                && OnlyUnder(root, old(nodes), nodes)
    {
      DeleteExact(lim, nodes, root, supplied, confirm);
      if !lim.deleteEnabled {
        return Denied(DeletionDisabled);
      }
      if !confirm {
        return Denied(NotConfirmed);
      }
      var target;
      match Resolve(nodes, root, supplied, false) {
        case Rejected(why) => return Denied(PathProblem(why));
        case NoReturn => return NoReply;
        case Accepted(p) => target := p;
      }
      if target in nodes && nodes[target] == Dir {
        return Denied(IsDirectory);
      }
      nodes := nodes - {target};
      return Done;
    }

    /** The checks and the rename that end every Office call. */
    method Commit(order: seq<Path>, final: Path, temp: Path, named: Path, isNew: bool, inputOk: bool)
        returns (reply: Reply)
      requires temp != final
      modifies this`nodes
      ensures Agrees(CommitOffice(lim, old(nodes), order, final, temp, named, isNew, inputOk), old(nodes), nodes, reply)
    {
      if temp !in nodes || !inputOk {
        nodes := nodes - {temp};
        return Denied(InputRejected);
      }
      var refusal := CheckOfficeOutputAllowed(order, final, temp, named, isNew);
      if refusal.Some? {
        nodes := nodes - {temp};
        return Denied(refusal.value);
      }
      if final in nodes && nodes[final] == Dir {
        nodes := nodes - {temp};
        return Denied(RenameFailed);
      }
      nodes := (nodes - {temp})[final := nodes[temp]];
      assert nodes - {temp} == nodes;
      nodes := nodes - {temp};
      return Done;
    }

    /** `docCreate` from the lock on. */
    method CreateDocument(order: seq<Path>, final: Path, temp: Path, isNew: bool,
                          create: Engine, batch: Option<Engine>, inputOk: bool) returns (reply: Reply)
      requires temp != final
      modifies this`nodes
      ensures Agrees(CreateLocked(lim, old(nodes), order, final, temp, isNew, create, batch, inputOk), old(nodes),
          nodes, reply)
      ensures CreateTemp(old(nodes), root, final, temp)
              && WalkOrder(MkdirAll(old(nodes), Parent(temp))[temp := File("")], root, order) ==>
                && reply != NoReply
                && (reply == Done <==> Creates(lim, old(nodes), root, final, isNew, create, batch, inputOk))
                && AllOrNothing(lim, old(nodes), nodes, root, final, temp,
                                if reply == Done then LastRun(create, batch).leaves else None)
                && (reply.Denied? && Parent(final) in old(nodes) ==> nodes == old(nodes))
    {
      if CreateTemp(nodes, root, final, temp)
          && WalkOrder(MkdirAll(nodes, Parent(temp))[temp := File("")], root, order) {
        CreateAllOrNothing(lim, nodes, root, order, final, temp, isNew, create, batch, inputOk);
      }
      var run := create(DocumentAt(nodes, temp));
      nodes := AfterRun(nodes, temp, run);
      if !run.ok {
        nodes := nodes - {temp};
        return Denied(EngineFailed);
      }
      if batch.Some? {
        run := batch.value(DocumentAt(nodes, temp));
        nodes := AfterRun(nodes, temp, run);
        if !run.ok {
          nodes := nodes - {temp};
          return Denied(EngineFailed);
        }
      }
      reply := Commit(order, final, temp, temp, isNew, inputOk);
    }

    /** `docEdit` and `sheetSetCells` from the lock on. */
    method EditDocument(order: seq<Path>, final: Path, temp: Path, named: Path, batch: Engine, inputOk: bool)
      returns (reply: Reply)
      requires temp != final
      modifies this`nodes
      ensures Agrees(EditLocked(lim, old(nodes), order, final, temp, named, batch, inputOk), old(nodes), nodes, reply)
      ensures EditTemp(old(nodes), root, final, temp, named) && WalkOrder(old(nodes)[temp := File("")], root, order) ==>
                && reply != NoReply
                && (reply == Done <==> Edits(lim, old(nodes), root, final, temp, named, batch, inputOk))
                && AllOrNothing(lim, old(nodes), nodes, root, final, temp,
                                if reply == Done then EditLeaves(old(nodes), final, batch) else None)
                && (reply.Denied? ==> nodes == old(nodes))
    {
      if EditTemp(nodes, root, final, temp, named) && WalkOrder(nodes[temp := File("")], root, order) {
        EditAllOrNothing(lim, nodes, root, order, final, temp, named, batch, inputOk);
      }
      if final !in nodes || !nodes[final].File? {
        nodes := nodes - {temp};
        return Denied(StatFailed);
      }
      nodes := nodes[temp := nodes[final]];
      var run := batch(DocumentAt(nodes, temp));
      nodes := AfterRun(nodes, temp, run);
      if !run.ok {
        nodes := nodes - {temp};
        return Denied(EngineFailed);
      }
      reply := Commit(order, final, temp, named, false, inputOk);
    }
  }
}
