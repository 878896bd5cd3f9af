/**
 What the file tools do to the tree: write, edit, move, delete, and the commit section of
 the Office tools.  Each function is one call from the taking of the workspace lock to its
 release; temporary files are created and removed in between (module FileTools).
 */
module Store {
  import opened Base
  import opened Paths
  import opened Quota
  import opened TextEdit

  datatype ToolError =
    | TooLarge
    | PathProblem(why: PathError)
    | AlreadyExists
    | IsDirectory
    | QuotaExceeded(verdict: Verdict)
    | EditProblem(reason: EditError)
    | DeletionDisabled
    | NotConfirmed
    | RenameFailed
    | EngineFailed
    | InputRejected
    | StatFailed

  /** The call succeeded or failed, leaving a tree behind; or it never returns. */
  datatype Outcome = Success(tree: Tree) | Failure(tree: Tree, why: ToolError) | Hangs

  // ---------------------------------------------------------------- system calls

  /** `os.MkdirAll` below existing directories. */
  function MkdirAll(fs: Tree, p: Path): Tree
    decreases |p|
  {
    if p in fs || p == [] then fs else MkdirAll(fs, Parent(p))[p := Dir]
  }

  /** Everything outside the subtree at `root` is as before. */
  ghost predicate OnlyUnder(root: Path, fs: Tree, fs': Tree) {
    forall p :: !(root <= p) ==> (p in fs' <==> p in fs) && (p in fs ==> p in fs' && fs'[p] == fs[p])
  }

  /** New directories appear on the way to `p`; nothing else changes. */
  ghost predicate OnlyDirsAdded(root: Path, fs: Tree, fs': Tree, p: Path) {
    && (forall q :: q in fs ==> q in fs' && fs'[q] == fs[q])
    && forall q :: q in fs' && q !in fs ==> root < q <= p && fs'[q] == Dir
  }

  lemma {:induction false} MkdirAllEffect(fs: Tree, root: Path, p: Path)
    requires CanonicalRoot(fs, root) && root <= p && PlainNames(p)
    requires forall q :: root <= q <= p && q in fs ==> fs[q] == Dir
    ensures var fs' := MkdirAll(fs, p);
            CanonicalRoot(fs', root) && p in fs' && fs'[p] == Dir && OnlyDirsAdded(root, fs, fs', p)
    decreases |p|
  {
    if p !in fs {
      assert root != p;
      assert root <= Parent(p) && PlainName(p[|p| - 1]);
      MkdirAllEffect(fs, root, Parent(p));
      var mid := MkdirAll(fs, Parent(p));
      assert p !in mid;
      forall q | q in mid[p := Dir] && q != []
        ensures Parent(q) in mid[p := Dir] && mid[p := Dir][Parent(q)] == Dir && PlainName(q[|q| - 1])
      {
        assert q != p ==> q in mid;
      }
    }
  }

  /** Directories never show among the leaves of any workspace. */
  lemma DirsKeepLeaves(root: Path, fs: Tree, fs': Tree, p: Path, other: Path)
    requires OnlyDirsAdded(root, fs, fs', p)
    ensures Leaves(fs', other) == Leaves(fs, other)
    ensures OnlyUnder(root, fs, fs')
  {
    forall q | !(root <= q) ensures q in fs' <==> q in fs { }
  }

  /** `os.Rename` of a file over `target`: a directory there refuses, anything else is replaced. */
  function RenameOver(fs: Tree, target: Path, n: Node): Outcome {
    if target in fs && fs[target] == Dir then Failure(fs, RenameFailed) else Success(fs[target := n])
  }

  lemma PutLeaf(fs: Tree, root: Path, target: Path, n: Node)
    requires CanonicalRoot(fs, root) && root < target && n != Dir && PlainName(target[|target| - 1])
    requires Parent(target) in fs && fs[Parent(target)] == Dir
    requires target in fs ==> fs[target] != Dir
    ensures CanonicalRoot(fs[target := n], root)
    ensures Leaves(fs[target := n], root) == Leaves(fs, root)[target := n]
    ensures OnlyUnder(root, fs, fs[target := n])
  {
    var fs' := fs[target := n];
    forall q | q in fs' && q != [] ensures Parent(q) in fs' && fs'[Parent(q)] == Dir && PlainName(q[|q| - 1]) {
      assert q != target ==> q in fs;
    }
  }

  lemma DropLeaf(fs: Tree, root: Path, target: Path)
    requires CanonicalRoot(fs, root) && root < target && target in fs && fs[target] != Dir
    ensures CanonicalRoot(fs - {target}, root)
    ensures Leaves(fs - {target}, root) == Leaves(fs, root) - {target}
    ensures OnlyUnder(root, fs, fs - {target})
  {
    var fs' := fs - {target};
    forall q | q in fs' && q != [] ensures Parent(q) in fs' && fs'[Parent(q)] == Dir {
      assert q in fs;
    }
  }

  // ---------------------------------------------------------------- fs_write

  /** `Files.Write`. */
  function WriteTool(lim: Limits, fs: Tree, root: Path, order: seq<Path>, supplied: string, content: Bytes,
      overwrite: bool): Outcome
  {
    if |content| > lim.maxBytes then Failure(fs, TooLarge)
    else match Resolve(fs, root, supplied, true)
      case Rejected(why) => Failure(fs, PathProblem(why))
      case NoReturn => Hangs
      case Accepted(target) => WriteAt(lim, fs, order, target, content, overwrite)
  }

  function ExistingSize(fs: Tree, p: Path): Option<nat> {
    var info := Stat(fs, p);
    if info.Found? && info.path in fs then Some(NodeSize(fs[info.path])) else None
  }

  function WriteAt(lim: Limits, fs: Tree, order: seq<Path>, target: Path, content: Bytes, overwrite: bool): Outcome {
    if !overwrite && Lstat(fs, target).Found? then Failure(fs, AlreadyExists)
    else if !overwrite && Lstat(fs, target).Failed? then Failure(fs, PathProblem(LookupError))
    else
      var existing := ExistingSize(fs, target);
      var size := if existing.Some? then existing.value else 0;
      var verdict := EnforceQuota(lim, fs, order, |content|, size, existing.None?);
      if verdict != Allowed then Failure(fs, QuotaExceeded(verdict))
      else RenameOver(MkdirAll(fs, Parent(target)), target, File(content))
  }

  /** A place a file may be written to: new, or an existing file, below directories. */
  ghost predicate Writable(fs: Tree, root: Path, target: Path) {
    && root < target && PlainNames(target)
    && ParentsUsable(fs, root, target)
    && (target in fs ==> fs[target].File?)
  }

  lemma {:induction false} StatMissing(fs: Tree, root: Path, clean: Path)
    requires CanonicalRoot(fs, root) && PlainNames(root + clean) && ParentsUsable(fs, root, root + clean)
    requires root + clean !in fs
    ensures Stat(fs, root + clean) == Missing && Lstat(fs, root + clean) == Missing
  {
    var e, left := Deepest(fs, root, clean);
    var p := root + clean;
    assert left == [] ==> p == e;
    var x, rest := left[0], left[1..];
    assert p == e + [x] + rest && p[|e|] == x;
    UsableIff(fs, root, e, x, rest);
    WalkBelow(fs, e, x, rest, KERNEL_LINKS);
    if rest == [] {
      assert p == e + [x];
      LstatBelow(fs, e, x);
    } else {
      LstatPast(fs, e, x, rest);
    }
  }

  lemma StatFound(fs: Tree, p: Path)
    requires ValidTree(fs) && p in fs && !fs[p].Link?
    ensures Stat(fs, p) == Found(p) && Lstat(fs, p) == Found(p)
  {
    LstatExisting(fs, p);
    ExistingPlain(fs, p);
    if p != [] {
      var x := p[|p| - 1];
      assert p == Parent(p) + [x] && p == Parent(p) + [x] + [];
      WalkBelow(fs, Parent(p), x, [], KERNEL_LINKS);
    }
  }

  /** The quota decision of a write at a writable place, on the leaves. */
  ghost function WriteVerdict(lim: Limits, fs: Tree, order: seq<Path>, target: Path, size: nat): Verdict {
    EnforceQuota(lim, fs, order, size, if target in fs then NodeSize(fs[target]) else 0, target !in fs)
  }

  /** A write to an accepted target: when it succeeds, and what it then changes. */
  lemma WriteAtExact(lim: Limits, fs: Tree, root: Path, order: seq<Path>, target: Path, content: Bytes, overwrite: bool)
    requires CanonicalRoot(fs, root) && root < target && PlainNames(target)
    requires ParentsUsable(fs, root, target) && (target in fs ==> !fs[target].Link?)
    ensures var o := WriteAt(lim, fs, order, target, content, overwrite);
            && (o.Success? <==>
                && Writable(fs, root, target)
                && (overwrite || target !in fs)
                && WriteVerdict(lim, fs, order, target, |content|) == Allowed)
            && (o.Success? ==>
                && CanonicalRoot(o.tree, root)
                && OnlyUnder(root, fs, o.tree)
                && Leaves(o.tree, root) == Leaves(fs, root)[target := File(content)])
            && (!o.Success? ==> o.Failure? && o.tree == fs)
  {
    assert target == root + target[|root|..];
    if target in fs {
      StatFound(fs, target);
    } else {
      StatMissing(fs, root, target[|root|..]);
    }
    var dir := Parent(target);
    assert root <= dir < target;
    MkdirAllEffect(fs, root, dir);
    var mid := MkdirAll(fs, dir);
    DirsKeepLeaves(root, fs, mid, dir, root);
    if target in fs {
      assert mid == fs;
    } else {
      assert target !in mid;
    }
    if target !in mid || mid[target] != Dir {
      PutLeaf(mid, root, target, File(content));
    }
  }

  /** Exactly when `fs_write` succeeds, and that it is all or nothing. */
  lemma WriteExact(lim: Limits, fs: Tree, root: Path, order: seq<Path>, supplied: string, content: Bytes,
      overwrite: bool)
    requires CanonicalRoot(fs, root)
    ensures var o, full := WriteTool(lim, fs, root, order, supplied, content, overwrite), root + CleanPath(supplied);
            && (o.Success? <==>
                && |content| <= lim.maxBytes
                && StaysInside(supplied) && Writable(fs, root, full)
                && (overwrite || full !in fs)
                && WriteVerdict(lim, fs, order, full, |content|) == Allowed)
            && (o.Success? ==>
                && CanonicalRoot(o.tree, root)
                && OnlyUnder(root, fs, o.tree)
                && Leaves(o.tree, root) == Leaves(fs, root)[full := File(content)])
            && (o.Failure? ==> o.tree == fs)
            && (o.Hangs? <==> |content| <= lim.maxBytes && StaysInside(supplied) && full == root)
  {
    ResolveTargetExact(fs, root, supplied);
    if StaysInside(supplied) {
      LexicalChecksPass(fs, root, supplied);
    }
    if Resolve(fs, root, supplied, true).Accepted? {
      WriteAtExact(lim, fs, root, order, root + CleanPath(supplied), content, overwrite);
    }
  }

  /** A place that a write may name: inside, not the root, below directories, and no link. */
  ghost predicate Acceptable(fs: Tree, root: Path, supplied: string) {
    var full := root + CleanPath(supplied);
    && StaysInside(supplied) && full != root
    && ParentsUsable(fs, root, full) && (full in fs ==> !fs[full].Link?)
  }

  /** Why a write fails: each reason under a condition of its own, in the order in which they are looked for. */
  lemma WriteWhy(lim: Limits, fs: Tree, root: Path, order: seq<Path>, supplied: string, content: Bytes, overwrite: bool)
    requires CanonicalRoot(fs, root) && WriteTool(lim, fs, root, order, supplied, content, overwrite).Failure?
    ensures var why := WriteTool(lim, fs, root, order, supplied, content, overwrite).why;
            var full := root + CleanPath(supplied);
            var verdict := WriteVerdict(lim, fs, order, full, |content|);
            if |content| > lim.maxBytes then why == TooLarge
            else if !Acceptable(fs, root, supplied) then why.PathProblem?
            else if !overwrite && full in fs then why == AlreadyExists
            else if verdict != Allowed then why == QuotaExceeded(verdict)
            else why == RenameFailed && full in fs && fs[full] == Dir
  {
    var full := root + CleanPath(supplied);
    ResolveTargetExact(fs, root, supplied);
    if Acceptable(fs, root, supplied) {
      LexicalChecksPass(fs, root, supplied);
      if full in fs { StatFound(fs, full); } else { StatMissing(fs, root, CleanPath(supplied)); }
      WriteExact(lim, fs, root, order, supplied, content, overwrite);
      if full in fs && |content| <= lim.maxBytes { AboveExisting(fs, full); }
    }
  }

  /** Nothing has to be made for what exists. */
  lemma AboveExisting(fs: Tree, p: Path)
    requires ValidTree(fs) && p in fs
    ensures MkdirAll(fs, Parent(p)) == fs
  {
    assert p != [] ==> Parent(p) in fs;
  }

  /** Writing to ".", for one, never returns. */
  lemma WriteToRootHangs(lim: Limits, fs: Tree, root: Path, order: seq<Path>, content: Bytes, overwrite: bool)
    requires CanonicalRoot(fs, root) && |content| <= lim.maxBytes
    ensures WriteTool(lim, fs, root, order, ".", content, overwrite).Hangs?
  {
    assert "."[1..] == "" && "." + "" == ".";
    assert Split("") == [""];
    assert Split(".") == ["."];
    assert CleanPath(".") == [];
    assert root + [] == root;
    WriteExact(lim, fs, root, order, ".", content, overwrite);
  }

  /** A write fits: the caps hold afterwards, or the early scan lets a replacement pass in a workspace over its caps. */
  ghost predicate WriteFits(lim: Limits, fs: Tree, root: Path, order: seq<Path>, target: Path, content: Bytes) {
    if target in fs && !WithinCaps(lim, Leaves(fs, root))
      then WriteVerdict(lim, fs, order, target, |content|) == Allowed
    else WithinCaps(lim, Leaves(fs, root)[target := File(content)])
  }

  /** When a write is allowed. */
  lemma WriteFitsIff(lim: Limits, fs: Tree, root: Path, order: seq<Path>, target: Path, content: Bytes)
    requires WalkOrder(fs, root, order) && root <= target && (target in fs ==> fs[target].File?)
    ensures WriteVerdict(lim, fs, order, target, |content|) == Allowed <==>
            WriteFits(lim, fs, root, order, target, content)
  {
    ExactScanIsUsage(fs, root, order);
    TotalSizePut(Leaves(fs, root), target, File(content));
    if target in fs && WithinCaps(lim, Leaves(fs, root)) {
      EarlyScanExactWithinCaps(lim, fs, order, |content|, NodeSize(fs[target]), false);
    } else if target !in fs {
      EarlyScanExactForNewFiles(lim, fs, order, |content|);
    }
  }

  /** A successful write keeps the caps of a workspace that respects them. */
  lemma WriteKeepsCaps(lim: Limits, fs: Tree, root: Path, order: seq<Path>, supplied: string, content: Bytes,
      overwrite: bool)
    requires CanonicalRoot(fs, root) && WalkOrder(fs, root, order) && WithinCaps(lim, Leaves(fs, root))
    requires WriteTool(lim, fs, root, order, supplied, content, overwrite).Success?
    ensures WithinCaps(lim, Leaves(WriteTool(lim, fs, root, order, supplied, content, overwrite).tree, root))
  {
    var full := root + CleanPath(supplied);
    WriteExact(lim, fs, root, order, supplied, content, overwrite);
    ExactScanIsUsage(fs, root, order);
    var existing := if full in fs then NodeSize(fs[full]) else 0;
    EarlyScanExactWithinCaps(lim, fs, order, |content|, existing, full !in fs);
    AllowedKeepsCaps(lim, Leaves(fs, root), ExactScan(fs, order, None), full, File(content));
  }

  // ---------------------------------------------------------------- fs_edit

  /** `Files.Read` with the server's own limit. */
  function ReadTool(lim: Limits, fs: Tree, root: Path, supplied: string): Result<Bytes, ToolError> {
    match Resolve(fs, root, supplied, false)
    case Rejected(why) => Err(PathProblem(why))
    case NoReturn => Err(PathProblem(LookupError))
    case Accepted(p) =>
      if p !in fs then Err(PathProblem(Paths.NotFound))
      else match fs[p]
        case Dir => Err(IsDirectory)
        case Link(_) => Err(PathProblem(LookupError))
        case File(data) => if |data| > lim.maxBytes then Err(TooLarge) else Ok(data)
  }

  /** `Files.Edit`. */
  function EditTool(lim: Limits, fs: Tree, root: Path, order: seq<Path>, supplied: string, oldText: Bytes,
      newText: Bytes): Outcome
  {
    if oldText == "" then Failure(fs, EditProblem(EmptyOld))
    else match ReadTool(lim, fs, root, supplied)
      case Err(e) => Failure(fs, e)
      case Ok(data) =>
        match Edited(data, oldText, newText)
        case Err(e) => Failure(fs, EditProblem(e))
        case Ok(text) => WriteTool(lim, fs, root, order, supplied, text, true)
  }

  /** The file an edit would read, and that it may be written back. */
  ghost predicate Editable(lim: Limits, fs: Tree, root: Path, supplied: string) {
    var full := root + CleanPath(supplied);
    StaysInside(supplied) && Writable(fs, root, full) && full in fs && |fs[full].data| <= lim.maxBytes
  }

  /** Where a write would be accepted, a read reads that very file, if it is short enough. */
  lemma EditableReads(lim: Limits, fs: Tree, root: Path, supplied: string)
    requires CanonicalRoot(fs, root) && StaysInside(supplied) && Writable(fs, root, root + CleanPath(supplied))
    ensures ReadTool(lim, fs, root, supplied).Ok? <==> Editable(lim, fs, root, supplied)
    ensures Editable(lim, fs, root, supplied) ==>
              ReadTool(lim, fs, root, supplied) == Ok(fs[root + CleanPath(supplied)].data)
  {
    var full := root + CleanPath(supplied);
    if full in fs {
      ResolveExistingPlain(fs, root, supplied);
    } else {
      LexicalChecksPass(fs, root, supplied);
      EvalUsable(fs, root, CleanPath(supplied));
    }
  }

  /** The text an edit of `full` writes: the file splits around the old text, and the new one may be stored. */
  ghost predicate EditsTo(lim: Limits, fs: Tree, order: seq<Path>, full: Path, oldText: Bytes, newText: Bytes,
      p: Bytes, s: Bytes)
    requires full in fs && fs[full].File?
  {
    && EditsAt(fs[full].data, oldText, p, s)
    && |p + newText + s| <= lim.maxBytes
    && WriteVerdict(lim, fs, order, full, |p + newText + s|) == Allowed
  }

  /**
   Exactly when `fs_edit` succeeds: the file can be read and written back, and splits around
   the old text into something that may be stored.  A success rewrites that file alone, with
   that text; a failure changes nothing; and every call returns.
   */
  lemma EditToolExact(lim: Limits, fs: Tree, root: Path, order: seq<Path>, supplied: string, oldText: Bytes,
      newText: Bytes)
    requires CanonicalRoot(fs, root)
    ensures var o, full := EditTool(lim, fs, root, order, supplied, oldText, newText), root + CleanPath(supplied);
            && (o.Success? <==>
                && oldText != "" && Editable(lim, fs, root, supplied)
                && exists p, s :: EditsTo(lim, fs, order, full, oldText, newText, p, s))
            && (o.Success? ==>
                && full in fs && fs[full].File?
                && CanonicalRoot(o.tree, root) && OnlyUnder(root, fs, o.tree)
                && forall p, s :: EditsTo(lim, fs, order, full, oldText, newText, p, s) ==>
                     Leaves(o.tree, root) == Leaves(fs, root)[full := File(p + newText + s)])
            && (o.Failure? ==> o.tree == fs)
            && !o.Hangs?
  {
    var full := root + CleanPath(supplied);
    if oldText != "" && StaysInside(supplied) && Writable(fs, root, full) {
      EditableReads(lim, fs, root, supplied);
    }
    if oldText != "" && ReadTool(lim, fs, root, supplied).Ok? {
      var data := ReadTool(lim, fs, root, supplied).value;
      EditMeaning(data, oldText, newText);
      if StaysInside(supplied) && full == root {
        RootIsNoFile(fs, root, supplied);
      }
      if Edited(data, oldText, newText).Ok? {
        var text := Edited(data, oldText, newText).value;
        WriteExact(lim, fs, root, order, supplied, text, true);
        if Editable(lim, fs, root, supplied) {
          var p, s :| EditsAt(data, oldText, p, s);
          assert text == p + newText + s;
          assert EditTool(lim, fs, root, order, supplied, oldText, newText).Success? ==>
              EditsTo(lim, fs, order, full, oldText, newText, p, s);
        }
      }
    }
  }

  /** Why the search of an edit fails: nothing to look for, not found, or found but not to be split in one way. */
  lemma EditWhy(lim: Limits, fs: Tree, root: Path, order: seq<Path>, supplied: string, oldText: Bytes, newText: Bytes)
    requires CanonicalRoot(fs, root) && EditTool(lim, fs, root, order, supplied, oldText, newText).Failure?
    ensures var why, read := EditTool(lim, fs, root, order, supplied, oldText, newText).why,
                             ReadTool(lim, fs, root, supplied);
            if oldText == "" then why == EditProblem(EmptyOld)
            else if read.Err? then why == read.error
            else if !Occurs(read.value, oldText) then why == EditProblem(TextEdit.NotFound)
            else (why == EditProblem(MultipleMatches) <==> !exists p, s :: EditsAt(read.value, oldText, p, s))
                 && (why.EditProblem? ==> why == EditProblem(MultipleMatches))
  {
    var read := ReadTool(lim, fs, root, supplied);
    if oldText != "" && read.Ok? {
      EditMeaning(read.value, oldText, newText);
      if Edited(read.value, oldText, newText).Ok? {
        WriteWhy(lim, fs, root, order, supplied, Edited(read.value, oldText, newText).value, true);
      }
    }
  }

  /** Why a read fails. */
  lemma ReadWhy(lim: Limits, fs: Tree, root: Path, supplied: string)
    requires CanonicalRoot(fs, root)
    ensures var read, r := ReadTool(lim, fs, root, supplied), Resolve(fs, root, supplied, false);
            match r
            case Accepted(p) =>
              && p in fs
              && (if fs[p] == Dir then read == Err(IsDirectory)
                  else fs[p].File? && read == if |fs[p].data| > lim.maxBytes then Err(TooLarge) else Ok(fs[p].data))
            case _ => read.Err? && read.error.PathProblem?
  {
    if Resolve(fs, root, supplied, false).Accepted? { ResolveContained(fs, root, supplied, false); }
  }

  /** A successful edit keeps the caps. */
  lemma EditKeepsCaps(lim: Limits, fs: Tree, root: Path, order: seq<Path>, supplied: string, oldText: Bytes,
      newText: Bytes)
    requires CanonicalRoot(fs, root) && WalkOrder(fs, root, order) && WithinCaps(lim, Leaves(fs, root))
    requires EditTool(lim, fs, root, order, supplied, oldText, newText).Success?
    ensures WithinCaps(lim, Leaves(EditTool(lim, fs, root, order, supplied, oldText, newText).tree, root))
  {
    var data := ReadTool(lim, fs, root, supplied).value;
    WriteKeepsCaps(lim, fs, root, order, supplied, Edited(data, oldText, newText).value, true);
  }

  /** Reading the root fails, so an edit never reaches the write that would not return. */
  lemma RootIsNoFile(fs: Tree, root: Path, supplied: string)
    requires CanonicalRoot(fs, root) && StaysInside(supplied) && root + CleanPath(supplied) == root
    ensures Resolve(fs, root, supplied, false) == Accepted(root)
  {
    ResolveExistingPlain(fs, root, supplied);
  }

  // ---------------------------------------------------------------- fs_move

  /** The place `p` has after its ancestor `s` was renamed to `d`. */
  function MovedPath(s: Path, d: Path, p: Path): Path {
    if s <= p then d + p[|s|..] else p
  }

  /** `os.Rename(s, d)` onto a free name: the whole subtree is re-keyed. */
  function Rename(fs: Tree, s: Path, d: Path): Tree {
    var stay := map p | p in fs && !(s <= p) :: fs[p];
    var targets := set p | p in fs && s <= p :: MovedPath(s, d, p);
    stay + map q | q in targets && MovedPath(d, s, q) in fs :: fs[MovedPath(d, s, q)]
  }

  /** `Files.Move`. */
  function MoveTool(fs: Tree, root: Path, src: string, dst: string): Outcome {
    match Resolve(fs, root, src, false)
    case Rejected(why) => Failure(fs, PathProblem(why))
    case NoReturn => Hangs
    case Accepted(source) =>
      match Resolve(fs, root, dst, true)
      case Rejected(why) => Failure(fs, PathProblem(why))
      case NoReturn => Hangs
      case Accepted(destination) =>
        if Lstat(fs, destination).Found? then Failure(fs, AlreadyExists)
        else
          var made := MkdirAll(fs, Parent(destination));
          if source <= destination then Failure(made, RenameFailed)
          else Success(Rename(made, source, destination))
  }

  /** Moving there and back names the same place. */
  lemma MovedBack(s: Path, d: Path, p: Path)
    requires s <= p
    ensures MovedPath(d, s, MovedPath(s, d, p)) == p && d <= MovedPath(s, d, p)
  {
    assert (d + p[|s|..])[|d|..] == p[|s|..];
    assert s + p[|s|..] == p;
  }

  lemma MovedParent(s: Path, d: Path, p: Path)
    requires s < p
    ensures Parent(MovedPath(s, d, p)) == MovedPath(s, d, Parent(p)) && s <= Parent(p)
  {
    assert p[|s|..][..|p| - |s| - 1] == Parent(p)[|s|..];
  }

  /** What is where after a rename: the subtree re-keyed, the rest untouched. */
  lemma RenameEntries(fs: Tree, s: Path, d: Path)
    ensures forall p :: p in fs && s <= p ==>
        MovedPath(s, d, p) in Rename(fs, s, d) && Rename(fs, s, d)[MovedPath(s, d, p)] == fs[p]
    ensures forall p :: !(s <= p) && !(d <= p) ==>
        (p in Rename(fs, s, d) <==> p in fs) && (p in fs ==> Rename(fs, s, d)[p] == fs[p])
    ensures forall q :: q in Rename(fs, s, d) && d <= q ==>
        (q in fs && !(s <= q)) || (MovedPath(d, s, q) in fs && Rename(fs, s, d)[q] == fs[MovedPath(d, s, q)])
    ensures forall q :: q in Rename(fs, s, d) && !(d <= q) ==> !(s <= q)
  {
    forall p | s <= p ensures MovedPath(d, s, MovedPath(s, d, p)) == p && d <= MovedPath(s, d, p) {
      MovedBack(s, d, p);
    }
  }

  /** The contents of a set of files, with repetitions and without names. */
  ghost function Contents(m: map<Path, Node>): multiset<Node> {
    if m == map[] then multiset{}
    else
      var p :| p in m;
      multiset{m[p]} + Contents(m - {p})
  }

  lemma ContentsUnfold(m: map<Path, Node>) returns (q: Path)
    requires m != map[]
    ensures q in m && Contents(m) == multiset{m[q]} + Contents(m - {q})
  {
    q :| q in m && Contents(m) == multiset{m[q]} + Contents(m - {q});
  }

  lemma SwapHeads(whole: multiset<Node>, a: Node, b: Node, rest: multiset<Node>)
    requires whole == multiset{a} + (multiset{b} + rest)
    ensures whole == multiset{b} + (multiset{a} + rest)
  {
  }

  lemma DropTwice(m: map<Path, Node>, p: Path, q: Path)
    ensures m - {q} - {p} == m - {p} - {q}
  {
  }

  lemma {:induction false} ContentsSplit(m: map<Path, Node>, p: Path)
    requires p in m
    ensures Contents(m) == multiset{m[p]} + Contents(m - {p})
    decreases |m|
  {
    var q := ContentsUnfold(m);
    if q != p {
      DropTwice(m, p, q);
      var rest := m - {q} - {p};
      assert Contents(m - {q}) == multiset{m[p]} + Contents(rest) by { ContentsSplit(m - {q}, p); }
      assert Contents(m - {p}) == multiset{m[q]} + Contents(rest) by { ContentsSplit(m - {p}, q); }
      SwapHeads(Contents(m), m[q], m[p], Contents(rest));
    }
  }

  /** A content is held exactly when some file holds it. */
  lemma {:induction false} ContentsMember(m: map<Path, Node>, n: Node)
    ensures n in Contents(m) <==> exists p :: p in m && m[p] == n
    decreases |m|
  {
    if m != map[] {
      var q := ContentsUnfold(m);
      ContentsMember(m - {q}, n);
      if p :| p in m && m[p] == n && p != q {
        assert p in m - {q};
      }
    }
  }

  /** `f` carries `m` onto `m'` entry by entry, and `g` carries it back. */
  ghost predicate Rekeys(m: map<Path, Node>, m': map<Path, Node>, f: Path -> Path, g: Path -> Path) {
    && (forall p :: p in m ==> f(p) in m' && m'[f(p)] == m[p] && g(f(p)) == p)
    && forall q :: q in m' ==> g(q) in m && f(g(q)) == q
  }

  /** Re-keying conserves contents, bytes and number. */
  lemma {:induction false} RekeyConserves(m: map<Path, Node>, m': map<Path, Node>, f: Path -> Path, g: Path -> Path)
    requires Rekeys(m, m', f, g)
    ensures Contents(m') == Contents(m) && UsageOf(m') == UsageOf(m)
    decreases |m|
  {
    if m == map[] {
      assert m'.Keys == {};
    } else {
      var p :| p in m;
      assert Rekeys(m - {p}, m' - {f(p)}, f, g);
      RekeyConserves(m - {p}, m' - {f(p)}, f, g);
      ContentsSplit(m, p);
      ContentsSplit(m', f(p));
      UsageSplit(m, p);
      UsageSplit(m', f(p));
    }
  }

  /** Neither path lies on the other's subtree. */
  predicate Apart(a: Path, b: Path) {
    !(a <= b) && !(b <= a)
  }

  /** Leaves on both sides of a rename correspond, there and back. */
  lemma RenameRekeys(fs: Tree, root: Path, s: Path, d: Path)
    requires root < s && root < d && Apart(s, d) && forall q :: d <= q ==> q !in fs
    ensures var fs' := Rename(fs, s, d);
            && (forall p :: p in Leaves(fs, root) ==>
                  && MovedPath(s, d, p) in Leaves(fs', root) && Leaves(fs', root)[MovedPath(s, d, p)] == fs[p]
                  && MovedPath(d, s, MovedPath(s, d, p)) == p)
            && (forall q :: q in Leaves(fs', root) ==>
                MovedPath(d, s, q) in Leaves(fs, root) && MovedPath(s, d, MovedPath(d, s, q)) == q)
  {
    var fs' := Rename(fs, s, d);
    RenameEntries(fs, s, d);
    forall p | p in Leaves(fs, root)
      ensures MovedPath(s, d, p) in Leaves(fs', root) && Leaves(fs', root)[MovedPath(s, d, p)] == fs[p]
          && MovedPath(d, s, MovedPath(s, d, p)) == p
    {
      if s <= p { MovedBack(s, d, p); }
    }
    forall q | q in Leaves(fs', root)
      ensures MovedPath(d, s, q) in Leaves(fs, root) && MovedPath(s, d, MovedPath(d, s, q)) == q
    {
      if d <= q { MovedBack(d, s, q); }
    }
  }

  /** So contents, bytes and number are conserved. */
  lemma RenameConserves(fs: Tree, root: Path, s: Path, d: Path)
    requires root < s && root < d && Apart(s, d) && forall q :: d <= q ==> q !in fs
    ensures Contents(Leaves(Rename(fs, s, d), root)) == Contents(Leaves(fs, root))
    ensures UsageOf(Leaves(Rename(fs, s, d), root)) == UsageOf(Leaves(fs, root))
  {
    RenameRekeys(fs, root, s, d);
    var f := (p: Path) => MovedPath(s, d, p);
    var g := (q: Path) => MovedPath(d, s, q);
    RekeyConserves(Leaves(fs, root), Leaves(Rename(fs, s, d), root), f, g);
  }

  lemma FreeBelow(fs: Tree, d: Path)
    requires ValidTree(fs) && d !in fs
    ensures forall q :: d <= q ==> q !in fs
  {
    forall q | d <= q ensures q !in fs {
      if q in fs && q != d { Ancestor(fs, q, d); }
    }
  }

  /** A rename onto a free place moves the leaves one to one and keeps the tree a tree. */
  lemma RenameEffect(fs: Tree, root: Path, s: Path, d: Path)
    requires CanonicalRoot(fs, root) && root < s && root < d && Apart(s, d)
    requires s in fs && d !in fs && Parent(d) in fs && fs[Parent(d)] == Dir && PlainNames(d)
    ensures var fs' := Rename(fs, s, d);
            && CanonicalRoot(fs', root) && OnlyUnder(root, fs, fs')
            && (forall p :: p in fs && s <= p ==> MovedPath(s, d, p) in fs' && fs'[MovedPath(s, d, p)] == fs[p])
            && (forall p :: !(s <= p) && !(d <= p) ==> (p in fs' <==> p in fs) && (p in fs ==> fs'[p] == fs[p]))
            && (forall p :: s <= p ==> p !in fs')
            && (forall q :: q in fs' && d <= q ==> MovedPath(d, s, q) in fs && fs'[q] == fs[MovedPath(d, s, q)])
            && Contents(Leaves(fs', root)) == Contents(Leaves(fs, root))
            && UsageOf(Leaves(fs', root)) == UsageOf(Leaves(fs, root))
  {
    FreeBelow(fs, d);
    RenameKeepsTree(fs, root, s, d);
    RenameConserves(fs, root, s, d);
    RenameEntries(fs, s, d);
    forall p | s <= p ensures p !in Rename(fs, s, d) {
      if p in Rename(fs, s, d) && d <= p { ComparablePrefixes(s, d, p); }
    }
  }

  lemma ComparablePrefixes(a: Path, b: Path, p: Path)
    requires a <= p && b <= p
    ensures a <= b || b <= a
  {
    if |a| <= |b| {
      assert a == p[..|a|] == b[..|a|];
    } else {
      assert b == p[..|b|] == a[..|b|];
    }
  }

  /** What a renamed tree must keep about each of its entries. */
  ghost predicate InPlace(fs: Tree, q: Path)
    requires q != []
  {
    Parent(q) in fs && fs[Parent(q)] == Dir && PlainName(q[|q| - 1])
  }

  /** One entry that moved, not the top of the subtree. */
  lemma MovedInPlace(fs: Tree, s: Path, d: Path, q: Path)
    requires ValidTree(fs) && d < q && MovedPath(d, s, q) in fs
    ensures InPlace(Rename(fs, s, d), q)
  {
    var p := MovedPath(d, s, q);
    MovedBack(d, s, q);
    MovedParent(s, d, p);
    assert q[|q| - 1] == p[|p| - 1];
    assert Parent(p) in fs && s <= Parent(p);
    RenameEntries(fs, s, d);
  }

  /** One entry that stayed, or the top of the subtree at its new place. */
  lemma StayedInPlace(fs: Tree, s: Path, d: Path, q: Path)
    requires q != [] && !(s <= q) && (d <= q ==> d == q) && PlainName(q[|q| - 1])
    requires Parent(q) in fs && fs[Parent(q)] == Dir
    ensures InPlace(Rename(fs, s, d), q)
  {
    StaysPut(s, d, q);
    RenameEntries(fs, s, d);
  }

  /** One renamed entry keeps a directory above it. */
  lemma RenameKeepsEntry(fs: Tree, s: Path, d: Path, q: Path)
    requires ValidTree(fs) && Apart(s, d) && d != [] && Parent(d) in fs && fs[Parent(d)] == Dir && PlainNames(d)
    requires forall p :: d <= p ==> p !in fs
    requires q in Rename(fs, s, d) && q != []
    ensures InPlace(Rename(fs, s, d), q)
  {
    assert (q in fs && !(s <= q)) || (d <= q && MovedPath(d, s, q) in fs) by { RenameEntries(fs, s, d); }
    if d < q {
      MovedInPlace(fs, s, d, q);
    } else {
      assert PlainName(q[|q| - 1]) by { if q != d { assert Parent(q) in fs; } }
      StayedInPlace(fs, s, d, q);
    }
  }

  lemma RenameKeepsTree(fs: Tree, root: Path, s: Path, d: Path)
    requires CanonicalRoot(fs, root) && root < s && root < d && Apart(s, d)
    requires s in fs && Parent(d) in fs && fs[Parent(d)] == Dir && PlainNames(d)
    requires forall q :: d <= q ==> q !in fs
    ensures CanonicalRoot(Rename(fs, s, d), root)
  {
    var fs' := Rename(fs, s, d);
    forall q | q in fs' && q != [] ensures InPlace(fs', q) {
      RenameKeepsEntry(fs, s, d, q);
    }
    RenameEntries(fs, s, d);
    assert [] in fs' && root in fs';
  }

  /** The parent of a path outside a subtree is outside it too. */
  lemma StaysPut(s: Path, d: Path, q: Path)
    requires q != [] && !(s <= q) && (d <= q ==> d == q)
    ensures !(s <= Parent(q)) && !(d <= Parent(q))
  {
    assert Parent(q) <= q;
  }

  /** What a move of `s` to `d` does to the tree. */
  ghost predicate MovedTree(fs: Tree, fs': Tree, root: Path, s: Path, d: Path) {
    && (forall p :: p in fs && s <= p ==> MovedPath(s, d, p) in fs' && fs'[MovedPath(s, d, p)] == fs[p])
    && (forall p :: p in fs && !(s <= p) ==> p in fs' && fs'[p] == fs[p])
    && (forall p :: p in fs' && !(d <= p) ==> !(s <= p) && (p in fs || (fs'[p] == Dir && p < d)))
    && (forall q :: q in fs' && d <= q ==> MovedPath(d, s, q) in fs && fs'[q] == fs[MovedPath(d, s, q)])
    && Contents(Leaves(fs', root)) == Contents(Leaves(fs, root))
    && UsageOf(Leaves(fs', root)) == UsageOf(Leaves(fs, root))
  }

  /** The directories a move makes first. */
  lemma MoveMakesDirs(fs: Tree, root: Path, d: Path)
    requires CanonicalRoot(fs, root) && root < d && PlainNames(d) && ParentsUsable(fs, root, d) && d !in fs
    ensures var made := MkdirAll(fs, Parent(d));
            && CanonicalRoot(made, root) && OnlyUnder(root, fs, made) && OnlyDirsAdded(root, fs, made, Parent(d))
            && (forall other :: Leaves(made, other) == Leaves(fs, other))
            && d !in made && Parent(d) in made && made[Parent(d)] == Dir
  {
    assert root <= Parent(d) < d;
    MkdirAllEffect(fs, root, Parent(d));
    var made := MkdirAll(fs, Parent(d));
    forall other ensures Leaves(made, other) == Leaves(fs, other) { DirsKeepLeaves(root, fs, made, Parent(d), other); }
    DirsKeepLeaves(root, fs, made, Parent(d), root);
  }

  /** `MoveTool` once both paths are resolved and the source is not above the destination. */
  lemma MoveAt(fs: Tree, root: Path, s: Path, d: Path)
    requires CanonicalRoot(fs, root) && root <= s && s in fs && !(s <= d)
    requires root < d && PlainNames(d) && ParentsUsable(fs, root, d) && d !in fs
    ensures var fs' := Rename(MkdirAll(fs, Parent(d)), s, d);
            root < s && CanonicalRoot(fs', root) && OnlyUnder(root, fs, fs') && MovedTree(fs, fs', root, s, d)
  {
    MoveMakesDirs(fs, root, d);
    var made := MkdirAll(fs, Parent(d));
    forall q | d <= q ensures q !in fs {
      if q in fs && q != d { Ancestor(fs, q, d); }
    }
    assert root != s;
    RenameEffect(made, root, s, d);
    MovedThrough(fs, made, Rename(made, s, d), root, s, d);
  }

  /** Making directories first and then renaming is one move of the original tree. */
  lemma MovedThrough(fs: Tree, made: Tree, fs': Tree, root: Path, s: Path, d: Path)
    requires OnlyDirsAdded(root, fs, made, Parent(d)) && d != [] && !(s <= d)
    requires OnlyUnder(root, fs, made) && OnlyUnder(root, made, fs') && Leaves(made, root) == Leaves(fs, root)
    requires forall p :: p in made && s <= p ==> MovedPath(s, d, p) in fs' && fs'[MovedPath(s, d, p)] == made[p]
    requires forall p :: !(s <= p) && !(d <= p) ==> (p in fs' <==> p in made) && (p in made ==> fs'[p] == made[p])
    requires forall p :: s <= p ==> p !in fs'
    requires forall q :: q in fs' && d <= q ==> MovedPath(d, s, q) in made && fs'[q] == made[MovedPath(d, s, q)]
    requires forall p :: d <= p ==> p !in fs
    requires Contents(Leaves(fs', root)) == Contents(Leaves(made, root))
    requires UsageOf(Leaves(fs', root)) == UsageOf(Leaves(made, root))
    ensures OnlyUnder(root, fs, fs') && MovedTree(fs, fs', root, s, d)
  {
    NewDirsBesideSource(fs, made, root, s, d);
    forall q | q in fs' && d <= q ensures MovedPath(d, s, q) in fs && fs'[q] == fs[MovedPath(d, s, q)] {
      MovedBack(d, s, q);
    }
  }

  /** The directories made for the destination are not below the source. */
  lemma NewDirsBesideSource(fs: Tree, made: Tree, root: Path, s: Path, d: Path)
    requires OnlyDirsAdded(root, fs, made, Parent(d)) && d != [] && !(s <= d)
    ensures forall p :: s <= p ==> (p in made <==> p in fs)
    ensures forall p :: p in made && p !in fs ==> made[p] == Dir && p < d
  {
    forall p | p in made && p !in fs ensures !(s <= p) && p < d {
      assert p <= Parent(d) < d;
    }
  }

  /** Exactly when `fs_move` succeeds; a success conserves every file, a failure adds directories at most. */
  lemma MoveExact(fs: Tree, root: Path, src: string, dst: string)
    requires CanonicalRoot(fs, root)
    ensures var o, s, d := MoveTool(fs, root, src, dst), Resolve(fs, root, src, false), root + CleanPath(dst);
            && (o.Success? <==>
                && s.Accepted?
                && StaysInside(dst) && d != root && ParentsUsable(fs, root, d) && d !in fs
                && !(s.path <= d))
            && (o.Success? ==>
                && CanonicalRoot(o.tree, root) && OnlyUnder(root, fs, o.tree)
                && MovedTree(fs, o.tree, root, s.path, d))
            && (o.Failure? ==>
                && CanonicalRoot(o.tree, root) && OnlyUnder(root, fs, o.tree)
                && forall other :: Leaves(o.tree, other) == Leaves(fs, other))
            && (o.Hangs? <==> s.Accepted? && StaysInside(dst) && d == root)
  {
    var s, d := Resolve(fs, root, src, false), root + CleanPath(dst);
    ResolveTargetExact(fs, root, dst);
    if s.Accepted? && StaysInside(dst) {
      ResolveContained(fs, root, src, false);
      LexicalChecksPass(fs, root, dst);
      if d in fs {
        LstatExisting(fs, d);
      } else if Resolve(fs, root, dst, true).Accepted? {
        StatMissing(fs, root, CleanPath(dst));
        MoveMakesDirs(fs, root, d);
        if !(s.path <= d) {
          MoveAt(fs, root, s.path, d);
        }
      }
    }
  }

  /** Why a move fails. */
  lemma MoveWhy(fs: Tree, root: Path, src: string, dst: string)
    requires CanonicalRoot(fs, root) && MoveTool(fs, root, src, dst).Failure?
    ensures var why, s, d := MoveTool(fs, root, src, dst).why, Resolve(fs, root, src, false), root + CleanPath(dst);
            if !s.Accepted? || !Acceptable(fs, root, dst) then why.PathProblem?
            else if d in fs then why == AlreadyExists
            else why == RenameFailed && s.path <= d
  {
    var d := root + CleanPath(dst);
    ResolveTargetExact(fs, root, dst);
    if Acceptable(fs, root, dst) {
      LexicalChecksPass(fs, root, dst);
      if d in fs { LstatExisting(fs, d); } else { StatMissing(fs, root, CleanPath(dst)); }
    }
  }

  // ---------------------------------------------------------------- fs_delete

  /** `Files.Delete`. */
  function DeleteTool(lim: Limits, fs: Tree, root: Path, supplied: string, confirm: bool): Outcome {
    if !lim.deleteEnabled then Failure(fs, DeletionDisabled)
    else if !confirm then Failure(fs, NotConfirmed)
    else match Resolve(fs, root, supplied, false)
      case Rejected(why) => Failure(fs, PathProblem(why))
      case NoReturn => Hangs
      case Accepted(p) =>
        if p in fs && fs[p] == Dir then Failure(fs, IsDirectory) else Success(fs - {p})
  }

  /** A delete removes one file below the root and nothing else. */
  lemma DeleteExact(lim: Limits, fs: Tree, root: Path, supplied: string, confirm: bool)
    requires CanonicalRoot(fs, root)
    ensures var o, r := DeleteTool(lim, fs, root, supplied, confirm), Resolve(fs, root, supplied, false);
            && (o.Success? <==> lim.deleteEnabled && confirm && r.Accepted? && r.path in fs && fs[r.path].File?)
            && (o.Success? ==>
                && root < r.path && CanonicalRoot(o.tree, root) && OnlyUnder(root, fs, o.tree)
                && Leaves(o.tree, root) == Leaves(fs, root) - {r.path})
            && (!o.Success? ==> o.Failure? && o.tree == fs)
  {
    var r := Resolve(fs, root, supplied, false);
    if r.Accepted? {
      ResolveContained(fs, root, supplied, false);
      if fs[r.path] != Dir {
        assert root != r.path;
        DropLeaf(fs, root, r.path);
      }
    }
  }

  /** Why a delete fails. */
  lemma DeleteWhy(lim: Limits, fs: Tree, root: Path, supplied: string, confirm: bool)
    requires CanonicalRoot(fs, root) && DeleteTool(lim, fs, root, supplied, confirm).Failure?
    ensures var why, r := DeleteTool(lim, fs, root, supplied, confirm).why, Resolve(fs, root, supplied, false);
            if !lim.deleteEnabled then why == DeletionDisabled
            else if !confirm then why == NotConfirmed
            else if !r.Accepted? then why.PathProblem?
            else why == IsDirectory && r.path in fs && fs[r.path] == Dir
  {
  }

  /** Removing a file keeps the caps. */
  lemma DropKeepsCaps(lim: Limits, m: map<Path, Node>, p: Path)
    requires WithinCaps(lim, m)
    ensures WithinCaps(lim, m - {p})
  {
    UsageSplit(m, p);
  }

  // ---------------------------------------------------------------- Office tools

  /** What a call has established before it takes the lock. */
  datatype Precheck = Proceed(final: Path, isNew: bool) | Refused(why: ToolError) | Stuck

  /** `Files.CheckWriteAllowed`. */
  function CheckWriteAllowed(lim: Limits, fs: Tree, order: seq<Path>, isNew: bool): Verdict {
    if lim.maxWorkspaceBytes <= 0 && lim.maxWorkspaceFiles <= 0 then Allowed
    else Decide(lim, EarlyScan(fs, order, None, lim), 0, 0, isNew)
  }

  /** `docCreate` up to the lock. */
  function CreatePrecheck(lim: Limits, fs: Tree, root: Path, order: seq<Path>, supplied: string,
      overwrite: bool): Precheck
  {
    match Resolve(fs, root, supplied, true)
    case Rejected(why) => Refused(PathProblem(why))
    case NoReturn => Stuck
    case Accepted(final) =>
      var isNew := !Stat(fs, final).Found?;
      if !overwrite && !isNew then Refused(AlreadyExists)
      else
        var verdict := CheckWriteAllowed(lim, fs, order, isNew);
        if verdict != Allowed then Refused(QuotaExceeded(verdict)) else Proceed(final, isNew)
  }

  /** When there is room for a document: when the byte cap holds and, for a new one, the other with one file more. */
  lemma RoomIff(lim: Limits, fs: Tree, root: Path, order: seq<Path>, isNew: bool)
    requires WalkOrder(fs, root, order) && (isNew || WithinCaps(lim, Leaves(fs, root)))
    ensures CheckWriteAllowed(lim, fs, order, isNew) == Allowed <==>
              && (lim.maxWorkspaceBytes > 0 ==> TotalSize(Leaves(fs, root)) <= lim.maxWorkspaceBytes)
              && (lim.maxWorkspaceFiles > 0 && isNew ==> |Leaves(fs, root)| + 1 <= lim.maxWorkspaceFiles)
  {
    ExactScanIsUsage(fs, root, order);
    if isNew {
      EarlyScanExactForNewFiles(lim, fs, order, 0);
    } else {
      EarlyScanExactWithinCaps(lim, fs, order, 0, 0, false);
    }
  }

  /**
   Exactly when `docCreate` goes on to the lock, and for what: an acceptable target that is
   missing, or may be replaced, while there is room.  A document is never replaced unasked.
   */
  lemma CreatePrecheckExact(lim: Limits, fs: Tree, root: Path, order: seq<Path>, supplied: string, overwrite: bool)
    requires CanonicalRoot(fs, root)
    ensures var p, full := CreatePrecheck(lim, fs, root, order, supplied, overwrite), root + CleanPath(supplied);
            && (p.Proceed? <==>
                && StaysInside(supplied) && full != root
                && ParentsUsable(fs, root, full) && (full in fs ==> !fs[full].Link?)
                && (overwrite || full !in fs)
                && CheckWriteAllowed(lim, fs, order, full !in fs) == Allowed)
            && (p.Proceed? ==> p == Proceed(full, full !in fs))
            && (p.Stuck? <==> StaysInside(supplied) && full == root)
            && (p == Refused(AlreadyExists) ==> !overwrite && full in fs)
  {
    var full := root + CleanPath(supplied);
    ResolveTargetExact(fs, root, supplied);
    if StaysInside(supplied) {
      LexicalChecksPass(fs, root, supplied);
    }
    if Resolve(fs, root, supplied, true).Accepted? {
      if full in fs {
        StatFound(fs, full);
      } else {
        StatMissing(fs, root, CleanPath(supplied));
      }
    }
  }

  /** `docEdit` and `sheetSetCells` up to the lock; `inputOk` is the document check. */
  function EditPrecheck(fs: Tree, root: Path, supplied: string, inputOk: bool): Precheck {
    match Resolve(fs, root, supplied, false)
    case Rejected(why) => Refused(PathProblem(why))
    case NoReturn => Stuck
    case Accepted(final) => if inputOk then Proceed(final, false) else Refused(InputRejected)
  }

  /** Exactly when an edit goes on to the lock, and for what. */
  lemma EditPrecheckExact(fs: Tree, root: Path, supplied: string, inputOk: bool, final: Path, isNew: bool)
    requires CanonicalRoot(fs, root)
    ensures EditPrecheck(fs, root, supplied, inputOk) == Proceed(final, isNew) <==>
              && StaysInside(supplied) && root <= final
              && EvalSymlinks(fs, root + CleanPath(supplied)) == Found(final)
              && inputOk && !isNew
    ensures !EditPrecheck(fs, root, supplied, inputOk).Stuck?
  {
    ResolveExistingIff(fs, root, supplied, final);
    if StaysInside(supplied) {
      LexicalChecksPass(fs, root, supplied);
    }
  }

  /**
   Where an edit's temporary file goes: beside the document as the caller named it, that is,
   lexically; through a symlinked directory that is another place than the name says.
   */
  function TempName(root: Path, supplied: string, name: string): Path {
    root + Parent(CleanPath(supplied)) + [name]
  }

  function TempPlace(fs: Tree, named: Path): Path
    requires named != []
  {
    match Stat(fs, Parent(named))
    case Found(dir) => dir + [named[|named| - 1]]
    case Missing => named
    case Failed => named
  }

  /** A name that is a place of the tree says where the file goes; so a free place has a free name. */
  lemma TempPlaceFree(fs: Tree, named: Path)
    requires ValidTree(fs) && named != []
    ensures named in fs ==> TempPlace(fs, named) == named
    ensures TempPlace(fs, named) !in fs ==> named !in fs
  {
    if named in fs {
      StatFound(fs, Parent(named));
      assert Parent(named) + [named[|named| - 1]] == named;
    }
  }

  /**
   `Files.CheckOfficeOutputAllowed`; the temporary copy stands at `temp`, and the scan leaves
   out the path `named` by which the call knows it.
   */
  function CheckOfficeOutput(lim: Limits, fs: Tree, order: seq<Path>, final: Path, temp: Path, named: Path, isNew: bool)
    : Option<ToolError>
    requires temp in fs
  {
    if lim.maxWorkspaceBytes <= 0 && lim.maxWorkspaceFiles <= 0 then None
    else
      var existing := if isNew then Some(0) else ExistingSize(fs, final);
      if existing.None? then Some(StatFailed)
      else
        var verdict := Decide(lim, ExactScan(fs, order, Some(named)), NodeSize(fs[temp]), existing.value, isNew);
        if verdict == Allowed then None else Some(QuotaExceeded(verdict))
  }

  /**
   The end of an Office call under the lock: check the engine's output in `temp`, rename it
   over the target, and in every case leave no temporary file.
   */
  function CommitOffice(lim: Limits, fs: Tree, order: seq<Path>, final: Path, temp: Path, named: Path, isNew: bool,
                        inputOk: bool): Outcome
  {
    var cleaned := fs - {temp};
    if temp !in fs || !inputOk then Failure(cleaned, InputRejected)
    else
      var refusal := CheckOfficeOutput(lim, fs, order, final, temp, named, isNew);
      if refusal.Some? then Failure(cleaned, refusal.value)
      else RenameOver(cleaned, final, fs[temp])
  }

  /** The tree holds the temporary file of a running Office call and is otherwise in order. */
  ghost predicate TempPlaced(fs: Tree, root: Path, final: Path, temp: Path, named: Path) {
    && CanonicalRoot(fs, root) && root < final && temp != final && PlainNames(final)
    && Parent(final) in fs && fs[Parent(final)] == Dir
    && temp in fs && fs[temp].File?
    && (named == temp || named !in fs)
    && (final in fs ==> !fs[final].Link?)
  }

  /** Removing the temporary file, wherever it stands. */
  lemma DropTemp(fs: Tree, root: Path, temp: Path)
    requires CanonicalRoot(fs, root) && temp in fs && fs[temp].File?
    ensures CanonicalRoot(fs - {temp}, root) && Leaves(fs - {temp}, root) == Leaves(fs, root) - {temp}
  {
    var fs' := fs - {temp};
    forall q | q in fs' && q != [] ensures Parent(q) in fs' && fs'[Parent(q)] == Dir {
      assert q in fs;
    }
  }

  /**
   The commit is all or nothing, and keeps the caps, whatever `isNew` was worth when it was
   read before the lock and wherever the temporary file stands: stale in either direction it
   can only refuse.
   */
  lemma CommitOfficeExact(lim: Limits, fs: Tree, root: Path, order: seq<Path>, final: Path, temp: Path, named: Path,
                          isNew: bool, inputOk: bool)
    requires TempPlaced(fs, root, final, temp, named) && WalkOrder(fs, root, order)
    ensures var o := CommitOffice(lim, fs, order, final, temp, named, isNew, inputOk);
            var before := Leaves(fs, root) - {temp};
            && !o.Hangs?
            && CanonicalRoot(o.tree, root) && OnlyUnder(root, fs - {temp}, o.tree) && temp !in o.tree
            && (o.Failure? ==> o.tree == fs - {temp} && Leaves(o.tree, root) == before)
            && (o.Success? ==> Leaves(o.tree, root) == before[final := fs[temp]] && (final in fs ==> fs[final].File?))
            && (WithinCaps(lim, before) ==> WithinCaps(lim, Leaves(o.tree, root)))
  {
    var o := CommitOffice(lim, fs, order, final, temp, named, isNew, inputOk);
    DropTemp(fs, root, temp);
    if o.Success? {
      CommitSucceeds(lim, fs, root, order, final, temp, named, isNew, inputOk);
    }
  }

  lemma CommitSucceeds(lim: Limits, fs: Tree, root: Path, order: seq<Path>, final: Path, temp: Path, named: Path,
                       isNew: bool, inputOk: bool)
    requires TempPlaced(fs, root, final, temp, named) && WalkOrder(fs, root, order)
    requires CommitOffice(lim, fs, order, final, temp, named, isNew, inputOk).Success?
    ensures var after := CommitOffice(lim, fs, order, final, temp, named, isNew, inputOk).tree;
            var before := Leaves(fs, root) - {temp};
            && CanonicalRoot(after, root) && OnlyUnder(root, fs - {temp}, after) && temp !in after
            && Leaves(after, root) == before[final := fs[temp]] && (final in fs ==> fs[final].File?)
            && (WithinCaps(lim, before) ==> WithinCaps(lim, Leaves(after, root)))
  {
    var cleaned, before := fs - {temp}, Leaves(fs, root) - {temp};
    DropTemp(fs, root, temp);
    PutLeaf(cleaned, root, final, fs[temp]);
    if WithinCaps(lim, before) {
      FinalMeasured(fs, root, final, temp);
      OfficeScan(fs, root, order, temp, named);
      CommitKeepsCaps(lim, fs, before, order, final, temp, named, isNew);
    }
  }

  /** The target's size is that of the leaf it is, if it is one. */
  lemma FinalMeasured(fs: Tree, root: Path, final: Path, temp: Path)
    requires CanonicalRoot(fs, root) && root < final && temp != final && PlainNames(final)
    requires Parent(final) in fs && fs[Parent(final)] == Dir && (final in fs ==> fs[final].File?)
    ensures var before := Leaves(fs, root) - {temp};
            && (final in fs <==> final in before)
            && ExistingSize(fs, final) == if final in before then Some(NodeSize(before[final])) else None
  {
    if final in fs {
      StatFound(fs, final);
    } else {
      StatBelow(fs, final);
    }
  }

  /** What the exact scan counts besides the files: the temporary copy, where its name does not hit it. */
  function CountedTwice(fs: Tree, root: Path, temp: Path, named: Path): Usage
    requires temp in fs
  {
    if named == temp || !(root <= temp) then Usage(0, 0) else Usage(NodeSize(fs[temp]), 1)
  }

  lemma OfficeScan(fs: Tree, root: Path, order: seq<Path>, temp: Path, named: Path)
    requires WalkOrder(fs, root, order) && temp in fs && fs[temp].File? && (named == temp || named !in fs)
    ensures var used, extra := UsageOf(Leaves(fs, root) - {temp}), CountedTwice(fs, root, temp, named);
            ExactScan(fs, order, Some(named)) == Usage(used.bytes + extra.bytes, used.count + extra.count)
  {
    if named == temp {
      ExactScanExcluding(fs, root, order, temp);
    } else {
      ExactScanTotals(fs, order, Some(named), Leaves(fs, root));
      UsageSplit(Leaves(fs, root), temp);
    }
  }

  /** `os.Stat` of a missing name in an existing directory. */
  lemma StatBelow(fs: Tree, p: Path)
    requires ValidTree(fs) && p != [] && PlainName(p[|p| - 1]) && p !in fs
    requires Parent(p) in fs && fs[Parent(p)] == Dir
    ensures Stat(fs, p) == Missing
  {
    var x := p[|p| - 1];
    assert p == Parent(p) + [x] && p == Parent(p) + [x] + [];
    WalkBelow(fs, Parent(p), x, [], KERNEL_LINKS);
  }

  lemma CommitKeepsCaps(lim: Limits, fs: Tree, before: map<Path, Node>, order: seq<Path>, final: Path, temp: Path,
                        named: Path, isNew: bool)
    requires temp in fs && fs[temp].File? && WithinCaps(lim, before)
    requires var used := ExactScan(fs, order, Some(named));
             used.bytes >= UsageOf(before).bytes && used.count >= UsageOf(before).count
    requires CheckOfficeOutput(lim, fs, order, final, temp, named, isNew).None?
    requires final in before ==> ExistingSize(fs, final) == Some(NodeSize(before[final]))
    requires final !in before ==> ExistingSize(fs, final).None?
    ensures WithinCaps(lim, before[final := fs[temp]])
  {
    TotalSizePut(before, final, fs[temp]);
  }

  /** The check is the decision, once the existing size is known. */
  lemma OutputDecision(lim: Limits, fs: Tree, order: seq<Path>, final: Path, temp: Path, named: Path, isNew: bool,
                       existing: nat)
    requires temp in fs && (if isNew then existing == 0 else ExistingSize(fs, final) == Some(existing))
    ensures CheckOfficeOutput(lim, fs, order, final, temp, named, isNew).None? <==>
              || (lim.maxWorkspaceBytes <= 0 && lim.maxWorkspaceFiles <= 0)
              || Decide(lim, ExactScan(fs, order, Some(named)), NodeSize(fs[temp]), existing, isNew) == Allowed
  {
  }

  lemma PutUsage(m: map<Path, Node>, p: Path, n: Node)
    ensures var before, after := UsageOf(m), UsageOf(m[p := n]);
            && after.bytes + (if p in m then NodeSize(m[p]) else 0) == before.bytes + NodeSize(n)
            && after.count == if p in m then before.count else before.count + 1
  {
    TotalSizePut(m, p, n);
  }

  /**
   The output fits over these files, for whatever `isNew` says: caps are off, or there is a
   target to replace unless it counts as new, and with what is counted twice both caps are kept.
   */
  ghost predicate OutputFits(lim: Limits, before: map<Path, Node>, final: Path, n: Node, extra: Usage, isNew: bool) {
    (lim.maxWorkspaceBytes <= 0 && lim.maxWorkspaceFiles <= 0) ||
    (&& (isNew || final in before)
     && (lim.maxWorkspaceBytes > 0 ==>
           UsageOf(before).bytes + extra.bytes + NodeSize(n)
           <= lim.maxWorkspaceBytes + (if isNew then 0 else NodeSize(before[final])))
     && (lim.maxWorkspaceFiles > 0 && isNew ==> UsageOf(before).count + extra.count + 1 <= lim.maxWorkspaceFiles))
  }

  /** For a correct `isNew` that is the usage afterwards, within the byte cap and, for a new file, the count cap. */
  lemma FitsAfterwards(lim: Limits, before: map<Path, Node>, final: Path, n: Node, extra: Usage)
    ensures var after := UsageOf(before[final := n]);
            OutputFits(lim, before, final, n, extra, final !in before) <==>
              && (lim.maxWorkspaceBytes > 0 ==> after.bytes + extra.bytes <= lim.maxWorkspaceBytes)
              && (lim.maxWorkspaceFiles > 0 && final !in before ==> after.count + extra.count <= lim.maxWorkspaceFiles)
  {
    PutUsage(before, final, n);
  }

  /** Fitting is the decision of the check, once the exact scan is known. */
  lemma FitsIsDecision(lim: Limits, before: map<Path, Node>, final: Path, n: Node, extra: Usage, isNew: bool,
                       used: Usage)
    requires used == Usage(UsageOf(before).bytes + extra.bytes, UsageOf(before).count + extra.count)
    requires isNew || final in before
    ensures OutputFits(lim, before, final, n, extra, isNew) <==>
              || (lim.maxWorkspaceBytes <= 0 && lim.maxWorkspaceFiles <= 0)
              || Decide(lim, used, NodeSize(n), if isNew then 0 else NodeSize(before[final]), isNew) == Allowed
  {
  }

  /** The check of the output, for whatever `isNew` says. */
  lemma OutputCheckIff(lim: Limits, fs: Tree, root: Path, order: seq<Path>, final: Path, temp: Path, named: Path,
                       isNew: bool)
    requires TempPlaced(fs, root, final, temp, named) && WalkOrder(fs, root, order) && (final in fs ==> fs[final].File?)
    ensures CheckOfficeOutput(lim, fs, order, final, temp, named, isNew).None? <==>
            OutputFits(lim, Leaves(fs, root) - {temp}, final, fs[temp], CountedTwice(fs, root, temp, named), isNew)
  {
    var before, extra := Leaves(fs, root) - {temp}, CountedTwice(fs, root, temp, named);
    FinalMeasured(fs, root, final, temp);
    if isNew || final in before {
      OfficeScan(fs, root, order, temp, named);
      FitsIsDecision(lim, before, final, fs[temp], extra, isNew, ExactScan(fs, order, Some(named)));
      OutputDecision(lim, fs, order, final, temp, named, isNew, if isNew then 0 else NodeSize(before[final]));
    }
  }

  /**
   When the output check lets a document through, for a correct `isNew`: when the workspace
   afterwards is within the byte cap and a new file within the count cap, the temporary copy
   counted once more where its name does not hit it.  This holds over the caps as well.
   */
  lemma OutputAllowedIff(lim: Limits, fs: Tree, root: Path, order: seq<Path>, final: Path, temp: Path, named: Path)
    requires TempPlaced(fs, root, final, temp, named) && WalkOrder(fs, root, order) && (final in fs ==> fs[final].File?)
    ensures var after := UsageOf((Leaves(fs, root) - {temp})[final := fs[temp]]);
            var extra := CountedTwice(fs, root, temp, named);
            CheckOfficeOutput(lim, fs, order, final, temp, named, final !in fs).None? <==>
              && (lim.maxWorkspaceBytes > 0 ==> after.bytes + extra.bytes <= lim.maxWorkspaceBytes)
              && (lim.maxWorkspaceFiles > 0 && final !in fs ==> after.count + extra.count <= lim.maxWorkspaceFiles)
  {
    FinalMeasured(fs, root, final, temp);
    OutputCheckIff(lim, fs, root, order, final, temp, named, final !in fs);
    FitsAfterwards(lim, Leaves(fs, root) - {temp}, final, fs[temp], CountedTwice(fs, root, temp, named));
  }

  /** Exactly when the end of an Office call succeeds. */
  lemma CommitIff(lim: Limits, fs: Tree, root: Path, order: seq<Path>, final: Path, temp: Path, named: Path,
                  isNew: bool, inputOk: bool)
    requires TempPlaced(fs, root, final, temp, named) && WalkOrder(fs, root, order)
    ensures CommitOffice(lim, fs, order, final, temp, named, isNew, inputOk).Success? <==>
              && inputOk && (final in fs ==> fs[final].File?)
              && OutputFits(lim, Leaves(fs, root) - {temp}, final, fs[temp], CountedTwice(fs, root, temp, named), isNew)
  {
    if final in fs ==> fs[final].File? {
      OutputCheckIff(lim, fs, root, order, final, temp, named, isNew);
    }
  }
}
