/**
 The path resolver: lexical cleaning, symlink checks over a file tree, and the ancestor
 loop.  A path is the list of its names from `/` down; a tree maps every existing path to
 its node.
 */
module Paths {
  import opened Base

  type Name = string
  type Path = seq<Name>

  datatype Node = File(data: string) | Dir | Link(target: string)

  type Tree = map<Path, Node>

  predicate PlainName(n: Name) {
    n != "" && n != "." && n != ".."
  }

  /** `filepath.Dir`: the parent of `/` is `/`. */
  function Parent(p: Path): Path {
    if p == [] then [] else p[..|p| - 1]
  }

  /** The root exists, and every other node has a plain name and stands in a directory. */
  ghost predicate ValidTree(fs: Tree) {
    && [] in fs && fs[[]] == Dir
    && forall p {:trigger Parent(p)} :: p in fs && p != [] ==>
        Parent(p) in fs && fs[Parent(p)] == Dir && PlainName(p[|p| - 1])
  }

  /** Everything above an existing node is a directory: no symlink, no file. */
  lemma {:induction false} Ancestor(fs: Tree, p: Path, q: Path)
    requires ValidTree(fs) && p in fs && q < p
    ensures q in fs && fs[q] == Dir
  {
    if q != Parent(p) {
      Ancestor(fs, Parent(p), q);
    }
  }

  predicate PlainNames(p: Path) {
    forall i :: 0 <= i < |p| ==> PlainName(p[i])
  }

  lemma {:induction false} ExistingPlain(fs: Tree, p: Path)
    requires ValidTree(fs) && p in fs
    ensures PlainNames(p)
  {
    if p != [] {
      ExistingPlain(fs, Parent(p));
      assert p == Parent(p) + [p[|p| - 1]];
    }
  }

  /** A new entry of a directory keeps a tree a tree. */
  lemma EntryAdded(fs: Tree, at: Path, x: Name, n: Node)
    requires ValidTree(fs) && at in fs && fs[at] == Dir && PlainName(x) && at + [x] !in fs
    ensures ValidTree(fs[at + [x] := n])
  {
    var p := at + [x];
    forall q | q in fs[p := n] && q != []
      ensures Parent(q) in fs[p := n] && fs[p := n][Parent(q)] == Dir && PlainName(q[|q| - 1])
    {
      assert q != p ==> q in fs && Parent(q) in fs;
      assert Parent(p) == at && p[|p| - 1] == x;
    }
  }

  // ---------------------------------------------------------------- lexical cleaning

  /** The pieces of a string between its slashes. */
  function Split(s: string): (r: seq<string>)
    ensures r != []
  {
    if s == "" then [""]
    else if s[0] == '/' then [""] + Split(s[1..])
    else var rest := Split(s[1..]); [[s[0]] + rest[0]] + rest[1..]
  }

  /** The pieces with slashes between them. */
  function Join(pieces: seq<string>): string
    requires pieces != []
  {
    if |pieces| == 1 then pieces[0] else pieces[0] + "/" + Join(pieces[1..])
  }

  lemma JoinSlash(pieces: seq<string>)
    requires pieces != []
    ensures Join([""] + pieces) == "/" + Join(pieces)
  {
    assert ([""] + pieces)[1..] == pieces;
  }

  lemma JoinLonger(c: char, pieces: seq<string>)
    requires pieces != []
    ensures Join([[c] + pieces[0]] + pieces[1..]) == [c] + Join(pieces)
  {
    var longer, rest := [[c] + pieces[0]] + pieces[1..], pieces[1..];
    assert longer[0] == [c] + pieces[0] && longer[1..] == rest;
    if rest != [] {
      assert [c] + (pieces[0] + "/" + Join(rest)) == [c] + pieces[0] + "/" + Join(rest);
    }
  }

  lemma {:induction false} PiecesPlain(s: string, i: nat)
    requires i < |Split(s)|
    ensures '/' !in Split(s)[i]
  {
    if s != "" {
      if s[0] == '/' {
        if i > 0 { PiecesPlain(s[1..], i - 1); }
      } else {
        PiecesPlain(s[1..], i);
      }
    }
  }

  /** Joining undoes splitting, and the pieces hold no slash ... */
  lemma {:induction false} SplitJoins(s: string)
    ensures Join(Split(s)) == s
    ensures forall i :: 0 <= i < |Split(s)| ==> '/' !in Split(s)[i]
  {
    if s != "" {
      SplitJoins(s[1..]);
      JoinSlash(Split(s[1..]));
      JoinLonger(s[0], Split(s[1..]));
      assert s == [s[0]] + s[1..];
    }
    forall i | 0 <= i < |Split(s)| ensures '/' !in Split(s)[i] { PiecesPlain(s, i); }
  }

  /** ... and splitting undoes joining. */
  lemma {:induction false} JoinSplits(pieces: seq<string>)
    requires pieces != [] && forall i :: 0 <= i < |pieces| ==> '/' !in pieces[i]
    ensures Split(Join(pieces)) == pieces
    decreases |pieces|, if pieces == [] then 0 else |pieces[0]|
  {
    var s := Join(pieces);
    if pieces[0] != "" {
      var fewer := [pieces[0][1..]] + pieces[1..];
      assert fewer[1..] == pieces[1..];
      assert s[1..] == Join(fewer);
      JoinSplits(fewer);
      assert [s[0]] + pieces[0][1..] == pieces[0];
    } else if |pieces| > 1 {
      assert s[1..] == Join(pieces[1..]);
      JoinSplits(pieces[1..]);
    }
  }

  /** `filepath.Clean` of a relative path, name by name. */
  function CleanFrom(done: Path, todo: seq<string>): Path
    decreases |todo|
  {
    if todo == [] then done
    else if todo[0] == "" || todo[0] == "." then CleanFrom(done, todo[1..])
    else if todo[0] == ".." && done != [] && done[|done| - 1] != ".." then CleanFrom(Parent(done), todo[1..])
    else CleanFrom(done + [todo[0]], todo[1..])
  }

  function CleanPath(supplied: string): Path {
    CleanFrom([], Split(supplied))
  }

  /** Some `..` names, then plain names only. */
  predicate Cleaned(p: Path) {
    && (forall i :: 0 <= i < |p| ==> p[i] != "" && p[i] != ".")
    && forall i :: 0 < i < |p| && p[i] == ".." ==> p[i - 1] == ".."
  }

  lemma {:induction false} CleanFromCleaned(done: Path, todo: seq<string>)
    requires Cleaned(done)
    ensures Cleaned(CleanFrom(done, todo))
    decreases |todo|
  {
    if todo != [] {
      if todo[0] == "" || todo[0] == "." {
        CleanFromCleaned(done, todo[1..]);
      } else if todo[0] == ".." && done != [] && done[|done| - 1] != ".." {
        CleanFromCleaned(Parent(done), todo[1..]);
      } else {
        CleanFromCleaned(done + [todo[0]], todo[1..]);
      }
    }
  }

  /** A cleaned path that does not begin with `..` has plain names only. */
  lemma {:induction false} CleanedPlain(p: Path, i: nat)
    requires Cleaned(p) && p != [] && p[0] != ".." && i < |p|
    ensures PlainName(p[i])
  {
    if i > 0 {
      CleanedPlain(p, i - 1);
    }
  }

  /** Cleaning that once climbed above its start stays above it. */
  lemma {:induction false} CleanStaysAbove(done: Path, todo: seq<string>)
    requires Cleaned(done) && Escapes(done)
    ensures Escapes(CleanFrom(done, todo))
    decreases |todo|
  {
    if todo != [] {
      if todo[0] == "" || todo[0] == "." {
        CleanStaysAbove(done, todo[1..]);
      } else if todo[0] == ".." && done[|done| - 1] != ".." {
        CleanStaysAbove(Parent(done), todo[1..]);
      } else {
        CleanStaysAbove(done + [todo[0]], todo[1..]);
      }
    }
  }

  /** Read name by name from this depth, the text never climbs above the top. */
  predicate NeverAbove(depth: int, todo: seq<string>)
    decreases |todo|
  {
    depth >= 0 && (todo == [] || NeverAbove(depth + Descent(todo[0]), todo[1..]))
  }

  /** How much deeper a name leads. */
  function Descent(name: string): int {
    if name == "" || name == "." then 0 else if name == ".." then -1 else 1
  }

  lemma {:induction false} CleanEscapesIff(done: Path, todo: seq<string>)
    requires Cleaned(done) && !Escapes(done)
    ensures Escapes(CleanFrom(done, todo)) <==> !NeverAbove(|done|, todo)
    decreases |todo|
  {
    if todo != [] {
      if done != [] { CleanedPlain(done, |done| - 1); }
      if todo[0] == "" || todo[0] == "." {
        CleanEscapesIff(done, todo[1..]);
      } else if todo[0] == ".." && done == [] {
        CleanStaysAbove([] + [".."], todo[1..]);
      } else if todo[0] == ".." {
        CleanEscapesIff(Parent(done), todo[1..]);
      } else {
        CleanEscapesIff(done + [todo[0]], todo[1..]);
      }
    }
  }

  /** `filepath.Rel` of two absolute clean paths. */
  function Rel(base: Path, target: Path): Path {
    if base != [] && target != [] && base[0] == target[0] then Rel(base[1..], target[1..])
    else seq(|base|, _ => "..") + target
  }

  predicate Escapes(p: Path) {
    p != [] && p[0] == ".."
  }

  /** The textual escape check says exactly whether the target lies under the base. */
  lemma {:induction false} RelEscapes(base: Path, target: Path)
    requires PlainNames(target)
    ensures Escapes(Rel(base, target)) <==> !(base <= target)
  {
    if base != [] && target != [] && base[0] == target[0] {
      RelEscapes(base[1..], target[1..]);
      assert base == [base[0]] + base[1..] && target == [target[0]] + target[1..];
    }
  }

  // ---------------------------------------------------------------- looking up paths

  datatype Lookup = Found(path: Path) | Missing | Failed

  const KERNEL_LINKS := 40
  const EVAL_LINKS := 255

  /** Follows names from the directory `at`, symlinks included, through at most `links` links. */
  function Walk(fs: Tree, at: Path, todo: seq<string>, links: nat): Lookup
    decreases links, |todo|
  {
    if todo == [] then Found(at)
    else if todo[0] == "" || todo[0] == "." then Walk(fs, at, todo[1..], links)
    else if todo[0] == ".." then Walk(fs, Parent(at), todo[1..], links)
    else
      var next := at + [todo[0]];
      if next !in fs then Missing
      else match fs[next]
        case Dir => Walk(fs, next, todo[1..], links)
        case File(_) => if |todo| == 1 then Found(next) else Failed
        case Link(target) =>
          if links == 0 then Failed
          else Walk(fs, if target != "" && target[0] == '/' then [] else at, Split(target) + todo[1..], links - 1)
  }

  /** `filepath.EvalSymlinks`. */
  function EvalSymlinks(fs: Tree, p: Path): Lookup {
    Walk(fs, [], p, EVAL_LINKS)
  }

  /** `os.Lstat`: links above the last name are followed, a link at the end is not. */
  function Lstat(fs: Tree, p: Path): Lookup {
    if p == [] then Found([])
    else match Walk(fs, [], Parent(p), KERNEL_LINKS)
      case Found(d) =>
        if d !in fs || fs[d] != Dir then Failed
        else if d + [p[|p| - 1]] in fs then Found(d + [p[|p| - 1]])
        else Missing
      case Missing => Missing
      case Failed => Failed
  }

  predicate IsLink(fs: Tree, l: Lookup) {
    l.Found? && l.path in fs && fs[l.path].Link?
  }

  /** What a walk finds exists and is no link, so its path is physical. */
  lemma {:induction false} WalkPhysical(fs: Tree, at: Path, todo: seq<string>, links: nat)
    requires ValidTree(fs) && at in fs && fs[at] == Dir
    ensures var r := Walk(fs, at, todo, links); r.Found? ==> r.path in fs && !fs[r.path].Link?
    decreases links, |todo|
  {
    if todo != [] {
      if todo[0] == "" || todo[0] == "." {
        WalkPhysical(fs, at, todo[1..], links);
      } else if todo[0] == ".." {
        WalkPhysical(fs, Parent(at), todo[1..], links);
      } else if at + [todo[0]] in fs {
        match fs[at + [todo[0]]]
        case Dir => WalkPhysical(fs, at + [todo[0]], todo[1..], links);
        case File(_) =>
        case Link(target) =>
          if links > 0 {
            WalkPhysical(fs, if target != "" && target[0] == '/' then [] else at, Split(target) + todo[1..], links - 1);
          }
      }
    }
  }

  lemma WalkStep(fs: Tree, at: Path, x: Name, rest: Path, links: nat)
    requires PlainName(x) && at + [x] in fs && fs[at + [x]] == Dir
    ensures Walk(fs, at, [x] + rest, links) == Walk(fs, at + [x], rest, links)
  {
    assert ([x] + rest)[1..] == rest;
  }

  /** Through existing directories a walk just descends. */
  lemma {:induction false} WalkDescends(fs: Tree, d: Path, rest: Path, links: nat)
    requires ValidTree(fs) && d in fs && fs[d] == Dir
    ensures Walk(fs, [], d + rest, links) == Walk(fs, d, rest, links)
    decreases |d|
  {
    if d == [] {
      assert d + rest == rest;
    } else {
      var x := d[|d| - 1];
      assert d == Parent(d) + [x];
      assert d + rest == Parent(d) + ([x] + rest);
      WalkDescends(fs, Parent(d), [x] + rest, links);
      WalkStep(fs, Parent(d), x, rest, links);
    }
  }

  /** One name below an existing directory decides: missing, or in the way, or passed. */
  lemma WalkBelow(fs: Tree, d: Path, x: Name, rest: Path, links: nat)
    requires ValidTree(fs) && d in fs && fs[d] == Dir && PlainName(x)
    ensures var next, r := d + [x], Walk(fs, [], d + [x] + rest, links);
            && (next !in fs ==> r == Missing)
            && (next in fs && fs[next].File? ==> r == if rest == [] then Found(next) else Failed)
            && (next in fs && fs[next] == Dir ==> r == Walk(fs, next, rest, links))
  {
    assert d + [x] + rest == d + ([x] + rest);
    WalkDescends(fs, d, [x] + rest, links);
    assert ([x] + rest)[1..] == rest;
  }

  /** `Lstat` one name below an existing directory sees exactly what is there. */
  lemma LstatBelow(fs: Tree, d: Path, x: Name)
    requires ValidTree(fs) && d in fs && fs[d] == Dir
    ensures Lstat(fs, d + [x]) == if d + [x] in fs then Found(d + [x]) else Missing
  {
    WalkDescends(fs, d, [], KERNEL_LINKS);
    assert d + [] == d && Parent(d + [x]) == d;
  }

  /** `Lstat` of an existing path sees it. */
  lemma LstatExisting(fs: Tree, p: Path)
    requires ValidTree(fs) && p in fs
    ensures Lstat(fs, p) == Found(p)
  {
    if p != [] {
      assert p == Parent(p) + [p[|p| - 1]];
      LstatBelow(fs, Parent(p), p[|p| - 1]);
    }
  }

  /** `Lstat` further below a missing name misses; below a file it fails. */
  lemma LstatPast(fs: Tree, d: Path, x: Name, rest: Path)
    requires ValidTree(fs) && d in fs && fs[d] == Dir && PlainName(x) && rest != []
    ensures d + [x] !in fs ==> Lstat(fs, d + [x] + rest) == Missing
    ensures d + [x] in fs && fs[d + [x]].File? ==> Lstat(fs, d + [x] + rest) == Failed
  {
    assert Parent(d + [x] + rest) == d + [x] + Parent(rest);
    WalkBelow(fs, d, x, Parent(rest), KERNEL_LINKS);
  }

  /**
   Lexical cleaning preserves meaning: wherever the supplied text leads without crossing a
   symlink, the cleaned path is that place.
   */
  lemma {:induction false} CleaningPreservesMeaning(fs: Tree, root: Path, done: Path, todo: seq<string>)
    requires ValidTree(fs) && PlainNames(done) && Walk(fs, root + done, todo, 0).Found?
    ensures Escapes(CleanFrom(done, todo)) || Walk(fs, root + done, todo, 0) == Found(root + CleanFrom(done, todo))
    decreases |todo|
  {
    if todo != [] {
      if todo[0] == "" || todo[0] == "." {
        CleaningPreservesMeaning(fs, root, done, todo[1..]);
      } else if todo[0] == ".." {
        if done == [] {
          assert done + [todo[0]] == [".."];
          CleanStaysAbove([".."], todo[1..]);
        } else {
          assert Parent(root + done) == root + Parent(done);
          CleaningPreservesMeaning(fs, root, Parent(done), todo[1..]);
        }
      } else {
        assert root + done + [todo[0]] == root + (done + [todo[0]]);
        if fs[root + done + [todo[0]]] == Dir {
          CleaningPreservesMeaning(fs, root, done + [todo[0]], todo[1..]);
        }
      }
    }
  }

  /** `os.Stat`: what the path leads to, symlinks followed. */
  function Stat(fs: Tree, p: Path): Lookup {
    Walk(fs, [], p, KERNEL_LINKS)
  }

  // ---------------------------------------------------------------- checkExistingParents

  datatype ParentsCheck = NoLinks | SymlinkParent | LookupFailed | Endless

  /** What the ancestor loop does from `current` on; it never leaves `/` unless `/` is the root. */
  function ParentsFrom(fs: Tree, root: Path, current: Path): ParentsCheck
    decreases |current|
  {
    var info := Lstat(fs, current);
    if IsLink(fs, info) then SymlinkParent
    else if current == root then NoLinks
    else if info == Failed then LookupFailed
    else if current == [] then Endless
    else ParentsFrom(fs, root, Parent(current))
  }

  /** The loop after `n` iterations: its outcome, or still running. */
  function Iterations(fs: Tree, root: Path, current: Path, n: nat): Option<ParentsCheck> {
    if n == 0 then None
    else
      var info := Lstat(fs, current);
      if IsLink(fs, info) then Some(SymlinkParent)
      else if current == root then Some(NoLinks)
      else if info == Failed then Some(LookupFailed)
      else Iterations(fs, root, Parent(current), n - 1)
  }

  lemma {:induction false} IterationsAtTop(fs: Tree, root: Path, n: nat)
    requires ValidTree(fs) && root != []
    ensures Iterations(fs, root, [], n) == None
  {
    if n > 0 {
      IterationsAtTop(fs, root, n - 1);
    }
  }

  /** `Endless` is what it says: no number of iterations ends the loop; otherwise some number does. */
  lemma {:induction false} EndlessMeansForever(fs: Tree, root: Path, current: Path, n: nat)
    requires ValidTree(fs)
    ensures ParentsFrom(fs, root, current) == Endless ==> Iterations(fs, root, current, n) == None
    ensures ParentsFrom(fs, root, current) != Endless && n > |current| ==>
        Iterations(fs, root, current, n) == Some(ParentsFrom(fs, root, current))
    decreases |current|
  {
    if current == [] {
      if root != [] {
        IterationsAtTop(fs, root, n);
      }
    } else if n > 0 {
      EndlessMeansForever(fs, root, Parent(current), n - 1);
    }
  }

  /** The root is an existing directory reached through directories only. */
  ghost predicate CanonicalRoot(fs: Tree, root: Path) {
    ValidTree(fs) && root != [] && root in fs && fs[root] == Dir
  }

  lemma {:induction false} AboveRootEndless(fs: Tree, root: Path, current: Path)
    requires CanonicalRoot(fs, root) && current < root
    ensures ParentsFrom(fs, root, current) == Endless
    decreases |current|
  {
    Ancestor(fs, root, current);
    LstatExisting(fs, current);
    if current != [] {
      AboveRootEndless(fs, root, Parent(current));
    }
  }

  lemma {:induction false} BelowRootEnds(fs: Tree, root: Path, current: Path)
    requires root <= current
    ensures ParentsFrom(fs, root, current) != Endless
    decreases |current|
  {
    if current != root {
      assert root <= Parent(current);
      BelowRootEnds(fs, root, Parent(current));
    }
  }

  /** For a path inside the root, the ancestor loop ends if and only if the path is not the root itself. */
  lemma AncestorLoopEnds(fs: Tree, root: Path, path: Path)
    requires CanonicalRoot(fs, root) && root <= path
    ensures (exists n: nat :: Iterations(fs, root, Parent(path), n).Some?) <==> path != root
  {
    if path == root {
      AboveRootEndless(fs, root, Parent(root));
      forall n: nat
        ensures Iterations(fs, root, Parent(path), n).None?
      {
        EndlessMeansForever(fs, root, Parent(path), n);
      }
    } else {
      assert root <= Parent(path);
      BelowRootEnds(fs, root, Parent(path));
      EndlessMeansForever(fs, root, Parent(path), |path| + 1);
    }
  }

  /** `checkExistingParents`, for the paths on which its loop ends. */
  method CheckExistingParents(fs: Tree, root: Path, path: Path) returns (r: ParentsCheck, ghost visited: seq<Path>)
    requires root <= path && path != root
    ensures r == ParentsFrom(fs, root, Parent(path)) && r != Endless
    ensures |visited| <= |path| - |root|
    ensures forall i :: 0 <= i < |visited| ==> visited[i] == path[..|path| - 1 - i]
    ensures r == NoLinks ==> |visited| == |path| - |root|
  {
    var current := Parent(path);
    visited := [];
    while true
      invariant root <= current <= path && |visited| == |path| - 1 - |current|
      invariant forall i :: 0 <= i < |visited| ==> visited[i] == path[..|path| - 1 - i]
      invariant ParentsFrom(fs, root, Parent(path)) == ParentsFrom(fs, root, current)
      decreases |current|
    {
      visited := visited + [current];
      var info := Lstat(fs, current);
      if IsLink(fs, info) {
        return SymlinkParent, visited;
      }
      if current == root {
        return NoLinks, visited;
      }
      if info == Failed {
        return LookupFailed, visited;
      }
      current := Parent(current);
    }
  }

  // ---------------------------------------------------------------- resolve

  datatype PathError = AbsolutePath | EscapesWorkspace | SymlinkPath | SymlinkEscapes | NotFound | LookupError

  datatype Resolution = Accepted(path: Path) | Rejected(why: PathError) | NoReturn

  function Resolve(fs: Tree, root: Path, supplied: string, allowMissing: bool): Resolution {
    if supplied != "" && supplied[0] in "/\\" then Rejected(AbsolutePath)
    else
      var clean := CleanPath(supplied);
      if Escapes(clean) then Rejected(EscapesWorkspace)
      else
        var full := root + clean;
        if Escapes(Rel(root, full)) then Rejected(EscapesWorkspace)
        else if allowMissing then ResolveNew(fs, root, full)
        else ResolveReal(fs, root, full)
  }

  function ResolveNew(fs: Tree, root: Path, full: Path): Resolution {
    match Lstat(fs, full)
    case Failed => Rejected(LookupError)
    case Missing => WithParents(fs, root, full)
    case Found(p) =>
      if IsLink(fs, Found(p)) then Rejected(SymlinkPath)
      else
        var physical := ResolveReal(fs, root, full);
        if physical.Rejected? then physical else WithParents(fs, root, full)
  }

  function ResolveReal(fs: Tree, root: Path, full: Path): (r: Resolution)
    ensures !r.NoReturn?
  {
    match EvalSymlinks(fs, full)
    case Missing => Rejected(NotFound)
    case Failed => Rejected(LookupError)
    case Found(target) => if Escapes(Rel(root, target)) then Rejected(SymlinkEscapes) else Accepted(target)
  }

  function WithParents(fs: Tree, root: Path, full: Path): Resolution {
    match ParentsFrom(fs, root, Parent(full))
    case NoLinks => Accepted(full)
    case SymlinkParent => Rejected(SymlinkPath)
    case LookupFailed => Rejected(LookupError)
    case Endless => NoReturn
  }

  /** The supplied text names a place inside the workspace: relative, and not climbing out. */
  predicate StaysInside(supplied: string) {
    (supplied == "" || supplied[0] !in "/\\") && !Escapes(CleanPath(supplied))
  }

  /** Exactly when: it does not begin with a slash of either kind, and no prefix of it climbs above its start. */
  lemma StaysInsideIff(supplied: string)
    ensures StaysInside(supplied) <==>
              !("/" <= supplied) && !("\\" <= supplied) && NeverAbove(0, Split(supplied))
  {
    CleanEscapesIff([], Split(supplied));
  }

  lemma CleanInside(supplied: string)
    requires StaysInside(supplied)
    ensures PlainNames(CleanPath(supplied))
  {
    CleanFromCleaned([], Split(supplied));
    forall i | 0 <= i < |CleanPath(supplied)| ensures PlainName(CleanPath(supplied)[i]) {
      CleanedPlain(CleanPath(supplied), i);
    }
  }

  /** Every accepted path lies inside the root, whatever was supplied and whatever the tree. */
  lemma ResolveContained(fs: Tree, root: Path, supplied: string, allowMissing: bool)
    requires CanonicalRoot(fs, root)
    requires Resolve(fs, root, supplied, allowMissing).Accepted?
    ensures root <= Resolve(fs, root, supplied, allowMissing).path
    ensures !allowMissing ==> var p := Resolve(fs, root, supplied, allowMissing).path; p in fs && !fs[p].Link?
  {
    var full := root + CleanPath(supplied);
    if !allowMissing {
      WalkPhysical(fs, [], full, EVAL_LINKS);
      var target := EvalSymlinks(fs, full).path;
      ExistingPlain(fs, target);
      RelEscapes(root, target);
    }
  }

  /** Everything from the root down to above `full` is missing or a directory. */
  ghost predicate ParentsUsable(fs: Tree, root: Path, full: Path) {
    forall q :: root <= q < full && q in fs ==> fs[q] == Dir
  }

  lemma {:induction false} ParentsDirs(fs: Tree, root: Path, d: Path)
    requires ValidTree(fs) && d in fs && fs[d] == Dir && root <= d
    ensures ParentsFrom(fs, root, d) == NoLinks
    decreases |d|
  {
    LstatExisting(fs, d);
    if d != root {
      ParentsDirs(fs, root, Parent(d));
    }
  }

  lemma {:induction false} ParentsMissing(fs: Tree, root: Path, d: Path, x: Name, rest: Path)
    requires ValidTree(fs) && d in fs && fs[d] == Dir && root <= d && PlainName(x) && d + [x] !in fs
    ensures ParentsFrom(fs, root, d + [x] + rest) == NoLinks
    decreases |rest|
  {
    if rest == [] {
      assert d + [x] + rest == d + [x] && Parent(d + [x]) == d;
      LstatBelow(fs, d, x);
      ParentsDirs(fs, root, d);
    } else {
      LstatPast(fs, d, x, rest);
      assert Parent(d + [x] + rest) == d + [x] + Parent(rest);
      ParentsMissing(fs, root, d, x, Parent(rest));
    }
  }

  lemma {:induction false} ParentsLinked(fs: Tree, root: Path, d: Path, x: Name, rest: Path)
    requires ValidTree(fs) && root <= d && d + [x] in fs && fs[d + [x]].Link?
    ensures ParentsFrom(fs, root, d + [x] + rest) != NoLinks
    decreases |rest|
  {
    if rest == [] {
      assert d + [x] + rest == d + [x];
      LstatExisting(fs, d + [x]);
    } else {
      assert Parent(d + [x] + rest) == d + [x] + Parent(rest);
      ParentsLinked(fs, root, d, x, Parent(rest));
    }
  }

  /** The deepest existing directory on the way from `d` along `rest`. */
  lemma {:induction false} Deepest(fs: Tree, d: Path, rest: Path) returns (e: Path, left: Path)
    requires d in fs && fs[d] == Dir
    ensures e in fs && fs[e] == Dir && d <= e && e + left == d + rest
    ensures left != [] && e + [left[0]] in fs ==> fs[e + [left[0]]] != Dir
    decreases |rest|
  {
    if rest != [] && d + [rest[0]] in fs && fs[d + [rest[0]]] == Dir {
      e, left := Deepest(fs, d + [rest[0]], rest[1..]);
      assert d + [rest[0]] + rest[1..] == d + rest;
    } else {
      e, left := d, rest;
    }
  }

  /** The lexical half of the resolver lets a staying-inside path through to its lookups. */
  lemma LexicalChecksPass(fs: Tree, root: Path, supplied: string)
    requires ValidTree(fs) && root in fs && StaysInside(supplied)
    ensures var full := root + CleanPath(supplied);
            && PlainNames(full)
            && Resolve(fs, root, supplied, true) == ResolveNew(fs, root, full)
            && Resolve(fs, root, supplied, false) == ResolveReal(fs, root, full)
  {
    CleanInside(supplied);
    ExistingPlain(fs, root);
    RelEscapes(root, root + CleanPath(supplied));
  }

  /** An existing directory resolves to itself, physically. */
  lemma DirIsReal(fs: Tree, root: Path, full: Path)
    requires CanonicalRoot(fs, root) && root <= full && full in fs && fs[full] == Dir
    ensures Lstat(fs, full) == Found(full) && ResolveReal(fs, root, full) == Accepted(full)
  {
    LstatExisting(fs, full);
    assert EvalSymlinks(fs, full) == Found(full) by {
      WalkDescends(fs, full, [], EVAL_LINKS);
      assert full + [] == full;
    }
    ExistingPlain(fs, full);
    RelEscapes(root, full);
  }

  /** A target that is an existing directory. */
  lemma TargetIsDir(fs: Tree, root: Path, full: Path)
    requires CanonicalRoot(fs, root) && root <= full && full in fs && fs[full] == Dir
    ensures ResolveNew(fs, root, full) == if full == root then NoReturn else Accepted(full)
  {
    DirIsReal(fs, root, full);
    if full == root {
      AboveRootEndless(fs, root, Parent(root));
    } else {
      assert root <= Parent(full);
      ParentsDirs(fs, root, Parent(full));
    }
  }

  /** A target one name below an existing directory, and no directory itself. */
  lemma TargetInDir(fs: Tree, root: Path, e: Path, x: Name)
    requires CanonicalRoot(fs, root) && root <= e && e in fs && fs[e] == Dir && PlainName(x)
    requires e + [x] in fs ==> fs[e + [x]] != Dir
    ensures ResolveNew(fs, root, e + [x]) ==
            if e + [x] in fs && fs[e + [x]].Link? then Rejected(SymlinkPath) else Accepted(e + [x])
  {
    var full := e + [x];
    LstatBelow(fs, e, x);
    WalkBelow(fs, e, x, [], EVAL_LINKS);
    assert full + [] == full && Parent(full) == e && root <= full;
    ExistingPlain(fs, e);
    RelEscapes(root, full);
    ParentsDirs(fs, root, e);
  }

  /** A target below a missing name. */
  lemma TargetPastMissing(fs: Tree, root: Path, e: Path, x: Name, rest: Path)
    requires CanonicalRoot(fs, root) && root <= e && e in fs && fs[e] == Dir && PlainName(x)
    requires e + [x] !in fs && rest != []
    ensures ResolveNew(fs, root, e + [x] + rest) == Accepted(e + [x] + rest)
  {
    LstatPast(fs, e, x, rest);
    assert Parent(e + [x] + rest) == e + [x] + Parent(rest);
    ParentsMissing(fs, root, e, x, Parent(rest));
  }

  /** A target below a file or a symlink. */
  lemma TargetPastObstacle(fs: Tree, root: Path, e: Path, x: Name, rest: Path)
    requires CanonicalRoot(fs, root) && root <= e && e in fs && fs[e] == Dir && PlainName(x)
    requires e + [x] in fs && fs[e + [x]] != Dir && rest != []
    ensures ResolveNew(fs, root, e + [x] + rest).Rejected?
  {
    LstatPast(fs, e, x, rest);
    if fs[e + [x]].Link? {
      var up := e + [x] + Parent(rest);
      assert Parent(e + [x] + rest) == up && root <= up;
      BelowRootEnds(fs, root, up);
      ParentsLinked(fs, root, e, x, Parent(rest));
    }
  }

  /** Which of the two sides of `e + [x]` a prefix of a longer path lies on. */
  lemma BetweenPrefixes(e: Path, x: Name, rest: Path, q: Path)
    requires q < e + [x] + rest
    ensures q <= e || (e + [x] <= q && rest != [])
  {
    var full := e + [x] + rest;
    if |q| <= |e| {
      assert q == full[..|q|] == e[..|q|];
    } else {
      assert q == full[..|q|];
      assert q[..|e| + 1] == e + [x];
    }
  }

  lemma UsableIff(fs: Tree, root: Path, e: Path, x: Name, rest: Path)
    requires ValidTree(fs) && root <= e && e in fs && fs[e] == Dir
    requires e + [x] in fs ==> fs[e + [x]] != Dir
    ensures ParentsUsable(fs, root, e + [x] + rest) <==> e + [x] !in fs || rest == []
    ensures rest != [] && e + [x] !in fs ==> e + [x] + rest !in fs
  {
    var full := e + [x] + rest;
    if rest != [] {
      assert root <= e + [x] < full;
      if full in fs {
        Ancestor(fs, full, e + [x]);
      }
    }
    if e + [x] !in fs || rest == [] {
      forall q | root <= q < full && q in fs ensures fs[q] == Dir {
        BetweenPrefixes(e, x, rest, q);
        if q < e {
          Ancestor(fs, e, q);
        } else if q != e && q != e + [x] {
          Ancestor(fs, q, e + [x]);
        }
      }
    }
  }

  /**
   Exactly which targets of a write are accepted, and as what: relative names of something
   strictly below the root, reached from the root through directories or names yet missing,
   and not itself a symlink.  The accepted path is the lexical one.  Only the root itself
   makes the resolver run forever.
   */
  lemma ResolveTargetExact(fs: Tree, root: Path, supplied: string)
    requires CanonicalRoot(fs, root)
    ensures var r := Resolve(fs, root, supplied, true);
            var full := root + CleanPath(supplied);
            && (r.Accepted? <==>
                && StaysInside(supplied) && full != root
                && ParentsUsable(fs, root, full) && (full in fs ==> !fs[full].Link?))
            && (r.Accepted? ==> r.path == full)
            && (r == NoReturn <==> StaysInside(supplied) && full == root)
  {
    if StaysInside(supplied) {
      LexicalChecksPass(fs, root, supplied);
      ResolveNewExact(fs, root, CleanPath(supplied));
    }
  }

  lemma ResolveNewExact(fs: Tree, root: Path, clean: Path)
    requires CanonicalRoot(fs, root) && PlainNames(root + clean)
    ensures var r, full := ResolveNew(fs, root, root + clean), root + clean;
            && (r.Accepted? <==> full != root && ParentsUsable(fs, root, full) && (full in fs ==> !fs[full].Link?))
            && (r.Accepted? ==> r.path == full)
            && (r == NoReturn <==> full == root)
  {
    var e, left := Deepest(fs, root, clean);
    var full := root + clean;
    if left == [] {
      assert full == e;
      TargetIsDir(fs, root, full);
      forall q | root <= q < full && q in fs ensures fs[q] == Dir { Ancestor(fs, full, q); }
    } else {
      var x, rest := left[0], left[1..];
      assert full == e + [x] + rest && full[|e|] == x;
      UsableIff(fs, root, e, x, rest);
      if rest == [] {
        assert full == e + [x];
        TargetInDir(fs, root, e, x);
      } else if e + [x] !in fs {
        TargetPastMissing(fs, root, e, x, rest);
      } else {
        TargetPastObstacle(fs, root, e, x, rest);
      }
    }
  }

  /** For an accepted write target the lexical and the physical location coincide. */
  lemma TargetIsPhysical(fs: Tree, root: Path, supplied: string)
    requires CanonicalRoot(fs, root) && Resolve(fs, root, supplied, true).Accepted?
    ensures var p := Resolve(fs, root, supplied, true).path;
            && root < p
            && (forall q :: root <= q <= p && q in fs ==> !fs[q].Link?)
            && EvalSymlinks(fs, p) == if p in fs then Found(p) else Missing
  {
    LexicalChecksPass(fs, root, supplied);
    ResolveTargetExact(fs, root, supplied);
    UsableIsPhysical(fs, root, CleanPath(supplied));
  }

  lemma UsableIsPhysical(fs: Tree, root: Path, clean: Path)
    requires CanonicalRoot(fs, root) && PlainNames(root + clean) && root + clean != root
    requires ParentsUsable(fs, root, root + clean) && (root + clean in fs ==> !fs[root + clean].Link?)
    ensures var p := root + clean;
            && root < p
            && (forall q :: root <= q <= p && q in fs ==> !fs[q].Link?)
            && EvalSymlinks(fs, p) == if p in fs then Found(p) else Missing
  {
    EvalUsable(fs, root, clean);
    forall q | root <= q <= root + clean && q in fs ensures !fs[q].Link? {
      assert q == root + clean || q < root + clean;
    }
  }

  lemma EvalUsable(fs: Tree, root: Path, clean: Path)
    requires CanonicalRoot(fs, root) && PlainNames(root + clean)
    requires ParentsUsable(fs, root, root + clean) && (root + clean in fs ==> !fs[root + clean].Link?)
    ensures EvalSymlinks(fs, root + clean) == if root + clean in fs then Found(root + clean) else Missing
  {
    var p := root + clean;
    var e, left := Deepest(fs, root, clean);
    if left != [] {
      var x, rest := left[0], left[1..];
      assert p == e + [x] + rest && p[|e|] == x;
      UsableIff(fs, root, e, x, rest);
      WalkBelow(fs, e, x, rest, EVAL_LINKS);
      if rest == [] {
        assert p == e + [x];
      }
    } else {
      assert p == e && e + [] == e;
      WalkDescends(fs, e, [], EVAL_LINKS);
    }
  }

  /** An existing path that is no link, below directories, resolves to its lexical place. */
  lemma ResolveExistingPlain(fs: Tree, root: Path, supplied: string)
    requires CanonicalRoot(fs, root) && StaysInside(supplied)
    requires var full := root + CleanPath(supplied); full in fs && !fs[full].Link?
    ensures Resolve(fs, root, supplied, false) == Accepted(root + CleanPath(supplied))
  {
    var full := root + CleanPath(supplied);
    LexicalChecksPass(fs, root, supplied);
    forall q | root <= q < full && q in fs ensures fs[q] == Dir { Ancestor(fs, full, q); }
    EvalUsable(fs, root, CleanPath(supplied));
    RelEscapes(root, full);
  }

  /**
   Exactly which existing paths are accepted, and as what: those whose text stays inside and
   that walk, through symlinks or not, to a place under the root, which is the accepted one.
   */
  lemma ResolveExistingIff(fs: Tree, root: Path, supplied: string, p: Path)
    requires CanonicalRoot(fs, root)
    ensures Resolve(fs, root, supplied, false) == Accepted(p) <==>
              && StaysInside(supplied) && root <= p
              && Walk(fs, [], root + CleanPath(supplied), 255) == Found(p)
  {
    if StaysInside(supplied) {
      LexicalChecksPass(fs, root, supplied);
      var found := EvalSymlinks(fs, root + CleanPath(supplied));
      WalkPhysical(fs, [], root + CleanPath(supplied), EVAL_LINKS);
      if found.Found? {
        ExistingPlain(fs, found.path);
        RelEscapes(root, found.path);
      }
    }
  }
}
