/**
 Documents that an edit reaches through a symlink: when the engine's output is refused, where
 the temporary file goes, and two concrete workspaces in which that is not where its name says.
 */
module Symlinks {
  import opened Base
  import opened Paths
  import opened Quota
  import opened Store
  import opened FileTools

  /**
   Once its place is free, the temporary file of an edit stays in the workspace if and only
   if the directory of the supplied path resolves to a place inside the root.
   */
  lemma TempStaysInsideIff(fs: Tree, root: Path, supplied: string, name: string)
    requires CanonicalRoot(fs, root) && Stat(fs, Parent(TempName(root, supplied, name))).Found?
    requires TempPlace(fs, TempName(root, supplied, name)) !in fs
    ensures root <= TempPlace(fs, TempName(root, supplied, name)) <==>
            root <= Stat(fs, Parent(TempName(root, supplied, name))).path
  {
    var named := TempName(root, supplied, name);
    var dir := Stat(fs, Parent(named)).path;
    var temp := TempPlace(fs, named);
    assert temp == dir + [name];
    assert root <= temp ==> |root| < |temp| || root == temp;
    assert root <= temp ==> root == temp[..|root|];
    assert dir == temp[..|dir|];
  }

  /** So it does wherever that directory is reached without symlinks, and then it is where its name says. */
  lemma TempInsideWithoutLinks(fs: Tree, root: Path, supplied: string, name: string)
    requires CanonicalRoot(fs, root)
    requires var dir := Parent(TempName(root, supplied, name)); dir in fs && !fs[dir].Link?
    ensures TempPlace(fs, TempName(root, supplied, name)) == TempName(root, supplied, name)
    ensures root <= TempPlace(fs, TempName(root, supplied, name))
  {
    var named := TempName(root, supplied, name);
    StatFound(fs, Parent(named));
    assert Parent(named) == root + Parent(CleanPath(supplied)) && named == Parent(named) + [name];
  }

  /** The check of a replacement refuses it for its bytes, and for nothing else. */
  lemma ReplacementRefusedIff(lim: Limits, fs: Tree, root: Path, order: seq<Path>, final: Path, temp: Path, named: Path)
    requires TempPlaced(fs, root, final, temp, named) && WalkOrder(fs, root, order) && final in fs && fs[final].File?
    ensures var after := UsageOf((Leaves(fs, root) - {temp})[final := fs[temp]]);
            var extra := CountedTwice(fs, root, temp, named);
            CheckOfficeOutput(lim, fs, order, final, temp, named, false) == Some(QuotaExceeded(BytesExceeded)) <==>
            lim.maxWorkspaceBytes > 0 && after.bytes + extra.bytes > lim.maxWorkspaceBytes
  {
    OutputAllowedIff(lim, fs, root, order, final, temp, named);
    FinalMeasured(fs, root, final, temp);
  }

  /** An engine that leaves this document, whatever it finds, and ends well. */
  function Leaving(data: string): Engine {
    (found: Option<string>) => EngineRun(Some(data), true)
  }

  /** An edit whose engine has ended well is the commit of its output. */
  lemma EditCommits(lim: Limits, fs: Tree, root: Path, order: seq<Path>, final: Path, temp: Path, named: Path,
                    data: string)
    requires EditTemp(fs, root, final, temp, named) && final in fs && fs[final].File?
    ensures var ready := fs[temp := File(data)];
            var refusal := CheckOfficeOutput(lim, ready, order, final, temp, named, false);
            EditLocked(lim, fs, order, final, temp, named, Leaving(data), true) ==
            if refusal.Some? then Failure(fs, refusal.value) else Success(fs[final := File(data)])
  {
    var ready := fs[temp := File(data)];
    FileAdded(fs, temp, data);
    assert AfterRun(fs[temp := fs[final]], temp, EngineRun(Some(data), true)) == ready;
  }

  /**
   Such an edit is refused for its size if and only if the workspace afterwards, with the
   temporary copy counted again where its place is not its name, would pass the byte cap.
   */
  lemma EditTooLargeIff(lim: Limits, fs: Tree, root: Path, order: seq<Path>, final: Path, temp: Path, named: Path,
                        data: string)
    requires EditTemp(fs, root, final, temp, named) && final in fs && fs[final].File?
    requires WalkOrder(fs[temp := File(data)], root, order)
    ensures var after := UsageOf(Leaves(fs, root)[final := File(data)]);
            var extra := CountedTwice(fs[temp := File(data)], root, temp, named);
            EditLocked(lim, fs, order, final, temp, named, Leaving(data), true)
              == Failure(fs, QuotaExceeded(BytesExceeded)) <==>
            lim.maxWorkspaceBytes > 0 && after.bytes + extra.bytes > lim.maxWorkspaceBytes
  {
    var ready := fs[temp := File(data)];
    FileAdded(fs, temp, data);
    ExistingPlain(fs, final);
    EditCommits(lim, fs, root, order, final, temp, named, data);
    LeavesBeside(fs, root, temp, data);
    ReplacementRefusedIff(lim, ready, root, order, final, temp, named);
  }

  // ---------------------------------------------------------------- steps of a walk

  predicate At(fs: Tree, p: Path, n: Node) {
    p in fs && fs[p] == n
  }

  lemma Into(fs: Tree, at: Path, x: Name, rest: seq<string>, links: nat)
    requires PlainName(x) && At(fs, at + [x], Dir)
    ensures Walk(fs, at, [x] + rest, links) == Walk(fs, at + [x], rest, links)
  {
    assert ([x] + rest)[1..] == rest;
  }

  lemma Onto(fs: Tree, at: Path, x: Name, links: nat)
    requires PlainName(x) && at + [x] in fs && fs[at + [x]].File?
    ensures Walk(fs, at, [x], links) == Found(at + [x])
  {
  }

  lemma Through(fs: Tree, at: Path, x: Name, target: string, rest: seq<string>, links: nat)
    requires PlainName(x) && At(fs, at + [x], Link(target)) && links > 0
    ensures Walk(fs, at, [x] + rest, links) ==
            Walk(fs, if target != "" && target[0] == '/' then [] else at, Split(target) + rest, links - 1)
  {
    assert ([x] + rest)[1..] == rest;
  }

  lemma Skip(fs: Tree, at: Path, rest: seq<string>, links: nat)
    ensures Walk(fs, at, [""] + rest, links) == Walk(fs, at, rest, links)
  {
    assert ([""] + rest)[1..] == rest;
  }

  /** An absolute target is walked from the top. */
  lemma ThroughAbsolute(fs: Tree, at: Path, x: Name, target: string, pieces: seq<string>, rest: seq<string>, links: nat)
    requires PlainName(x) && At(fs, at + [x], Link(target)) && links > 0
    requires target != "" && target[0] == '/' && Split(target) == [""] + pieces
    ensures Walk(fs, at, [x] + rest, links) == Walk(fs, [], pieces + rest, links - 1)
  {
    Through(fs, at, x, target, rest, links);
    assert [""] + pieces + rest == [""] + (pieces + rest);
    Skip(fs, [], pieces + rest, links - 1);
  }

  lemma AbsoluteAtEnd(fs: Tree, at: Path, x: Name, target: string, pieces: seq<string>, links: nat)
    requires PlainName(x) && At(fs, at + [x], Link(target)) && links > 0
    requires target != "" && target[0] == '/' && Split(target) == [""] + pieces
    ensures Walk(fs, at, [x], links) == Walk(fs, [], pieces, links - 1)
  {
    ThroughAbsolute(fs, at, x, target, pieces, [], links);
    assert [x] + [] == [x] && pieces + [] == pieces;
  }

  // ---------------------------------------------------------------- the pieces of a text

  lemma {:induction false} SplitWord(s: string)
    requires '/' !in s
    ensures Split(s) == [s]
  {
    if s != "" {
      SplitWord(s[1..]);
      assert [s[0]] + s[1..] == s;
    }
  }

  lemma SplitSlash(s: string)
    ensures Split("/" + s) == [""] + Split(s)
  {
    assert ("/" + s)[1..] == s;
  }

  /** A piece of one letter. */
  lemma SplitLetter(x: char, rest: string)
    requires x != '/'
    ensures Split([x] + "/" + rest) == [[x]] + Split(rest)
  {
    var tail := "/" + rest;
    SplitSlash(rest);
    assert [x] + "/" + rest == [x] + tail;
    assert ([x] + tail)[1..] == tail && [x] + "" == [x];
  }

  /** A path of two names is clean. */
  lemma CleanPair(supplied: string, x: Name, y: Name)
    requires Split(supplied) == [x, y] && PlainName(x) && PlainName(y) && (supplied == "" || supplied[0] !in "/\\")
    ensures CleanPath(supplied) == [x, y]
  {
    assert [x, y][1..] == [y] && [y][1..] == [];
    assert [] + [x] == [x] && [x] + [y] == [x, y];
    assert CleanFrom([x, y], []) == [x, y];
    assert CleanFrom([x], [y]) == [x, y];
  }

  const ROOT: Path := ["w"]

  /** Where a document named by two names is, and the temporary file of its edit. */
  lemma PairPlaces(fs: Tree, supplied: string, x: Name, y: Name, name: string, target: Path, dir: Path)
    requires CanonicalRoot(fs, ROOT) && StaysInside(supplied) && CleanPath(supplied) == [x, y]
    requires Walk(fs, [], ["w", x] + [y], EVAL_LINKS) == Found(target) && ROOT <= target
    requires Walk(fs, [], ["w", x] + [], KERNEL_LINKS) == Found(dir)
    ensures Resolve(fs, ROOT, supplied, false) == Accepted(target)
    ensures TempName(ROOT, supplied, name) == ["w", x, name]
    ensures TempPlace(fs, ["w", x, name]) == dir + [name]
  {
    LexicalChecksPass(fs, ROOT, supplied);
    assert ROOT + [x, y] == ["w", x] + [y] && Parent([x, y]) == [x] && ROOT + [x] + [name] == ["w", x, name];
    assert Parent(["w", x, name]) == ["w", x] + [];
    WalkPhysical(fs, [], ["w", x] + [y], EVAL_LINKS);
    ExistingPlain(fs, target);
    RelEscapes(ROOT, target);
  }

  // ---------------------------------------------------------------- counted twice

  /** A directory with a document, and a symlink to the directory beside it. */
  const LINKED: Tree := map[
    [] := Dir, ["w"] := Dir, ["w", "d"] := Dir, ["w", "d", "a"] := File("12345678"), ["w", "l"] := Link("d")]
  const LINKED_WALK: seq<Path> := [["w"], ["w", "d"], ["w", "d", "a"], ["w", "d", "t"], ["w", "l"]]
  const TWELVE_BYTES := Limits(100, 12, 0, false)
  const OUTPUT := "123456"

  ghost predicate IsLinked(fs: Tree) {
    && CanonicalRoot(fs, ROOT)
    && At(fs, ["w", "d"], Dir) && At(fs, ["w", "d", "a"], File("12345678")) && At(fs, ["w", "l"], Link("d"))
    && ["w", "d", "t"] !in fs && ["w", "l", "t"] !in fs
  }

  ghost predicate LinkedPaths(fs: Tree) {
    forall p :: p in fs <==>
        p == [] || p == ["w"] || p == ["w", "d"] || p == ["w", "d", "a"] || p == ["w", "l"]
  }

  lemma LinkedSound()
    ensures IsLinked(LINKED)
    ensures LinkedPaths(LINKED)
  {
    var top: Tree := map[[] := Dir];
    assert [] + ["w"] == ["w"] && ["w"] + ["d"] == ["w", "d"] && ["w"] + ["l"] == ["w", "l"];
    assert ["w", "d"] + ["a"] == ["w", "d", "a"];
    EntryAdded(top, [], "w", Dir);
    var w := top[["w"] := Dir];
    EntryAdded(w, ["w"], "d", Dir);
    var d := w[["w", "d"] := Dir];
    EntryAdded(d, ["w", "d"], "a", File("12345678"));
    var a := d[["w", "d", "a"] := File("12345678")];
    EntryAdded(a, ["w"], "l", Link("d"));
    assert LINKED == a[["w", "l"] := Link("d")];
  }

  lemma LinkedInOrder(fs: Tree)
    requires LinkedPaths(fs)
    ensures WalkOrder(fs[["w", "d", "t"] := File(OUTPUT)], ROOT, LINKED_WALK)
  {
    var w := LINKED_WALK;
    assert forall p :: p in w <==> p == w[0] || p == w[1] || p == w[2] || p == w[3] || p == w[4];
  }

  /** "l" leads to the directory, from the top. */
  lemma LinkedWalk(fs: Tree, rest: seq<string>, links: nat)
    requires IsLinked(fs) && links > 0
    ensures Walk(fs, [], ["w", "l"] + rest, links) == Walk(fs, ["w", "d"], rest, links - 1)
  {
    assert ["w", "l"] + rest == ["w"] + (["l"] + rest);
    assert [] + ["w"] == ["w"] && ["w"] + ["l"] == ["w", "l"] && ["w"] + ["d"] == ["w", "d"];
    Into(fs, [], "w", ["l"] + rest, links);
    Through(fs, ["w"], "l", "d", rest, links);
    SplitWord("d");
    Into(fs, ["w"], "d", rest, links - 1);
  }

  /** The document is accepted as "l/a", and its temporary file goes to the directory, under another name. */
  lemma LinkedPlaces(fs: Tree)
    requires IsLinked(fs)
    ensures Resolve(fs, ROOT, "l/a", false) == Accepted(["w", "d", "a"])
    ensures TempName(ROOT, "l/a", "t") == ["w", "l", "t"]
    ensures TempPlace(fs, ["w", "l", "t"]) == ["w", "d", "t"]
  {
    assert ['l'] + "/" + "a" == "l/a";
    SplitLetter('l', "a");
    SplitWord("a");
    CleanPair("l/a", "l", "a");
    LinkedWalk(fs, ["a"], EVAL_LINKS);
    assert ["w", "d"] + ["a"] == ["w", "d", "a"] && ["w", "d"] + ["t"] == ["w", "d", "t"];
    Onto(fs, ["w", "d"], "a", EVAL_LINKS - 1);
    LinkedWalk(fs, [], KERNEL_LINKS);
    PairPlaces(fs, "l/a", "l", "a", "t", ["w", "d", "a"], ["w", "d"]);
  }

  /** The workspace before and after. */
  lemma LinkedUsage(before: map<Path, Node>, document: Path, link: Path)
    requires before == map[link := Link("d"), document := File("12345678")] && link != document
    ensures UsageOf(before) == Usage(9, 2)
    ensures UsageOf(before[document := File(OUTPUT)]) == Usage(7, 2)
  {
    var one := map[link := Link("d")];
    PutUsage(map[], link, Link("d"));
    assert map[][link := Link("d")] == one;
    PutUsage(one, document, File("12345678"));
    PutUsage(one, document, File(OUTPUT));
    assert before == one[document := File("12345678")];
    assert before[document := File(OUTPUT)] == one[document := File(OUTPUT)];
  }

  lemma LinkedLeaves()
    ensures Leaves(LINKED, ROOT) == map[["w", "l"] := Link("d"), ["w", "d", "a"] := File("12345678")]
  {
    LinkedSound();
    assert !(ROOT <= []) && ROOT <= ["w", "l"] && ROOT <= ["w", "d", "a"];
  }

  /**
   The edit of a document named through a symlinked directory can be refused although the
   workspace is within its caps and would be afterwards: the temporary copy counts as well.
   */
  lemma FittingDocumentRefused()
    ensures CanonicalRoot(LINKED, ROOT) && Resolve(LINKED, ROOT, "l/a", false) == Accepted(["w", "d", "a"])
    ensures var named := TempName(ROOT, "l/a", "t");
            var temp := TempPlace(LINKED, named);
            && WalkOrder(LINKED[temp := File(OUTPUT)], ROOT, LINKED_WALK)
            && EditLocked(TWELVE_BYTES, LINKED, LINKED_WALK, ["w", "d", "a"], temp, named,
                          Leaving(OUTPUT), true)
               == Failure(LINKED, QuotaExceeded(BytesExceeded))
    ensures WithinCaps(TWELVE_BYTES, Leaves(LINKED, ROOT))
    ensures WithinCaps(TWELVE_BYTES, Leaves(LINKED, ROOT)[["w", "d", "a"] := File(OUTPUT)])
  {
    LinkedSound();
    LinkedLeaves();
    LinkedUsage(Leaves(LINKED, ROOT), ["w", "d", "a"], ["w", "l"]);
    LinkedInOrder(LINKED);
    LinkedPlaces(LINKED);
    LinkedRefused(LINKED, UsageOf(Leaves(LINKED, ROOT)[["w", "d", "a"] := File(OUTPUT)]));
  }

  lemma LinkedRefused(fs: Tree, after: Usage)
    requires IsLinked(fs) && WalkOrder(fs[["w", "d", "t"] := File(OUTPUT)], ROOT, LINKED_WALK)
    requires UsageOf(Leaves(fs, ROOT)[["w", "d", "a"] := File(OUTPUT)]) == after && after.bytes == 7
    ensures EditLocked(TWELVE_BYTES, fs, LINKED_WALK, ["w", "d", "a"], ["w", "d", "t"], ["w", "l", "t"],
                       Leaving(OUTPUT), true)
            == Failure(fs, QuotaExceeded(BytesExceeded))
  {
    var final, temp, named := ["w", "d", "a"], ["w", "d", "t"], ["w", "l", "t"];
    assert Parent(temp) == ["w", "d"] && ROOT < final && ROOT <= temp && EditTemp(fs, ROOT, final, temp, named);
    EditTooLargeIff(TWELVE_BYTES, fs, ROOT, LINKED_WALK, final, temp, named, OUTPUT);
  }

  // ---------------------------------------------------------------- outside the workspace

  /** A symlink out of the workspace, and one outside that leads back to a document. */
  const OUTWARD: Tree := map[
    [] := Dir, ["w"] := Dir, ["w", "d"] := Dir, ["w", "d", "a"] := File("12345678"), ["w", "l"] := Link("/other"),
    ["other"] := Dir, ["other", "x"] := Link("/w/d/a")]

  ghost predicate IsOutward(fs: Tree) {
    && CanonicalRoot(fs, ROOT)
    && At(fs, ["w", "d"], Dir) && At(fs, ["w", "d", "a"], File("12345678")) && At(fs, ["w", "l"], Link("/other"))
    && At(fs, ["other"], Dir) && At(fs, ["other", "x"], Link("/w/d/a"))
  }

  lemma OutwardSound()
    ensures IsOutward(OUTWARD)
  {
    var top: Tree := map[[] := Dir];
    assert [] + ["w"] == ["w"] && ["w"] + ["d"] == ["w", "d"] && ["w"] + ["l"] == ["w", "l"];
    assert ["w", "d"] + ["a"] == ["w", "d", "a"] && [] + ["other"] == ["other"];
    assert ["other"] + ["x"] == ["other", "x"];
    EntryAdded(top, [], "w", Dir);
    var w := top[["w"] := Dir];
    EntryAdded(w, ["w"], "d", Dir);
    var d := w[["w", "d"] := Dir];
    EntryAdded(d, ["w", "d"], "a", File("12345678"));
    var a := d[["w", "d", "a"] := File("12345678")];
    EntryAdded(a, ["w"], "l", Link("/other"));
    var l := a[["w", "l"] := Link("/other")];
    EntryAdded(l, [], "other", Dir);
    var o := l[["other"] := Dir];
    EntryAdded(o, ["other"], "x", Link("/w/d/a"));
    assert OUTWARD == o[["other", "x"] := Link("/w/d/a")];
  }

  lemma TargetPieces()
    ensures Split("/other") == [""] + ["other"]
    ensures Split("/w/d/a") == [""] + (["w"] + (["d"] + ["a"]))
  {
    SplitWord("other");
    SplitSlash("other");
    assert "/" + "other" == "/other";
    SplitWord("a");
    assert ['d'] + "/" + "a" == "d/a" && ['w'] + "/" + "d/a" == "w/d/a" && "/" + "w/d/a" == "/w/d/a";
    SplitLetter('d', "a");
    SplitLetter('w', "d/a");
    SplitSlash("w/d/a");
  }

  /** "l" leads out of the workspace. */
  lemma OutwardWalk(fs: Tree, rest: seq<string>, links: nat)
    requires IsOutward(fs) && links > 0
    ensures Walk(fs, [], ["w", "l"] + rest, links) == Walk(fs, ["other"], rest, links - 1)
  {
    assert ["w", "l"] + rest == ["w"] + (["l"] + rest);
    assert [] + ["w"] == ["w"] && ["w"] + ["l"] == ["w", "l"] && [] + ["other"] == ["other"];
    Into(fs, [], "w", ["l"] + rest, links);
    TargetPieces();
    ThroughAbsolute(fs, ["w"], "l", "/other", ["other"], rest, links);
    Into(fs, [], "other", rest, links - 1);
  }

  lemma DownWalk(fs: Tree, links: nat)
    requires IsOutward(fs)
    ensures Walk(fs, [], ["w"] + (["d"] + ["a"]), links) == Found(["w", "d", "a"])
  {
    assert [] + ["w"] == ["w"] && ["w"] + ["d"] == ["w", "d"] && ["w", "d"] + ["a"] == ["w", "d", "a"];
    Into(fs, [], "w", ["d"] + ["a"], links);
    Into(fs, ["w"], "d", ["a"], links);
    Onto(fs, ["w", "d"], "a", links);
  }

  /** And from there "x" leads to the document. */
  lemma BackWalk(fs: Tree, links: nat)
    requires IsOutward(fs) && links > 0
    ensures Walk(fs, ["other"], ["x"], links) == Found(["w", "d", "a"])
  {
    assert Split("/w/d/a") == [""] + (["w"] + (["d"] + ["a"])) by { TargetPieces(); }
    assert ["other"] + ["x"] == ["other", "x"];
    AbsoluteAtEnd(fs, ["other"], "x", "/w/d/a", ["w"] + (["d"] + ["a"]), links);
    DownWalk(fs, links - 1);
  }

  lemma OutwardPlaces(fs: Tree)
    requires IsOutward(fs)
    ensures Resolve(fs, ROOT, "l/x", false) == Accepted(["w", "d", "a"])
    ensures TempName(ROOT, "l/x", "t") == ["w", "l", "t"]
    ensures TempPlace(fs, ["w", "l", "t"]) == ["other", "t"]
  {
    assert ['l'] + "/" + "x" == "l/x";
    SplitLetter('l', "x");
    SplitWord("x");
    CleanPair("l/x", "l", "x");
    OutwardWalk(fs, ["x"], EVAL_LINKS);
    BackWalk(fs, EVAL_LINKS - 1);
    OutwardWalk(fs, [], KERNEL_LINKS);
    PairPlaces(fs, "l/x", "l", "x", "t", ["w", "d", "a"], ["other"]);
    assert ["other"] + ["t"] == ["other", "t"];
  }

  /** The document is accepted as "l/x", and the temporary file of its edit stands outside the workspace. */
  lemma TempOutside()
    ensures CanonicalRoot(OUTWARD, ROOT) && Resolve(OUTWARD, ROOT, "l/x", false) == Accepted(["w", "d", "a"])
    ensures TempPlace(OUTWARD, TempName(ROOT, "l/x", "t")) == ["other", "t"]
    ensures !(ROOT <= TempPlace(OUTWARD, TempName(ROOT, "l/x", "t")))
  {
    OutwardSound();
    OutwardPlaces(OUTWARD);
    assert ["other", "t"][0] != "w";
  }
}
