/**
 The two usage scans of a workspace and the quota decisions taken from them.  A scan visits
 every node below a root once, in an order that is a parameter.
 */
module Quota {
  import opened Base
  import opened Paths

  /** Caps that are not positive are disabled. */
  datatype Limits = Limits(maxBytes: int, maxWorkspaceBytes: int, maxWorkspaceFiles: int, deleteEnabled: bool)

  datatype Usage = Usage(bytes: nat, count: nat)

  /** Directories are never measured. */
  function NodeSize(n: Node): nat {
    match n
    case File(data) => |data|
    case Link(target) => |target|
    case Dir => 0
  }

  /** The files (and links) of a workspace: everything the quota counts. */
  function Leaves(fs: Tree, root: Path): map<Path, Node> {
    map p | p in fs && root <= p && fs[p] != Dir :: fs[p]
  }

  // ---------------------------------------------------------------- totals over maps

  ghost function TotalSize(m: map<Path, Node>): nat {
    if m == map[] then 0
    else
      var p :| p in m;
      NodeSize(m[p]) + TotalSize(m - {p})
  }

  /** Any one entry may be split off first. */
  lemma {:induction false} TotalSizeSplit(m: map<Path, Node>, p: Path)
    requires p in m
    ensures TotalSize(m) == NodeSize(m[p]) + TotalSize(m - {p})
    decreases |m|
  {
    var q :| q in m && TotalSize(m) == NodeSize(m[q]) + TotalSize(m - {q});
    if q != p {
      TotalSizeSplit(m - {q}, p);
      TotalSizeSplit(m - {p}, q);
      assert m - {q} - {p} == m - {p} - {q};
    }
  }

  lemma PutThenDrop(m: map<Path, Node>, p: Path, n: Node)
    ensures m[p := n] - {p} == m - {p}
    ensures p !in m ==> m - {p} == m
  {
  }

  lemma PutCount(m: map<Path, Node>, p: Path, n: Node)
    ensures |m[p := n]| == if p in m then |m| else |m| + 1
  {
    assert |m[p := n]| == |m[p := n].Keys| && |m| == |m.Keys|;
    assert m[p := n].Keys == m.Keys + {p};
  }

  lemma TotalSizePut(m: map<Path, Node>, p: Path, n: Node)
    ensures TotalSize(m[p := n]) == TotalSize(m - {p}) + NodeSize(n)
    ensures TotalSize(m[p := n]) == TotalSize(m) - (if p in m then NodeSize(m[p]) else 0) + NodeSize(n)
    ensures |m[p := n]| == if p in m then |m| else |m| + 1
  {
    PutCount(m, p, n);
    PutThenDrop(m, p, n);
    TotalSizeSplit(m[p := n], p);
    if p in m {
      TotalSizeSplit(m, p);
    }
  }

  // ---------------------------------------------------------------- the two scans

  /** `order` lists every node at or below the root exactly once. */
  ghost predicate WalkOrder(fs: Tree, root: Path, order: seq<Path>) {
    && (forall i, j :: 0 <= i < j < |order| ==> order[i] != order[j])
    && forall p :: p in order <==> p in fs && root <= p
  }

  predicate Counted(fs: Tree, p: Path, excluded: Option<Path>) {
    Some(p) != excluded && p in fs && fs[p] != Dir
  }

  function Visit(fs: Tree, p: Path, excluded: Option<Path>, u: Usage): Usage {
    if Counted(fs, p, excluded) then Usage(u.bytes + NodeSize(fs[p]), u.count + 1) else u
  }

  /** A cap is passed: the early-abort scan stops here. */
  predicate Over(lim: Limits, u: Usage) {
    || (lim.maxWorkspaceBytes > 0 && u.bytes > lim.maxWorkspaceBytes)
    || (lim.maxWorkspaceFiles > 0 && u.count > lim.maxWorkspaceFiles)
  }

  /** The full scan. */
  function ExactScan(fs: Tree, order: seq<Path>, excluded: Option<Path>): Usage {
    if order == [] then Usage(0, 0)
    else Visit(fs, order[|order| - 1], excluded, ExactScan(fs, order[..|order| - 1], excluded))
  }

  /** Where the early-abort scan stops: after `k` nodes. */
  function StopsAfter(fs: Tree, order: seq<Path>, excluded: Option<Path>, lim: Limits, k: nat): (n: nat)
    requires k <= |order|
    ensures k <= n <= |order|
    decreases |order| - k
  {
    if k == |order| then k
    else if Counted(fs, order[k], excluded) && Over(lim, ExactScan(fs, order[..k + 1], excluded)) then k + 1
    else StopsAfter(fs, order, excluded, lim, k + 1)
  }

  function EarlyScan(fs: Tree, order: seq<Path>, excluded: Option<Path>, lim: Limits): Usage {
    ExactScan(fs, order[..StopsAfter(fs, order, excluded, lim, 0)], excluded)
  }

  /** `Files.usageExcluding`. */
  method UsageExcluding(fs: Tree, order: seq<Path>, excluded: Option<Path>, lim: Limits) returns (u: Usage)
    ensures u == EarlyScan(fs, order, excluded, lim)
  {
    var bytes: nat, count: nat := 0, 0;
    for k := 0 to |order|
      invariant Usage(bytes, count) == ExactScan(fs, order[..k], excluded)
      invariant StopsAfter(fs, order, excluded, lim, 0) == StopsAfter(fs, order, excluded, lim, k)
    {
      assert order[..k + 1][..k] == order[..k];
      if Counted(fs, order[k], excluded) {
        bytes := bytes + NodeSize(fs[order[k]]);
        count := count + 1;
        if lim.maxWorkspaceBytes > 0 && bytes > lim.maxWorkspaceBytes {
          return Usage(bytes, count);
        }
        if lim.maxWorkspaceFiles > 0 && count > lim.maxWorkspaceFiles {
          return Usage(bytes, count);
        }
      }
    }
    return Usage(bytes, count);
  }

  /** `usageExactExcluding`. */
  method UsageExactExcluding(fs: Tree, order: seq<Path>, excluded: Option<Path>) returns (u: Usage)
    ensures u == ExactScan(fs, order, excluded)
  {
    var bytes: nat, count: nat := 0, 0;
    for k := 0 to |order|
      invariant Usage(bytes, count) == ExactScan(fs, order[..k], excluded)
    {
      assert order[..k + 1][..k] == order[..k];
      if Counted(fs, order[k], excluded) {
        bytes := bytes + NodeSize(fs[order[k]]);
        count := count + 1;
      }
    }
    assert order[..|order|] == order;
    return Usage(bytes, count);
  }

  lemma {:induction false} ScanMonotone(fs: Tree, order: seq<Path>, excluded: Option<Path>, k: nat)
    requires k <= |order|
    ensures ExactScan(fs, order[..k], excluded).bytes <= ExactScan(fs, order, excluded).bytes
    ensures ExactScan(fs, order[..k], excluded).count <= ExactScan(fs, order, excluded).count
  {
    if k < |order| {
      ScanMonotone(fs, order[..|order| - 1], excluded, k);
      assert order[..|order| - 1][..k] == order[..k];
    } else {
      assert order[..k] == order;
    }
  }

  lemma {:induction false} StopsAfterMeaning(fs: Tree, order: seq<Path>, excluded: Option<Path>, lim: Limits, k: nat)
    requires k <= |order|
    ensures var n := StopsAfter(fs, order, excluded, lim, k);
            n < |order| ==> Over(lim, ExactScan(fs, order[..n], excluded))
    decreases |order| - k
  {
    if k < |order| {
      StopsAfterMeaning(fs, order, excluded, lim, k + 1);
    }
  }

  /** The early scan sees either everything, or already enough to be over a cap. */
  lemma EarlyScanMeaning(fs: Tree, order: seq<Path>, excluded: Option<Path>, lim: Limits)
    ensures var e, x := EarlyScan(fs, order, excluded, lim), ExactScan(fs, order, excluded);
            && e.bytes <= x.bytes && e.count <= x.count
            && (e == x || (Over(lim, e) && Over(lim, x)))
  {
    StopsAfterMeaning(fs, order, excluded, lim, 0);
    var k := StopsAfter(fs, order, excluded, lim, 0);
    ScanMonotone(fs, order, excluded, k);
    assert order[..|order|] == order;
  }

  /** `m` holds the counted nodes among `order`. */
  ghost predicate CountedIn(fs: Tree, order: seq<Path>, excluded: Option<Path>, m: map<Path, Node>) {
    && (forall i, j :: 0 <= i < j < |order| ==> order[i] != order[j])
    && forall p :: (p in m <==> p in order && Counted(fs, p, excluded)) && (p in m ==> p in fs && m[p] == fs[p])
  }

  lemma CountedInit(fs: Tree, order: seq<Path>, excluded: Option<Path>, m: map<Path, Node>)
    requires CountedIn(fs, order, excluded, m) && order != []
    ensures var init, last := order[..|order| - 1], order[|order| - 1];
            CountedIn(fs, init, excluded, m - {last}) && (last in m <==> Counted(fs, last, excluded))
  {
    var init, last := order[..|order| - 1], order[|order| - 1];
    assert order == init + [last];
    assert last !in init;
    assert forall p :: p in order <==> p in init || p == last;
  }

  lemma VisitUsage(fs: Tree, p: Path, excluded: Option<Path>, counted: map<Path, Node>)
    requires p in counted <==> Counted(fs, p, excluded)
    requires p in counted ==> p in fs && counted[p] == fs[p]
    ensures Visit(fs, p, excluded, UsageOf(counted - {p})) == UsageOf(counted)
  {
    UsageSplit(counted, p);
  }

  /** The full scan measures the counted nodes, whatever the order. */
  lemma {:induction false} ExactScanTotals(fs: Tree, order: seq<Path>, excluded: Option<Path>, counted: map<Path, Node>)
    requires CountedIn(fs, order, excluded, counted)
    ensures ExactScan(fs, order, excluded) == UsageOf(counted)
  {
    if order == [] {
      assert counted == map[];
    } else {
      var init, last := order[..|order| - 1], order[|order| - 1];
      assert CountedIn(fs, init, excluded, counted - {last}) && (last in counted <==> Counted(fs, last, excluded)) by {
        CountedInit(fs, order, excluded, counted);
      }
      ExactScanTotals(fs, init, excluded, counted - {last});
      VisitUsage(fs, last, excluded, counted);
    }
  }

  lemma UsageSplit(m: map<Path, Node>, p: Path)
    ensures p in m ==> UsageOf(m) == Usage(UsageOf(m - {p}).bytes + NodeSize(m[p]), UsageOf(m - {p}).count + 1)
    ensures p !in m ==> UsageOf(m - {p}) == UsageOf(m)
  {
    if p in m {
      TotalSizeSplit(m, p);
      assert (m - {p}).Keys == m.Keys - {p};
    } else {
      assert m - {p} == m;
    }
  }

  ghost function UsageOf(m: map<Path, Node>): Usage {
    Usage(TotalSize(m), |m|)
  }

  /** The full scan of a workspace measures its leaves. */
  lemma ExactScanIsUsage(fs: Tree, root: Path, order: seq<Path>)
    requires WalkOrder(fs, root, order)
    ensures ExactScan(fs, order, None) == UsageOf(Leaves(fs, root))
  {
    ExactScanTotals(fs, order, None, Leaves(fs, root));
  }

  /** With one path excluded it measures the others. */
  lemma ExactScanExcluding(fs: Tree, root: Path, order: seq<Path>, excluded: Path)
    requires WalkOrder(fs, root, order)
    ensures ExactScan(fs, order, Some(excluded)) == UsageOf(Leaves(fs, root) - {excluded})
  {
    ExactScanTotals(fs, order, Some(excluded), Leaves(fs, root) - {excluded});
  }

  // ---------------------------------------------------------------- decisions

  /** Both enabled caps are respected. */
  ghost predicate WithinCaps(lim: Limits, m: map<Path, Node>) {
    && (lim.maxWorkspaceBytes > 0 ==> TotalSize(m) <= lim.maxWorkspaceBytes)
    && (lim.maxWorkspaceFiles > 0 ==> |m| <= lim.maxWorkspaceFiles)
  }

  datatype Verdict = Allowed | BytesExceeded | FilesExceeded

  /** The two comparisons shared by every quota check. */
  function Decide(lim: Limits, used: Usage, newSize: nat, existingSize: nat, isNew: bool): Verdict {
    if lim.maxWorkspaceBytes > 0 && used.bytes - existingSize + newSize > lim.maxWorkspaceBytes then BytesExceeded
    else if isNew && lim.maxWorkspaceFiles > 0 && used.count >= lim.maxWorkspaceFiles then FilesExceeded
    else Allowed
  }

  /** `Files.enforceQuota`. */
  function EnforceQuota(lim: Limits, fs: Tree, order: seq<Path>, newSize: nat, existingSize: nat, isNew: bool): Verdict
  {
    if lim.maxWorkspaceBytes <= 0 && lim.maxWorkspaceFiles <= 0 then Allowed
    else Decide(lim, EarlyScan(fs, order, None, lim), newSize, existingSize, isNew)
  }

  /** The same decision taken from a full scan. */
  function EnforceQuotaExact(lim: Limits, fs: Tree, order: seq<Path>, newSize: nat, existingSize: nat,
      isNew: bool): Verdict
  {
    if lim.maxWorkspaceBytes <= 0 && lim.maxWorkspaceFiles <= 0 then Allowed
    else Decide(lim, ExactScan(fs, order, None), newSize, existingSize, isNew)
  }

  /** For a new file the early-abort scan accepts and rejects exactly as the full scan would. */
  lemma EarlyScanExactForNewFiles(lim: Limits, fs: Tree, order: seq<Path>, newSize: nat)
    ensures EnforceQuota(lim, fs, order, newSize, 0, true).Allowed? <==>
        EnforceQuotaExact(lim, fs, order, newSize, 0, true).Allowed?
  {
    EarlyScanMeaning(fs, order, None, lim);
  }

  /** For a replacement it does so whenever the workspace is within its caps. */
  lemma EarlyScanExactWithinCaps(lim: Limits, fs: Tree, order: seq<Path>, newSize: nat, existingSize: nat, isNew: bool)
    requires !Over(lim, ExactScan(fs, order, None))
    ensures EnforceQuota(lim, fs, order, newSize, existingSize, isNew)
        == EnforceQuotaExact(lim, fs, order, newSize, existingSize, isNew)
  {
    EarlyScanMeaning(fs, order, None, lim);
  }

  /**
   In general a replacement is decided alike for every new size if and only if the byte cap
   is off, or the early scan has seen every byte, or it has seen so many that nothing fits.
   */
  lemma ReplacementDecisionIff(lim: Limits, fs: Tree, order: seq<Path>, existingSize: nat)
    ensures var e, x := EarlyScan(fs, order, None, lim), ExactScan(fs, order, None);
            (forall newSize: nat ::
               EnforceQuota(lim, fs, order, newSize, existingSize, false).Allowed? <==>
               EnforceQuotaExact(lim, fs, order, newSize, existingSize, false).Allowed?)
            <==> lim.maxWorkspaceBytes <= 0 || e.bytes == x.bytes || e.bytes - existingSize > lim.maxWorkspaceBytes
  {
    EarlyScanMeaning(fs, order, None, lim);
    var e, x := EarlyScan(fs, order, None, lim), ExactScan(fs, order, None);
    var fits := lim.maxWorkspaceBytes - (e.bytes - existingSize);
    if lim.maxWorkspaceBytes > 0 && e.bytes < x.bytes && fits >= 0 {
      assert EnforceQuota(lim, fs, order, fits, existingSize, false) == Allowed;
      assert EnforceQuotaExact(lim, fs, order, fits, existingSize, false) == BytesExceeded;
    }
  }

  /** Three files of eight bytes in one workspace, and a walk of it. */
  const CROWDED_ROOT: Path := ["w"]
  const CROWDED: Tree := map[
    [] := Dir, ["w"] := Dir,
    ["w", "a"] := File("12345678"), ["w", "b"] := File("12345678"), ["w", "c"] := File("12345678")]
  const CROWDED_WALK: seq<Path> := [["w"], ["w", "a"], ["w", "b"], ["w", "c"]]
  const TEN_BYTES := Limits(100, 10, 0, false)

  lemma CrowdedScans()
    ensures ExactScan(CROWDED, CROWDED_WALK[..2], None) == Usage(8, 1)
    ensures ExactScan(CROWDED, CROWDED_WALK[..3], None) == Usage(16, 2)
    ensures ExactScan(CROWDED, CROWDED_WALK, None) == Usage(24, 3)
  {
    var w := CROWDED_WALK;
    assert w[..4] == w && w[..4][..3] == w[..3] && w[..3][..2] == w[..2] && w[..2][..1] == w[..1] && w[..1][..0] == [];
    assert ExactScan(CROWDED, w[..1], None) == Usage(0, 0);
  }

  lemma CrowdedTree()
    ensures ValidTree(CROWDED)
  {
    var top: Tree := map[[] := Dir];
    assert [] + ["w"] == ["w"] && ["w"] + ["a"] == ["w", "a"];
    assert ["w"] + ["b"] == ["w", "b"] && ["w"] + ["c"] == ["w", "c"];
    EntryAdded(top, [], "w", Dir);
    var w := top[["w"] := Dir];
    EntryAdded(w, ["w"], "a", File("12345678"));
    var a := w[["w", "a"] := File("12345678")];
    EntryAdded(a, ["w"], "b", File("12345678"));
    var b := a[["w", "b"] := File("12345678")];
    EntryAdded(b, ["w"], "c", File("12345678"));
    assert CROWDED == b[["w", "c"] := File("12345678")];
  }

  lemma CrowdedInOrder()
    ensures WalkOrder(CROWDED, CROWDED_ROOT, CROWDED_WALK)
  {
    var w := CROWDED_WALK;
    assert forall p :: p in w <==> p == w[0] || p == w[1] || p == w[2] || p == w[3];
  }

  /** Replacing one of them by one byte: over the cap already, the early scan lets it through. */
  lemma OverCapReplacementDiffers()
    ensures ValidTree(CROWDED) && WalkOrder(CROWDED, CROWDED_ROOT, CROWDED_WALK)
    ensures var replaced := NodeSize(CROWDED[["w", "c"]]);
            && EnforceQuota(TEN_BYTES, CROWDED, CROWDED_WALK, 1, replaced, false) == Allowed
            && EnforceQuotaExact(TEN_BYTES, CROWDED, CROWDED_WALK, 1, replaced, false) == BytesExceeded
  {
    var w := CROWDED_WALK;
    CrowdedScans();
    CrowdedTree();
    CrowdedInOrder();
    assert StopsAfter(CROWDED, w, None, TEN_BYTES, 2) == 3;
    assert StopsAfter(CROWDED, w, None, TEN_BYTES, 1) == 3;
    assert StopsAfter(CROWDED, w, None, TEN_BYTES, 0) == 3;
  }

  /** An allowed write keeps a workspace within its caps. */
  lemma AllowedKeepsCaps(lim: Limits, m: map<Path, Node>, used: Usage, target: Path, n: Node)
    requires WithinCaps(lim, m) && used == UsageOf(m)
    requires (lim.maxWorkspaceBytes <= 0 && lim.maxWorkspaceFiles <= 0)
             || Decide(lim, used, NodeSize(n), if target in m then NodeSize(m[target]) else 0, target !in m) == Allowed
    ensures WithinCaps(lim, m[target := n])
  {
    TotalSizePut(m, target, n);
  }
}
