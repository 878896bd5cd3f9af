/**
 The meaning of `fs_edit`: `bytes.Count` decides, `strings.Replace(.., 1)` edits.
 A file is its sequence of bytes; nothing here depends on what a byte is.
 */
module TextEdit {
  import opened Base

  type Bytes = string

  /** `sub` stands in `s` at position `i`. */
  predicate OccursAt(s: Bytes, sub: Bytes, i: nat) {
    i + |sub| <= |s| && s[i..i + |sub|] == sub
  }

  predicate Occurs(s: Bytes, sub: Bytes) {
    exists i: nat :: i <= |s| && OccursAt(s, sub, i)
  }

  /** `bytes.Index`: the leftmost position of a non-empty substring. */
  method Index(s: Bytes, sub: Bytes) returns (r: Option<nat>)
    requires sub != []
    ensures r == Leftmost(s, sub)
  {
    var i := 0;
    while i + |sub| <= |s|
      invariant forall j: nat :: j < i ==> !OccursAt(s, sub, j)
    {
      if s[i..i + |sub|] == sub {
        LeftmostIs(s, sub, i);
        return Some(i);
      }
      i := i + 1;
    }
    if r' :| Leftmost(s, sub) == Some(r') {
      LeftmostMeaning(s, sub);
    }
    return None;
  }

  function LeftmostFrom(s: Bytes, sub: Bytes, i: nat): Option<nat>
    decreases |s| - i
  {
    if i + |sub| > |s| then None
    else if s[i..i + |sub|] == sub then Some(i)
    else if i == |s| then None
    else LeftmostFrom(s, sub, i + 1)
  }

  function Leftmost(s: Bytes, sub: Bytes): Option<nat> {
    LeftmostFrom(s, sub, 0)
  }

  lemma {:induction false} LeftmostFromMeaning(s: Bytes, sub: Bytes, i: nat)
    ensures match LeftmostFrom(s, sub, i)
            case Some(k) => i <= k && OccursAt(s, sub, k) && forall j: nat :: i <= j < k ==> !OccursAt(s, sub, j)
            case None => forall j: nat :: i <= j ==> !OccursAt(s, sub, j)
    decreases |s| - i
  {
    if i + |sub| <= |s| && s[i..i + |sub|] != sub && i < |s| {
      LeftmostFromMeaning(s, sub, i + 1);
    }
  }

  lemma LeftmostMeaning(s: Bytes, sub: Bytes)
    ensures match Leftmost(s, sub)
            case Some(k) => OccursAt(s, sub, k) && forall j: nat :: j < k ==> !OccursAt(s, sub, j)
            case None => true
    ensures Leftmost(s, sub).Some? <==> Occurs(s, sub)
  {
    LeftmostFromMeaning(s, sub, 0);
    if k :| Leftmost(s, sub) == Some(k) {
      assert k <= |s| && OccursAt(s, sub, k);
    }
  }

  lemma LeftmostIs(s: Bytes, sub: Bytes, i: nat)
    requires OccursAt(s, sub, i) && forall j: nat :: j < i ==> !OccursAt(s, sub, j)
    ensures Leftmost(s, sub) == Some(i)
  {
    LeftmostMeaning(s, sub);
    assert i <= |s|;
  }

  /** Greedy, non-overlapping counting from the left. */
  function CountOf(s: Bytes, sub: Bytes): nat
    requires sub != []
    decreases |s|
  {
    match Leftmost(s, sub)
    case None => 0
    case Some(k) => LeftmostMeaning(s, sub); 1 + CountOf(s[k + |sub|..], sub)
  }

  /** `bytes.Count`. */
  method Count(data: Bytes, sub: Bytes) returns (n: nat)
    requires sub != []
    ensures n == CountOf(data, sub)
  {
    n := 0;
    var s := data;
    var at := Index(s, sub);
    while at.Some?
      invariant at == Leftmost(s, sub)
      invariant n + CountOf(s, sub) == CountOf(data, sub)
      decreases |s|, at.Some?
    {
      LeftmostMeaning(s, sub);
      n := n + 1;
      s := s[at.value + |sub|..];
      at := Index(s, sub);
    }
  }

  /** `strings.Replace(data, old, new, 1)`. */
  method ReplaceFirst(data: Bytes, oldText: Bytes, newText: Bytes) returns (r: Bytes)
    requires oldText != []
    ensures r == Replaced(data, oldText, newText)
  {
    var at := Index(data, oldText);
    if at.None? {
      return data;
    }
    LeftmostMeaning(data, oldText);
    return data[..at.value] + newText + data[at.value + |oldText|..];
  }

  function Replaced(data: Bytes, oldText: Bytes, newText: Bytes): Bytes
    requires oldText != []
  {
    match Leftmost(data, oldText)
    case None => data
    case Some(k) => LeftmostMeaning(data, oldText); data[..k] + newText + data[k + |oldText|..]
  }

  datatype EditError = EmptyOld | NotFound | MultipleMatches

  /** The content that `fs_edit` writes back, or the reason it refuses. */
  function Edited(data: Bytes, oldText: Bytes, newText: Bytes): Result<Bytes, EditError> {
    if oldText == [] then Err(EmptyOld)
    else if CountOf(data, oldText) == 0 then Err(NotFound)
    else if CountOf(data, oldText) > 1 then Err(MultipleMatches)
    else Ok(Replaced(data, oldText, newText))
  }

  /** The text part of `Files.Edit`. */
  method EditText(data: Bytes, oldText: Bytes, newText: Bytes) returns (r: Result<Bytes, EditError>)
    ensures r == Edited(data, oldText, newText)
  {
    if oldText == [] {
      return Err(EmptyOld);
    }
    var count := Count(data, oldText);
    if count == 0 {
      return Err(NotFound);
    }
    if count > 1 {
      return Err(MultipleMatches);
    }
    var text := ReplaceFirst(data, oldText, newText);
    return Ok(text);
  }

  /** The place where an edit happens: the leftmost occurrence, with none wholly after it. */
  predicate EditsAt(data: Bytes, oldText: Bytes, p: Bytes, s: Bytes) {
    && data == p + oldText + s
    && (forall j: nat :: j < |p| ==> !OccursAt(data, oldText, j))
    && !Occurs(s, oldText)
  }

  lemma EditsAtCountsOne(data: Bytes, oldText: Bytes, p: Bytes, s: Bytes)
    requires oldText != [] && EditsAt(data, oldText, p, s)
    ensures CountOf(data, oldText) == 1 && Leftmost(data, oldText) == Some(|p|)
  {
    assert data[|p|..|p| + |oldText|] == oldText;
    LeftmostIs(data, oldText, |p|);
    assert data[|p| + |oldText|..] == s;
    LeftmostMeaning(s, oldText);
  }

  lemma LeftmostSplits(data: Bytes, oldText: Bytes, k: nat)
    requires Leftmost(data, oldText) == Some(k)
    ensures k + |oldText| <= |data| && data == data[..k] + oldText + data[k + |oldText|..]
    ensures forall j: nat :: j < k ==> !OccursAt(data, oldText, j)
  {
    LeftmostMeaning(data, oldText);
  }

  lemma AbsentWhenNotFound(s: Bytes, sub: Bytes)
    requires Leftmost(s, sub).None?
    ensures !Occurs(s, sub)
  {
    LeftmostMeaning(s, sub);
  }

  /** A count of one: found, and not found again after it. */
  lemma CountsOneIff(data: Bytes, oldText: Bytes)
    requires oldText != []
    ensures CountOf(data, oldText) == 1 <==>
            Leftmost(data, oldText).Some? && Leftmost(data, oldText).value + |oldText| <= |data|
            && Leftmost(data[Leftmost(data, oldText).value + |oldText|..], oldText).None?
  {
    if k :| Leftmost(data, oldText) == Some(k) {
      LeftmostSplits(data, oldText, k);
    }
  }

  lemma CountsOneEditsAt(data: Bytes, oldText: Bytes)
    requires oldText != [] && CountOf(data, oldText) == 1
    ensures Leftmost(data, oldText).Some?
    ensures var k := Leftmost(data, oldText).value;
            k + |oldText| <= |data| && EditsAt(data, oldText, data[..k], data[k + |oldText|..])
  {
    CountsOneIff(data, oldText);
    var k := Leftmost(data, oldText).value;
    LeftmostSplits(data, oldText, k);
    AbsentWhenNotFound(data[k + |oldText|..], oldText);
  }

  /** An edit succeeds exactly where the text splits around one place, and what it then writes. */
  lemma EditMeaning(data: Bytes, oldText: Bytes, newText: Bytes)
    requires oldText != []
    ensures Edited(data, oldText, newText).Ok? <==> exists p, s :: EditsAt(data, oldText, p, s)
    ensures forall p, s :: EditsAt(data, oldText, p, s) ==> Edited(data, oldText, newText) == Ok(p + newText + s)
    ensures Edited(data, oldText, newText).Ok? ==>
        |Edited(data, oldText, newText).value| == |data| - |oldText| + |newText|
    ensures Edited(data, oldText, newText) == Err(NotFound) <==> !Occurs(data, oldText)
  {
    LeftmostMeaning(data, oldText);
    forall p, s | EditsAt(data, oldText, p, s) ensures Edited(data, oldText, newText) == Ok(p + newText + s) {
      EditsAtCountsOne(data, oldText, p, s);
      assert data[..|p|] == p && data[|p| + |oldText|..] == s;
    }
    if CountOf(data, oldText) == 1 {
      CountsOneEditsAt(data, oldText);
    }
  }

  // ---------------------------------------------------------------- "exactly once"

  /** Exactly one position of `data` carries `oldText`: what "appears exactly once" says. */
  ghost predicate OccursOnce(data: Bytes, oldText: Bytes) {
    && Occurs(data, oldText)
    && forall i: nat, j: nat :: OccursAt(data, oldText, i) && OccursAt(data, oldText, j) ==> i == j
  }

  /** A proper, non-empty prefix of length `b` that is also a suffix. */
  predicate Border(w: Bytes, b: nat) {
    0 < b < |w| && w[..b] == w[|w| - b..]
  }

  predicate Borderless(w: Bytes) {
    forall b: nat :: b < |w| ==> !Border(w, b)
  }

  /** Two overlapping occurrences give the word a border. */
  lemma OverlapGivesBorder(data: Bytes, w: Bytes, i: nat, j: nat)
    requires OccursAt(data, w, i) && OccursAt(data, w, j) && i < j < i + |w|
    ensures Border(w, |w| - (j - i))
  {
    var d := j - i;
    var b := |w| - d;
    assert w[d..] == data[i..i + |w|][d..] == data[j..i + |w|];
    assert w[..b] == data[j..j + |w|][..b] == data[j..i + |w|];
  }

  /** Occurrences in a suffix are the occurrences from its start on. */
  lemma SuffixOccurrences(data: Bytes, w: Bytes, k: nat)
    requires k <= |data|
    ensures forall m: nat :: OccursAt(data[k..], w, m) <==> OccursAt(data, w, k + m)
  {
    forall m: nat ensures OccursAt(data[k..], w, m) <==> OccursAt(data, w, k + m) {
      if m + |w| <= |data[k..]| {
        assert data[k..][m..m + |w|] == data[k + m..k + m + |w|];
      }
    }
  }

  lemma OnceCountsOne(data: Bytes, oldText: Bytes)
    requires oldText != [] && OccursOnce(data, oldText)
    ensures CountOf(data, oldText) == 1
  {
    LeftmostMeaning(data, oldText);
    var k := Leftmost(data, oldText).value;
    SuffixOccurrences(data, oldText, k + |oldText|);
    LeftmostMeaning(data[k + |oldText|..], oldText);
  }

  lemma OccursLater(data: Bytes, w: Bytes, k: nat, i: nat)
    requires k <= i && k <= |data| && OccursAt(data, w, i)
    ensures Leftmost(data[k..], w).Some?
  {
    SuffixOccurrences(data, w, k);
    assert OccursAt(data[k..], w, i - k);
    LeftmostMeaning(data[k..], w);
  }

  lemma BorderlessCountsPositions(data: Bytes, oldText: Bytes)
    requires oldText != [] && Borderless(oldText) && CountOf(data, oldText) == 1
    ensures OccursOnce(data, oldText)
  {
    CountsOneIff(data, oldText);
    var k := Leftmost(data, oldText).value;
    LeftmostSplits(data, oldText, k);
    LeftmostMeaning(data, oldText);
    forall i: nat | OccursAt(data, oldText, i) ensures i == k {
      if k < i < k + |oldText| {
        OverlapGivesBorder(data, oldText, k, i);
      } else if i >= k + |oldText| {
        OccursLater(data, oldText, k + |oldText|, i);
      }
    }
  }

  /** With a border of length `b`, gluing two overlapping copies still counts as one match. */
  lemma BorderedCountsOne(oldText: Bytes, b: nat)
    requires Border(oldText, b)
    ensures var data := oldText + oldText[b..]; CountOf(data, oldText) == 1 && !OccursOnce(data, oldText)
  {
    var data := oldText + oldText[b..];
    var d := |oldText| - b;
    assert data[0..|oldText|] == oldText;
    assert data[d..d + |oldText|] == oldText[d..] + oldText[b..] == oldText[..b] + oldText[b..] == oldText;
    assert OccursAt(data, oldText, 0) && OccursAt(data, oldText, d);
    LeftmostIs(data, oldText, 0);
    assert data[|oldText|..] == oldText[b..];
    LeftmostMeaning(oldText[b..], oldText);
  }

  /**
   "Succeeds exactly when `old_text` appears exactly once" holds for every file if and only
   if `old_text` does not overlap itself.
   */
  lemma ExactlyOnceIffBorderless(oldText: Bytes)
    requires oldText != []
    ensures Borderless(oldText) <==> forall data :: Edited(data, oldText, []).Ok? <==> OccursOnce(data, oldText)
  {
    if Borderless(oldText) {
      forall data ensures Edited(data, oldText, []).Ok? <==> OccursOnce(data, oldText) {
        if OccursOnce(data, oldText) {
          OnceCountsOne(data, oldText);
        } else if CountOf(data, oldText) == 1 {
          BorderlessCountsPositions(data, oldText);
        }
      }
    } else {
      var b: nat :| b < |oldText| && Border(oldText, b);
      BorderedCountsOne(oldText, b);
      var data := oldText + oldText[b..];
      assert Edited(data, oldText, []).Ok? && !OccursOnce(data, oldText);
    }
  }

  /** The smallest such case: `aa` stands at two places of `aaa`, yet the edit goes through. */
  lemma OverlappingMatchIsEdited()
    ensures OccursAt("aaa", "aa", 0) && OccursAt("aaa", "aa", 1)
    ensures Edited("aaa", "aa", "b") == Ok("ba")
  {
    assert "aaa"[0..2] == "aa" && "aaa"[1..3] == "aa";
    assert EditsAt("aaa", "aa", "", "a") by {
      assert forall i: nat :: !OccursAt("a", "aa", i);
    }
    EditMeaning("aaa", "aa", "b");
    assert "" + "b" + "a" == "ba";
  }
}
