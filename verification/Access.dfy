/**
 Who may use which workspace: the configured grants, the personal workspace of every user,
 and the roles.
 */
module Access {
  import opened Base

  const VIEWER := "viewer"
  const EDITOR := "editor"
  const OWNER := "owner"

  datatype Member = Member(userId: nat, access: string)

  datatype WorkspaceConfig = WorkspaceConfig(id: string, name: string, members: seq<Member>)

  datatype WorkspaceGrant = WorkspaceGrant(id: string, name: string, access: string)

  type Grants = map<nat, map<string, WorkspaceGrant>>

  predicate CanWrite(access: string) {
    access == EDITOR || access == OWNER
  }

  predicate CanDelete(access: string) {
    access == OWNER
  }

  predicate ValidAccess(access: string) {
    access == VIEWER || access == EDITOR || access == OWNER
  }

  predicate ValidWorkspaceID(id: string) {
    && id != "" && !("user-" <= id)
    && forall i :: 0 <= i < |id| ==> 'a' <= id[i] <= 'z' || IsDigit(id[i]) || id[i] == '-'
  }

  /** What `LoadConfig` has checked. */
  predicate ValidConfig(config: seq<WorkspaceConfig>) {
    && (forall i :: 0 <= i < |config| ==> ValidWorkspaceID(config[i].id))
    && (forall i, j :: 0 <= i < j < |config| ==> config[i].id != config[j].id)
    && forall i, k :: 0 <= i < |config| && 0 <= k < |config[i].members| ==>
         config[i].members[k].userId != 0 && ValidAccess(config[i].members[k].access)
  }

  /**
   The ids a configuration may declare: lower-case letters, digits and dashes, by their code
   points, and never a personal one.
   */
  lemma WorkspaceIDIff(id: string)
    ensures ValidWorkspaceID(id) <==>
              && id != "" && (forall rest: string :: id != "user-" + rest)
              && forall c :: c in id ==> 97 <= c as int <= 122 || 48 <= c as int <= 57 || c as int == 45
  {
    if "user-" <= id { assert id == "user-" + id[5..]; }
    assert forall i :: 0 <= i < |id| ==> id[i] in id;
  }

  function PersonalID(userId: nat): string {
    "user-" + Decimal(userId)
  }

  function Personal(userId: nat): WorkspaceGrant {
    WorkspaceGrant(PersonalID(userId), "Personal workspace", OWNER)
  }

  lemma PersonalInjective(a: nat, b: nat)
    ensures PersonalID(a) == PersonalID(b) <==> a == b
  {
    DecimalInjective(a, b);
    assert PersonalID(a)[5..] == Decimal(a) && PersonalID(b)[5..] == Decimal(b);
  }

  // ---------------------------------------------------------------- the grants table

  function GrantsFor(grants: Grants, userId: nat): map<string, WorkspaceGrant> {
    if userId in grants then grants[userId] else map[]
  }

  function GrantAs(w: WorkspaceConfig, m: Member): WorkspaceGrant {
    WorkspaceGrant(w.id, w.name, m.access)
  }

  function AddMember(grants: Grants, w: WorkspaceConfig, m: Member): Grants {
    grants[m.userId := GrantsFor(grants, m.userId)[w.id := GrantAs(w, m)]]
  }

  function AddMembers(grants: Grants, w: WorkspaceConfig, n: nat): Grants
    requires n <= |w.members|
  {
    if n == 0 then grants else AddMember(AddMembers(grants, w, n - 1), w, w.members[n - 1])
  }

  function GrantsOf(config: seq<WorkspaceConfig>): Grants {
    if config == [] then map[]
    else var last := config[|config| - 1]; AddMembers(GrantsOf(config[..|config| - 1]), last, |last.members|)
  }

  function GrantIn(grants: Grants, userId: nat, workspace: string): Result<WorkspaceGrant, string> {
    if workspace == "" || workspace == PersonalID(userId) then Ok(Personal(userId))
    else if workspace in GrantsFor(grants, userId) then Ok(GrantsFor(grants, userId)[workspace])
    else Err(workspace)
  }

  /** `a.grant`: the workspace a tool may act on, given what the tool needs. */
  function Authorize(grants: Grants, userId: nat, workspace: string, write: bool,
      remove: bool): Result<WorkspaceGrant, string>
  {
    match GrantIn(grants, userId, workspace)
    case Err(e) => Err(e)
    case Ok(g) =>
      if remove && !CanDelete(g.access) then Err(g.id)
      else if write && !CanWrite(g.access) then Err(g.id)
      else Ok(g)
  }

  /** The configuration lists the user as a member of the workspace with that role. */
  ghost predicate Listed(config: seq<WorkspaceConfig>, userId: nat, g: WorkspaceGrant) {
    exists i, k :: 0 <= i < |config| && 0 <= k < |config[i].members| && Entry(config, i, k, userId, g)
  }

  ghost predicate Entry(config: seq<WorkspaceConfig>, i: nat, k: nat, userId: nat, g: WorkspaceGrant)
    requires i < |config| && k < |config[i].members|
  {
    config[i].members[k] == Member(userId, g.access) && config[i].id == g.id && config[i].name == g.name
  }

  /** Member `k` is the last of the first `n` that is this user. */
  predicate LastOf(w: WorkspaceConfig, n: nat, k: nat, userId: nat)
    requires k < n <= |w.members|
  {
    w.members[k].userId == userId && forall j :: k < j < n ==> w.members[j].userId != userId
  }

  predicate MemberIn(w: WorkspaceConfig, n: nat, userId: nat)
    requires n <= |w.members|
  {
    exists k :: 0 <= k < n && w.members[k].userId == userId
  }

  /** The grant of the last of the first `n` members that is this user. */
  predicate Latest(w: WorkspaceConfig, n: nat, userId: nat, g: WorkspaceGrant)
    requires n <= |w.members|
  {
    exists k :: 0 <= k < n && LastOf(w, n, k, userId) && g == GrantAs(w, w.members[k])
  }

  lemma LatestStep(w: WorkspaceConfig, n: nat, userId: nat, g: WorkspaceGrant)
    requires 0 < n <= |w.members|
    ensures var m := w.members[n - 1];
            if m.userId == userId then MemberIn(w, n, userId) && Latest(w, n, userId, GrantAs(w, m))
            else (MemberIn(w, n, userId) <==> MemberIn(w, n - 1, userId))
                 && (Latest(w, n - 1, userId, g) ==> Latest(w, n, userId, g))
  {
    if w.members[n - 1].userId == userId {
      assert LastOf(w, n, n - 1, userId);
    } else if Latest(w, n - 1, userId, g) {
      var k :| 0 <= k < n - 1 && LastOf(w, n - 1, k, userId) && g == GrantAs(w, w.members[k]);
      assert LastOf(w, n, k, userId);
    }
  }

  lemma AddMemberAt(grants: Grants, w: WorkspaceConfig, m: Member, userId: nat, id: string)
    ensures var before, after := GrantsFor(grants, userId), GrantsFor(AddMember(grants, w, m), userId);
            if m.userId == userId && id == w.id then id in after && after[id] == GrantAs(w, m)
            else (id in after <==> id in before) && (id in after ==> after[id] == before[id])
  {
  }

  /** What the table says after the first `n` members: the last listing counts, and other ids are as before. */
  ghost predicate TableAfter(grants: Grants, w: WorkspaceConfig, n: nat, userId: nat, id: string,
                             r: map<string, WorkspaceGrant>)
    requires n <= |w.members|
  {
    if id == w.id && MemberIn(w, n, userId) then id in r && Latest(w, n, userId, r[id])
    else (id in r <==> id in GrantsFor(grants, userId)) && (id in r ==> r[id] == GrantsFor(grants, userId)[id])
  }

  lemma TableStep(grants: Grants, w: WorkspaceConfig, n: nat, userId: nat, id: string,
                  before: map<string, WorkspaceGrant>, after: map<string, WorkspaceGrant>)
    requires 0 < n <= |w.members| && TableAfter(grants, w, n - 1, userId, id, before)
    requires var m := w.members[n - 1];
             if m.userId == userId && id == w.id then id in after && after[id] == GrantAs(w, m)
             else (id in after <==> id in before) && (id in after ==> after[id] == before[id])
    ensures TableAfter(grants, w, n, userId, id, after)
  {
    LatestStep(w, n, userId, if id in before then before[id] else GrantAs(w, w.members[n - 1]));
  }

  lemma TableGrows(grants: Grants, earlier: Grants, w: WorkspaceConfig, n: nat, userId: nat, id: string)
    requires 0 < n <= |w.members| && TableAfter(grants, w, n - 1, userId, id, GrantsFor(earlier, userId))
    ensures TableAfter(grants, w, n, userId, id, GrantsFor(AddMember(earlier, w, w.members[n - 1]), userId))
  {
    AddMemberAt(earlier, w, w.members[n - 1], userId, id);
    TableStep(grants, w, n, userId, id, GrantsFor(earlier, userId),
              GrantsFor(AddMember(earlier, w, w.members[n - 1]), userId));
  }

  lemma {:induction false} AddMembersMeaning(grants: Grants, w: WorkspaceConfig, n: nat, userId: nat, id: string)
    requires n <= |w.members|
    ensures TableAfter(grants, w, n, userId, id, GrantsFor(AddMembers(grants, w, n), userId))
  {
    if n > 0 {
      AddMembersMeaning(grants, w, n - 1, userId, id);
      TableGrows(grants, AddMembers(grants, w, n - 1), w, n, userId, id);
    }
  }

  /**
   Every entry of the table under an id is a configured membership in the workspace of that id,
   and every membership has an entry.
  */
  lemma {:induction false} GrantsOfMeaning(config: seq<WorkspaceConfig>, userId: nat, id: string)
    ensures var r := GrantsFor(GrantsOf(config), userId);
            && (id in r ==> r[id].id == id && Listed(config, userId, r[id]))
            && (id in r <==> exists g: WorkspaceGrant :: g.id == id && Listed(config, userId, g))
  {
    if config != [] {
      var init, last := config[..|config| - 1], config[|config| - 1];
      GrantsOfMeaning(init, userId, id);
      AddMembersMeaning(GrantsOf(init), last, |last.members|, userId, id);
      ListedSnoc(init, last, userId);
      assert config == init + [last];
      var r := GrantsFor(GrantsOf(config), userId);
      if id == last.id && MemberIn(last, |last.members|, userId) {
        var k :| 0 <= k < |last.members| && LastOf(last, |last.members|, k, userId)
            && r[id] == GrantAs(last, last.members[k]);
        assert Entry(config, |init|, k, userId, r[id]);
      }
    }
  }

  /** The role a configuration gives the user in a workspace: that of the last listing there. */
  ghost predicate RoleOf(config: seq<WorkspaceConfig>, userId: nat, g: WorkspaceGrant) {
    exists i, k :: 0 <= i < |config| && 0 <= k < |config[i].members| && RoleAt(config, i, k, userId, g)
  }

  ghost predicate RoleAt(config: seq<WorkspaceConfig>, i: nat, k: nat, userId: nat, g: WorkspaceGrant)
    requires i < |config| && k < |config[i].members|
  {
    Entry(config, i, k, userId, g) && forall j :: k < j < |config[i].members| ==> config[i].members[j].userId != userId
  }

  lemma {:induction false} TableHoldsRoles(config: seq<WorkspaceConfig>, userId: nat, id: string)
    ensures var r := GrantsFor(GrantsOf(config), userId); id in r ==> RoleOf(config, userId, r[id])
  {
    if config != [] {
      var init, last := config[..|config| - 1], config[|config| - 1];
      TableHoldsRoles(init, userId, id);
      AddMembersMeaning(GrantsOf(init), last, |last.members|, userId, id);
      var r := GrantsFor(GrantsOf(config), userId);
      if id == last.id && MemberIn(last, |last.members|, userId) {
        var k :| 0 <= k < |last.members| && LastOf(last, |last.members|, k, userId)
            && r[id] == GrantAs(last, last.members[k]);
        assert RoleAt(config, |init|, k, userId, r[id]);
      } else if id in r {
        var i, k :| 0 <= i < |init| && 0 <= k < |init[i].members| && RoleAt(init, i, k, userId, r[id]);
        assert config[i] == init[i];
        assert RoleAt(config, i, k, userId, r[id]);
      }
    }
  }

  lemma OneRole(config: seq<WorkspaceConfig>, userId: nat, g: WorkspaceGrant, h: WorkspaceGrant)
    requires ValidConfig(config) && RoleOf(config, userId, g) && RoleOf(config, userId, h) && g.id == h.id
    ensures g == h
  {
    var i, k :| 0 <= i < |config| && 0 <= k < |config[i].members| && RoleAt(config, i, k, userId, g);
    var i', k' :| 0 <= i' < |config| && 0 <= k' < |config[i'].members| && RoleAt(config, i', k', userId, h);
    assert i == i';
  }

  /** The table holds exactly the roles of a validated configuration. */
  lemma TableIsRoles(config: seq<WorkspaceConfig>, userId: nat, id: string, g: WorkspaceGrant)
    requires ValidConfig(config)
    ensures var r := GrantsFor(GrantsOf(config), userId);
            id in r && r[id] == g <==> g.id == id && RoleOf(config, userId, g)
  {
    var r := GrantsFor(GrantsOf(config), userId);
    GrantsOfMeaning(config, userId, id);
    TableHoldsRoles(config, userId, id);
    if g.id == id && RoleOf(config, userId, g) {
      var i, k :| 0 <= i < |config| && 0 <= k < |config[i].members| && RoleAt(config, i, k, userId, g);
      assert Entry(config, i, k, userId, g) && Listed(config, userId, g);
      OneRole(config, userId, g, r[id]);
    }
  }

  /**
   Exactly what a request is granted: the user's own workspace as its owner, or a configured one
   in the user's role there; to write takes an editor or owner, to delete an owner.
   */
  lemma AuthorizeIff(config: seq<WorkspaceConfig>, userId: nat, id: string, write: bool, remove: bool,
                     g: WorkspaceGrant)
    requires ValidConfig(config)
    ensures Authorize(GrantsOf(config), userId, id, write, remove) == Ok(g) <==>
            && (if id == "" || id == "user-" + Decimal(userId)
                then g == WorkspaceGrant("user-" + Decimal(userId), "Personal workspace", "owner")
                else g.id == id && RoleOf(config, userId, g))
            && (write ==> g.access == "editor" || g.access == "owner")
            && (remove ==> g.access == "owner")
  {
    TableIsRoles(config, userId, id, g);
  }

  /** Whoever is listed more than once in a workspace has the same role each time. */
  predicate SameRoles(w: WorkspaceConfig) {
    forall j, k :: 0 <= j < k < |w.members| && w.members[j].userId == w.members[k].userId ==>
      w.members[j] == w.members[k]
  }

  lemma {:induction false} LastListing(w: WorkspaceConfig, n: nat, k: nat) returns (j: nat)
    requires k < n <= |w.members|
    ensures k <= j < n && LastOf(w, n, j, w.members[k].userId)
  {
    if w.members[n - 1].userId == w.members[k].userId {
      j := n - 1;
    } else {
      j := LastListing(w, n - 1, k);
    }
  }

  /** A role is a listing ... */
  lemma RoleIsListed(config: seq<WorkspaceConfig>, userId: nat, g: WorkspaceGrant)
    requires RoleOf(config, userId, g)
    ensures Listed(config, userId, g)
  {
    var i, k :| 0 <= i < |config| && 0 <= k < |config[i].members| && RoleAt(config, i, k, userId, g);
    assert Entry(config, i, k, userId, g);
  }

  /** ... and every listing is a role if and only if no user is listed in a workspace with different roles. */
  lemma ListedIsRoleIff(config: seq<WorkspaceConfig>)
    requires ValidConfig(config)
    ensures (forall userId: nat, g: WorkspaceGrant :: Listed(config, userId, g) ==> RoleOf(config, userId, g))
            <==> forall i :: 0 <= i < |config| ==> SameRoles(config[i])
  {
    if forall i :: 0 <= i < |config| ==> SameRoles(config[i]) {
      forall userId: nat, g: WorkspaceGrant | Listed(config, userId, g) ensures RoleOf(config, userId, g) {
        var i, k :| 0 <= i < |config| && 0 <= k < |config[i].members| && Entry(config, i, k, userId, g);
        var j := LastListing(config[i], |config[i].members|, k);
        assert RoleAt(config, i, j, userId, g);
      }
    } else {
      var i :| 0 <= i < |config| && !SameRoles(config[i]);
      var w := config[i];
      var j, k :| 0 <= j < k < |w.members| && w.members[j].userId == w.members[k].userId
          && w.members[j] != w.members[k];
      var a, b := GrantAs(w, w.members[j]), GrantAs(w, w.members[k]);
      assert Entry(config, i, j, w.members[j].userId, a) && Entry(config, i, k, w.members[j].userId, b);
      assert Listed(config, w.members[j].userId, a) && Listed(config, w.members[j].userId, b);
      if RoleOf(config, w.members[j].userId, a) && RoleOf(config, w.members[j].userId, b) {
        OneRole(config, w.members[j].userId, a, b);
      }
    }
  }

  lemma ListedSnoc(init: seq<WorkspaceConfig>, last: WorkspaceConfig, userId: nat)
    ensures forall g: WorkspaceGrant :: Listed(init + [last], userId, g) <==>
              Listed(init, userId, g)
                  || (g.id == last.id && g.name == last.name && Member(userId, g.access) in last.members)
  {
    var config := init + [last];
    forall g: WorkspaceGrant ensures Listed(config, userId, g) <==>
              Listed(init, userId, g)
                  || (g.id == last.id && g.name == last.name && Member(userId, g.access) in last.members)
    {
      if Listed(init, userId, g) {
        var i, k :| 0 <= i < |init| && 0 <= k < |init[i].members| && Entry(init, i, k, userId, g);
        assert Entry(config, i, k, userId, g);
      }
      if g.id == last.id && g.name == last.name && Member(userId, g.access) in last.members {
        var k :| 0 <= k < |last.members| && last.members[k] == Member(userId, g.access);
        assert Entry(config, |init|, k, userId, g);
      }
      if Listed(config, userId, g) {
        var i, k :| 0 <= i < |config| && 0 <= k < |config[i].members| && Entry(config, i, k, userId, g);
        if i < |init| {
          assert Entry(init, i, k, userId, g);
        }
      }
    }
  }

  // ---------------------------------------------------------------- the manager

  /** `<` on Go strings. */
  predicate StringLess(a: string, b: string) {
    b != [] && (a == [] || a[0] < b[0] || (a[0] == b[0] && StringLess(a[1..], b[1..])))
  }

  predicate SortedById(s: seq<WorkspaceGrant>) {
    forall i, j :: 0 <= i < j < |s| ==> !StringLess(s[j].id, s[i].id)
  }

  class AccessManager {
    var grants: Grants

    /** `NewAccessManager`. */
    constructor (config: seq<WorkspaceConfig>)
      ensures grants == GrantsOf(config)
    {
      var table: Grants := map[];
      for i := 0 to |config|
        invariant table == GrantsOf(config[..i])
      {
        var workspace := config[i];
        var before := table;
        for k := 0 to |workspace.members|
          invariant table == AddMembers(before, workspace, k)
        {
          var member := workspace.members[k];
          if member.userId !in table {
            table := table[member.userId := map[]];
          }
          var grant := WorkspaceGrant(workspace.id, workspace.name, member.access);
          table := table[member.userId := table[member.userId][workspace.id := grant]];
        }
        assert config[..i + 1][..i] == config[..i];
      }
      assert config[..|config|] == config;
      grants := table;
    }

    /** `AccessManager.Grant`. */
    method Grant(userId: nat, workspace: string) returns (r: Result<WorkspaceGrant, string>)
      ensures r == GrantIn(grants, userId, workspace)
    {
      var id := if workspace == "" then PersonalID(userId) else workspace;
      if id == PersonalID(userId) {
        return Ok(WorkspaceGrant(id, "Personal workspace", OWNER));
      }
      if userId !in grants || id !in grants[userId] {
        return Err(id);
      }
      return Ok(grants[userId][id]);
    }

    /** `AccessManager.List`: the personal workspace and every grant, sorted by id. */
    method List(userId: nat) returns (result: seq<WorkspaceGrant>)
      ensures SortedById(result)
      ensures forall g :: g in result <==> g in ListSet(grants, userId)
      ensures |result| == |GrantsFor(grants, userId)| + 1
    {
      var table := GrantsFor(grants, userId);
      result := [Personal(userId)];
      var todo := table.Keys;
      while todo != {}
        invariant todo <= table.Keys && |result| == |table| - |todo| + 1
        invariant SortedById(result)
        invariant forall g :: g in result <==>
            g == Personal(userId) || exists id :: id in table && id !in todo && table[id] == g
        decreases |todo|
      {
        var id :| id in todo;
        result := InsertById(result, table[id]);
        todo := todo - {id};
      }
    }
  }

  /** What `List` returns, as a set. */
  ghost function ListSet(grants: Grants, userId: nat): set<WorkspaceGrant> {
    {Personal(userId)} + GrantsFor(grants, userId).Values
  }

  method InsertById(s: seq<WorkspaceGrant>, g: WorkspaceGrant) returns (r: seq<WorkspaceGrant>)
    requires SortedById(s)
    ensures SortedById(r) && |r| == |s| + 1
    ensures forall x :: x in r <==> x in s || x == g
  {
    var i := |s|;
    while i > 0 && StringLess(g.id, s[i - 1].id)
      invariant 0 <= i <= |s|
      invariant forall k :: i <= k < |s| ==> StringLess(g.id, s[k].id)
    {
      i := i - 1;
    }
    forall k | i <= k < |s| ensures !StringLess(s[k].id, g.id) { StringLessAsymmetric(g.id, s[k].id); }
    forall k | 0 <= k < i ensures !StringLess(g.id, s[k].id) {
      if StringLess(g.id, s[k].id) && k < i - 1 { StringLessNegTransitive(g.id, s[k].id, s[i - 1].id); }
    }
    InsertedSorted(s, g, i);
    r := s[..i] + [g] + s[i..];
  }

  /** Where everything is after an insertion at `i`. */
  lemma InsertedAt<T>(s: seq<T>, g: T, i: nat)
    requires i <= |s|
    ensures var r := s[..i] + [g] + s[i..];
            && |r| == |s| + 1
            && (forall k :: 0 <= k < |r| ==> r[k] == if k < i then s[k] else if k == i then g else s[k - 1])
            && (forall x :: x in r <==> x in s || x == g)
  {
    var r := s[..i] + [g] + s[i..];
    assert s == s[..i] + s[i..];
  }

  lemma InsertedSorted(s: seq<WorkspaceGrant>, g: WorkspaceGrant, i: nat)
    requires SortedById(s) && i <= |s|
    requires forall k :: i <= k < |s| ==> !StringLess(s[k].id, g.id)
    requires forall k :: 0 <= k < i ==> !StringLess(g.id, s[k].id)
    ensures SortedById(s[..i] + [g] + s[i..])
    ensures forall x :: x in s[..i] + [g] + s[i..] <==> x in s || x == g
  {
    InsertedAt(s, g, i);
    var r := s[..i] + [g] + s[i..];
    forall j, k | 0 <= j < k < |r| ensures !StringLess(r[k].id, r[j].id) {
      assert r[j] == if j < i then s[j] else if j == i then g else s[j - 1];
      assert r[k] == if k < i then s[k] else if k == i then g else s[k - 1];
    }
  }

  lemma {:induction false} StringLessAsymmetric(a: string, b: string)
    requires StringLess(a, b)
    ensures !StringLess(b, a)
  {
    if a != [] && a[0] == b[0] {
      StringLessAsymmetric(a[1..], b[1..]);
    }
  }

  lemma {:induction false} StringLessNegTransitive(a: string, b: string, c: string)
    requires StringLess(a, b) && !StringLess(c, b)
    ensures StringLess(a, c)
  {
    if a != [] && c != [] && a[0] == b[0] == c[0] {
      StringLessNegTransitive(a[1..], b[1..], c[1..]);
    }
  }

  /** `Grant` and `List` agree on the user for every non-empty id. */
  ghost predicate ListAgrees(grants: Grants, userId: nat) {
    forall id, g :: id != "" ==> (GrantIn(grants, userId, id) == Ok(g) <==> g in ListSet(grants, userId) && g.id == id)
  }

  /** Entries of the table carry the id they are filed under. */
  ghost predicate FiledById(grants: Grants, userId: nat) {
    forall id :: id in GrantsFor(grants, userId) ==> GrantsFor(grants, userId)[id].id == id && id != ""
  }

  /**
   They agree if and only if no assigned workspace passes for the personal one; ids are never
   empty.
   */
  lemma ListAgreesIff(grants: Grants, userId: nat)
    requires FiledById(grants, userId)
    ensures ListAgrees(grants, userId) <==>
            (PersonalID(userId) in GrantsFor(grants, userId) ==>
                GrantsFor(grants, userId)[PersonalID(userId)] == Personal(userId))
  {
    var table := GrantsFor(grants, userId);
    var mine := PersonalID(userId);
    if mine in table && table[mine] != Personal(userId) {
      assert table[mine] in table.Values;
      assert GrantIn(grants, userId, mine) != Ok(table[mine]);
    } else {
      forall id, g | id != ""
        ensures GrantIn(grants, userId, id) == Ok(g) <==> g in ListSet(grants, userId) && g.id == id
      {
        if id in table {
          assert table[id] in table.Values;
        }
        if g in table.Values {
          var k :| k in table && table[k] == g;
        }
      }
    }
  }

  /** With a validated configuration a grant is given exactly when it is listed, with the same role. */
  lemma GrantIffListed(config: seq<WorkspaceConfig>, userId: nat)
    requires ValidConfig(config)
    ensures ListAgrees(GrantsOf(config), userId)
    ensures FiledById(GrantsOf(config), userId)
    ensures forall id :: id in GrantsFor(GrantsOf(config), userId) ==> ValidWorkspaceID(id)
  {
    var table := GrantsFor(GrantsOf(config), userId);
    forall id | id in table ensures table[id].id == id && ValidWorkspaceID(id) {
      GrantsOfMeaning(config, userId, id);
      var i, k :| 0 <= i < |config| && 0 <= k < |config[i].members| && Entry(config, i, k, userId, table[id]);
    }
    ListAgreesIff(GrantsOf(config), userId);
  }
}
