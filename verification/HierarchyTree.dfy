/** The hierarchy tree of a firm: admins, their managers and users, the managers' users, and
    whoever could not be placed. */
module HierarchyTree {
  import opened Hierarchy
  import opened Options

  datatype ManagerNode = ManagerNode(manager: Member, users: seq<Member>)
  datatype AdminNode = AdminNode(admin: Member, managers: seq<ManagerNode>, users: seq<Member>)
  datatype Tree = Tree(primaryAdmin: Option<Member>, admins: seq<AdminNode>,
                       unassignedManagers: seq<ManagerNode>, unassignedUsers: seq<Member>)

  // ---------------------------------------------------------------- specification

  /** The caller if a primary admin, else the first primary admin. */
  function PrimaryOf(members: seq<Member>, caller: Id): Option<Member> {
    if exists i :: 0 <= i < |members| && members[i].role.PrimaryAdmin? && members[i].id == caller
    then FirstPrimary(members, Some(caller)) else FirstPrimary(members, None)
  }

  function FirstPrimary(members: seq<Member>, id: Option<Id>): (r: Option<Member>)
    ensures r.Some? ==> r.value in members && r.value.role.PrimaryAdmin? && (id.Some? ==> r.value.id == id.value)
    ensures r.None? ==> forall i :: 0 <= i < |members| && members[i].role.PrimaryAdmin? ==>
        id.Some? && members[i].id != id.value
  {
    if members == [] then None
    else if members[0].role.PrimaryAdmin? && (id.None? || members[0].id == id.value) then Some(members[0])
    else FirstPrimary(members[1..], id)
  }

  /** The first `n` members with a role, leaving out the tree's own primary admin. */
  function WithRole(members: seq<Member>, role: Role, primary: Id, n: nat): seq<Member>
    requires n <= |members|
  {
    if n == 0 then []
    else
      var before := WithRole(members, role, primary, n - 1);
      if members[n - 1].role == role && members[n - 1].id != primary then before + [members[n - 1]] else before
  }

  predicate HasId(s: seq<Member>, id: Option<Id>) {
    id.Some? && exists i :: 0 <= i < |s| && s[i].id == id.value
  }

  datatype Place = UnderAdmin(id: Id) | UnderManager(id: Id) | Nowhere

  /** Where a manager or user hangs: below its manager if there is one, else below its admin. */
  function PlaceOf(admins: seq<Member>, managers: seq<Member>, m: Member): Place {
    if m.role.User? && HasId(managers, m.managerId) then UnderManager(m.managerId.value)
    else if HasId(admins, m.adminId) then UnderAdmin(m.adminId.value)
    else Nowhere
  }

  /** Those of the first `n` that hang at a place. */
  function At(s: seq<Member>, admins: seq<Member>, managers: seq<Member>, place: Place, n: nat): seq<Member>
    requires n <= |s|
  {
    if n == 0 then []
    else
      var before := At(s, admins, managers, place, n - 1);
      if PlaceOf(admins, managers, s[n - 1]) == place then before + [s[n - 1]] else before
  }

  datatype Firm = Firm(admins: seq<Member>, managers: seq<Member>, users: seq<Member>)

  function Split(members: seq<Member>, primary: Id): Firm {
    Firm(WithRole(members, Admin, primary, |members|), WithRole(members, Manager, primary, |members|),
         WithRole(members, User, primary, |members|))
  }

  function UsersAt(f: Firm, place: Place): seq<Member> {
    At(f.users, f.admins, f.managers, place, |f.users|)
  }

  function ManagersAt(f: Firm, place: Place): seq<Member> {
    At(f.managers, f.admins, f.managers, place, |f.managers|)
  }

  function ManagerNodes(f: Firm, managers: seq<Member>): seq<ManagerNode> {
    if managers == [] then []
    else
      var last := managers[|managers| - 1];
      ManagerNodes(f, managers[..|managers| - 1]) + [ManagerNode(last, UsersAt(f, UnderManager(last.id)))]
  }

  /** An admin tied to another primary admin is not shown. */
  predicate Shown(admin: Member, primary: Id) {
    admin.primaryAdminId.None? || admin.primaryAdminId.value == primary
  }

  function AdminNodes(f: Firm, primary: Id, admins: seq<Member>): seq<AdminNode> {
    if admins == [] then []
    else
      var last := admins[|admins| - 1];
      var before := AdminNodes(f, primary, admins[..|admins| - 1]);
      if Shown(last, primary)
      then before + [AdminNode(last, ManagerNodes(f, ManagersAt(f, UnderAdmin(last.id))),
          UsersAt(f, UnderAdmin(last.id)))]
      else before
  }

  function TreeOf(members: seq<Member>, caller: Id): Tree {
    var primary := PrimaryOf(members, caller);
    if primary.None? then Tree(None, [], [], [])
    else
      var f := Split(members, primary.value.id);
      Tree(primary, AdminNodes(f, primary.value.id, f.admins),
           ManagerNodes(f, ManagersAt(f, Nowhere)), UsersAt(f, Nowhere))
  }

  // ---------------------------------------------------------------- the loops

  /** Each list kept in `m` holds those of the first `n` placed under its key. */
  ghost predicate Sorted(m: map<Id, seq<Member>>, keys: seq<Member>, s: seq<Member>, f: Firm, underAdmin: bool, n: nat)
    requires n <= |s|
  {
    && (forall k :: k in m <==> HasId(keys, Some(k)))
    && (forall k :: k in m ==>
        m[k] == At(s, f.admins, f.managers, if underAdmin then UnderAdmin(k) else UnderManager(k), n))
  }

  method EmptyLists(keys: seq<Member>) returns (m: map<Id, seq<Member>>)
    ensures forall k :: k in m <==> HasId(keys, Some(k))
    ensures forall k :: k in m ==> m[k] == []
  {
    m := map[];
    var i := 0;
    while i < |keys|
      invariant 0 <= i <= |keys|
      invariant forall k :: k in m <==> HasId(keys[..i], Some(k))
      invariant forall k :: k in m ==> m[k] == []
    {
      assert keys[..i + 1] == keys[..i] + [keys[i]];
      forall k ensures HasId(keys[..i + 1], Some(k)) <==> HasId(keys[..i], Some(k)) || k == keys[i].id {
        HasIdSnoc(keys[..i], keys[i], Some(k));
      }
      m := m[keys[i].id := []];
      i := i + 1;
    }
    assert keys[..i] == keys;
  }

  lemma HasIdSnoc(s: seq<Member>, m: Member, id: Option<Id>)
    ensures HasId(s + [m], id) <==> HasId(s, id) || id == Some(m.id)
  {
    if HasId(s, id) {
      var i :| 0 <= i < |s| && s[i].id == id.value;
      assert (s + [m])[i].id == id.value;
    }
    assert (s + [m])[|s|] == m;
  }

  lemma SortedKeys(m: map<Id, seq<Member>>, keys: seq<Member>, s: seq<Member>, f: Firm, underAdmin: bool, n: nat,
                   id: Option<Id>)
    requires n <= |s| && Sorted(m, keys, s, f, underAdmin, n)
    ensures (id.Some? && id.value in m) <==> HasId(keys, id)
  {
  }

  /** Taking one more member: it is added under its place, or its place is not one of these keys. */
  lemma SortedNext(m: map<Id, seq<Member>>, keys: seq<Member>, s: seq<Member>, f: Firm, underAdmin: bool, n: nat)
    requires n < |s| && Sorted(m, keys, s, f, underAdmin, n)
    ensures var place := PlaceOf(f.admins, f.managers, s[n]);
      var here := if underAdmin then place.UnderAdmin? else place.UnderManager?;
      if here then place.id in m ==> Sorted(m[place.id := m[place.id] + [s[n]]], keys, s, f, underAdmin, n + 1)
      else Sorted(m, keys, s, f, underAdmin, n + 1)
  {
  }

  /** Managers go to their admin, or are left over. */
  method PlaceManagers(f: Firm) returns (byAdmin: map<Id, seq<Member>>, loose: seq<Member>)
    requires AllRole(f.managers, Manager)
    ensures Sorted(byAdmin, f.admins, f.managers, f, true, |f.managers|)
    ensures loose == ManagersAt(f, Nowhere)
  {
    byAdmin := EmptyLists(f.admins);
    loose := [];
    assert Sorted(byAdmin, f.admins, f.managers, f, true, 0);
    hide Sorted;
    var i := 0;
    while i < |f.managers|
      invariant 0 <= i <= |f.managers|
      invariant Sorted(byAdmin, f.admins, f.managers, f, true, i)
      invariant loose == At(f.managers, f.admins, f.managers, Nowhere, i)
    {
      var manager := f.managers[i];
      SortedKeys(byAdmin, f.admins, f.managers, f, true, i, manager.adminId);
      SortedNext(byAdmin, f.admins, f.managers, f, true, i);
      if manager.adminId.Some? && manager.adminId.value in byAdmin {
        byAdmin := byAdmin[manager.adminId.value := byAdmin[manager.adminId.value] + [manager]];
      } else {
        loose := loose + [manager];
      }
      i := i + 1;
    }
  }

  /** Users go to their manager, else to their admin, or are left over. */
  method PlaceUsers(f: Firm)
    returns (byManager: map<Id, seq<Member>>, byAdmin: map<Id, seq<Member>>, loose: seq<Member>)
    requires AllRole(f.users, User)
    ensures Sorted(byManager, f.managers, f.users, f, false, |f.users|)
    ensures Sorted(byAdmin, f.admins, f.users, f, true, |f.users|)
    ensures loose == UsersAt(f, Nowhere)
  {
    byManager := EmptyLists(f.managers);
    byAdmin := EmptyLists(f.admins);
    loose := [];
    assert Sorted(byManager, f.managers, f.users, f, false, 0);
    assert Sorted(byAdmin, f.admins, f.users, f, true, 0);
    hide Sorted;
    var i := 0;
    while i < |f.users|
      invariant 0 <= i <= |f.users|
      invariant Sorted(byManager, f.managers, f.users, f, false, i)
      invariant Sorted(byAdmin, f.admins, f.users, f, true, i)
      invariant loose == At(f.users, f.admins, f.managers, Nowhere, i)
    {
      var user := f.users[i];
      SortedKeys(byManager, f.managers, f.users, f, false, i, user.managerId);
      SortedKeys(byAdmin, f.admins, f.users, f, true, i, user.adminId);
      SortedNext(byManager, f.managers, f.users, f, false, i);
      SortedNext(byAdmin, f.admins, f.users, f, true, i);
      if user.managerId.Some? && user.managerId.value in byManager {
        byManager := byManager[user.managerId.value := byManager[user.managerId.value] + [user]];
      } else if user.adminId.Some? && user.adminId.value in byAdmin {
        byAdmin := byAdmin[user.adminId.value := byAdmin[user.adminId.value] + [user]];
      } else {
        loose := loose + [user];
      }
      i := i + 1;
    }
  }

  method FindPrimary(members: seq<Member>, caller: Id) returns (primary: Option<Member>)
    ensures primary == PrimaryOf(members, caller)
  {
    primary := FirstPrimary(members, Some(caller));
    if primary.None? {
      primary := FirstPrimary(members, None);
    }
  }

  method AssembleManagers(f: Firm, managers: seq<Member>, byManager: map<Id, seq<Member>>)
    returns (nodes: seq<ManagerNode>)
    requires Sorted(byManager, f.managers, f.users, f, false, |f.users|)
    requires IdsIn(managers, f.managers)
    ensures nodes == ManagerNodes(f, managers)
  {
    nodes := [];
    var i := 0;
    while i < |managers|
      invariant 0 <= i <= |managers|
      invariant nodes == ManagerNodes(f, managers[..i])
    {
      assert managers[..i + 1][..i] == managers[..i];
      nodes := nodes + [ManagerNode(managers[i], byManager[managers[i].id])];
      i := i + 1;
    }
    assert managers[..i] == managers;
  }

  method AssembleAdmins(f: Firm, primary: Id, managersByAdmin: map<Id, seq<Member>>, usersByAdmin: map<Id, seq<Member>>,
                        usersByManager: map<Id, seq<Member>>) returns (nodes: seq<AdminNode>)
    requires Sorted(managersByAdmin, f.admins, f.managers, f, true, |f.managers|)
    requires Sorted(usersByAdmin, f.admins, f.users, f, true, |f.users|)
    requires Sorted(usersByManager, f.managers, f.users, f, false, |f.users|)
    ensures nodes == AdminNodes(f, primary, f.admins)
  {
    nodes := [];
    var i := 0;
    while i < |f.admins|
      invariant 0 <= i <= |f.admins|
      invariant nodes == AdminNodes(f, primary, f.admins[..i])
    {
      assert f.admins[..i + 1][..i] == f.admins[..i];
      var admin := f.admins[i];
      if Shown(admin, primary) {
        assert HasId(f.admins, Some(admin.id));
        PlacedAreManagers(f, UnderAdmin(admin.id), |f.managers|);
        var managers := AssembleManagers(f, managersByAdmin[admin.id], usersByManager);
        nodes := nodes + [AdminNode(admin, managers, usersByAdmin[admin.id])];
      }
      i := i + 1;
    }
    assert f.admins[..i] == f.admins;
  }

  /** getHierarchyTree. */
  method GetHierarchyTree(members: seq<Member>, caller: Id) returns (tree: Tree)
    ensures tree == TreeOf(members, caller)
  {
    var primary := FindPrimary(members, caller);
    if primary.None? {
      return Tree(None, [], [], []);
    }
    var f := Split(members, primary.value.id);
    RolesOf(members, Manager, primary.value.id, |members|);
    RolesOf(members, User, primary.value.id, |members|);
    hide Sorted;
    var managersByAdmin, looseManagers := PlaceManagers(f);
    var usersByManager, usersByAdmin, looseUsers := PlaceUsers(f);
    var admins := AssembleAdmins(f, primary.value.id, managersByAdmin, usersByAdmin, usersByManager);
    PlacedAreManagers(f, Nowhere, |f.managers|);
    var loose := AssembleManagers(f, looseManagers, usersByManager);
    tree := Tree(primary, admins, loose, looseUsers);
  }

  predicate AllRole(s: seq<Member>, role: Role) {
    forall i :: 0 <= i < |s| ==> s[i].role == role
  }

  lemma {:induction false} RolesOf(members: seq<Member>, role: Role, primary: Id, n: nat)
    requires n <= |members|
    ensures AllRole(WithRole(members, role, primary, n), role)
  {
    if n > 0 {
      RolesOf(members, role, primary, n - 1);
    }
  }

  predicate IdsIn(s: seq<Member>, keys: seq<Member>) {
    forall i :: 0 <= i < |s| ==> HasId(keys, Some(s[i].id))
  }

  lemma {:induction false} PlacedAreManagers(f: Firm, place: Place, n: nat)
    requires n <= |f.managers|
    ensures IdsIn(At(f.managers, f.admins, f.managers, place, n), f.managers)
  {
    if n > 0 {
      PlacedAreManagers(f, place, n - 1);
      assert HasId(f.managers, Some(f.managers[n - 1].id));
    }
  }

  // ---------------------------------------------------------------- counting

  function Times(s: seq<Member>, id: Id): nat {
    if s == [] then 0 else Times(s[..|s| - 1], id) + (if s[|s| - 1].id == id then 1 else 0)
  }

  /** The members below a list of managers, the managers included. */
  function FlattenManagers(nodes: seq<ManagerNode>): seq<Member> {
    if nodes == [] then []
    else
      var last := nodes[|nodes| - 1];
      FlattenManagers(nodes[..|nodes| - 1]) + [last.manager] + last.users
  }

  function FlattenAdmins(nodes: seq<AdminNode>): seq<Member> {
    if nodes == [] then []
    else
      var last := nodes[|nodes| - 1];
      FlattenAdmins(nodes[..|nodes| - 1]) + [last.admin] + FlattenManagers(last.managers) + last.users
  }

  /** Everyone the tree lists below its primary admin. */
  function Flatten(t: Tree): seq<Member> {
    FlattenAdmins(t.admins) + FlattenManagers(t.unassignedManagers) + t.unassignedUsers
  }

  lemma {:induction false} TimesAppend(a: seq<Member>, b: seq<Member>, id: Id)
    ensures Times(a + b, id) == Times(a, id) + Times(b, id)
    decreases |b|
  {
    if b == [] {
      assert a + b == a;
    } else {
      assert (a + b)[..|a + b| - 1] == a + b[..|b| - 1];
      TimesAppend(a, b[..|b| - 1], id);
    }
  }

  lemma TimesOne(a: seq<Member>, m: Member, id: Id)
    ensures Times(a + [m], id) == Times(a, id) + if m.id == id then 1 else 0
  {
    assert (a + [m])[..|a|] == a;
  }

  lemma {:induction false} TimesAbsent(s: seq<Member>, id: Id)
    requires !HasId(s, Some(id))
    ensures Times(s, id) == 0
    decreases |s|
  {
    if s != [] {
      var n := |s| - 1;
      assert s == s[..n] + [s[n]];
      HasIdSnoc(s[..n], s[n], Some(id));
      TimesAbsent(s[..n], id);
    }
  }

  lemma {:induction false} TimesUnique(s: seq<Member>, i: nat)
    requires UniqueIds(s) && i < |s|
    ensures Times(s, s[i].id) == 1
    decreases |s|
  {
    var n := |s| - 1;
    if i < n {
      TimesUnique(s[..n], i);
    } else {
      TimesAbsent(s[..n], s[n].id);
    }
  }

  /** A member is placed once where it belongs and nowhere else. */
  lemma {:induction false} TimesAt(s: seq<Member>, admins: seq<Member>, managers: seq<Member>, place: Place, n: nat,
                                   i: nat)
    requires n <= |s| && UniqueIds(s) && i < |s|
    ensures Times(At(s, admins, managers, place, n), s[i].id)
         == if i < n && PlaceOf(admins, managers, s[i]) == place then 1 else 0
  {
    hide PlaceOf, UniqueIds, HasId;
    if n > 0 {
      hide Times;
      TimesAt(s, admins, managers, place, n - 1, i);
      var before := At(s, admins, managers, place, n - 1);
      if s[n - 1].id == s[i].id {
        SameId(s, n - 1, i);
      }
      if PlaceOf(admins, managers, s[n - 1]) == place {
        assert At(s, admins, managers, place, n) == before + [s[n - 1]];
        hide At;
        TimesOne(before, s[n - 1], s[i].id);
      } else {
        assert At(s, admins, managers, place, n) == before;
        hide At;
      }
    }
  }

  lemma {:induction false} TimesAtOther(s: seq<Member>, admins: seq<Member>, managers: seq<Member>, place: Place,
                                        n: nat, id: Id)
    requires n <= |s| && !HasId(s, Some(id))
    ensures Times(At(s, admins, managers, place, n), id) == 0
  {
    if n > 0 {
      TimesAtOther(s, admins, managers, place, n - 1, id);
      assert s[n - 1].id != id;
      TimesOne(At(s, admins, managers, place, n - 1), s[n - 1], id);
    }
  }

  // ---------------------------------------------------------------- the firm's lists

  /** The lists hold each id once, and no id twice between them. */
  ghost predicate WellSplit(f: Firm) {
    && UniqueIds(f.admins) && UniqueIds(f.managers) && UniqueIds(f.users)
    && (forall i :: 0 <= i < |f.admins| ==>
        !HasId(f.managers, Some(f.admins[i].id)) && !HasId(f.users, Some(f.admins[i].id)))
    && (forall i :: 0 <= i < |f.managers| ==>
        !HasId(f.admins, Some(f.managers[i].id)) && !HasId(f.users, Some(f.managers[i].id)))
    && (forall i :: 0 <= i < |f.users| ==>
        !HasId(f.admins, Some(f.users[i].id)) && !HasId(f.managers, Some(f.users[i].id)))
    && AllRole(f.admins, Admin) && AllRole(f.managers, Manager) && AllRole(f.users, User)
  }

  /** Membership of a list: the members of that role other than the tree's primary admin. */
  lemma {:induction false} WithRoleHas(members: seq<Member>, role: Role, primary: Id, n: nat, id: Id)
    requires n <= |members|
    ensures HasId(WithRole(members, role, primary, n), Some(id))
      <==> exists i :: 0 <= i < n && members[i].id == id && members[i].role == role && id != primary
  {
    if n > 0 {
      WithRoleHas(members, role, primary, n - 1, id);
      var before := WithRole(members, role, primary, n - 1);
      HasIdSnoc(before, members[n - 1], Some(id));
    }
  }

  lemma {:induction false} WithRoleUnique(members: seq<Member>, role: Role, primary: Id, n: nat)
    requires n <= |members| && UniqueIds(members)
    ensures UniqueIds(WithRole(members, role, primary, n))
  {
    if n > 0 {
      WithRoleUnique(members, role, primary, n - 1);
      var before := WithRole(members, role, primary, n - 1);
      WithRoleHas(members, role, primary, n - 1, members[n - 1].id);
      forall i | 0 <= i < |before| ensures before[i].id != members[n - 1].id {
        if before[i].id == members[n - 1].id {
          assert HasId(before, Some(members[n - 1].id));
        }
      }
    }
  }

  /** An id in two lists would belong to two members. */
  lemma ListsDisjoint(members: seq<Member>, r1: Role, r2: Role, primary: Id, i: nat)
    requires UniqueIds(members) && r1 != r2 && i < |WithRole(members, r1, primary, |members|)|
    ensures !HasId(WithRole(members, r2, primary, |members|), Some(WithRole(members, r1, primary, |members|)[i].id))
  {
    var s := WithRole(members, r1, primary, |members|);
    assert HasId(s, Some(s[i].id));
    WithRoleHas(members, r1, primary, |members|, s[i].id);
    WithRoleHas(members, r2, primary, |members|, s[i].id);
    forall j, k | 0 <= j < |members| && 0 <= k < |members| && members[j].id == s[i].id == members[k].id ensures j == k {
      SameId(members, j, k);
    }
  }

  lemma SplitIsWell(members: seq<Member>, primary: Id)
    requires UniqueIds(members)
    ensures WellSplit(Split(members, primary))
  {
    hide WithRole, HasId, UniqueIds;
    var f := Split(members, primary);
    WithRoleUnique(members, Admin, primary, |members|);
    WithRoleUnique(members, Manager, primary, |members|);
    WithRoleUnique(members, User, primary, |members|);
    RolesOf(members, Admin, primary, |members|);
    RolesOf(members, Manager, primary, |members|);
    RolesOf(members, User, primary, |members|);
    forall i | 0 <= i < |f.admins|
      ensures !HasId(f.managers, Some(f.admins[i].id)) && !HasId(f.users, Some(f.admins[i].id))
    {
      ListsDisjoint(members, Admin, Manager, primary, i);
      ListsDisjoint(members, Admin, User, primary, i);
    }
    forall i | 0 <= i < |f.managers|
      ensures !HasId(f.admins, Some(f.managers[i].id)) && !HasId(f.users, Some(f.managers[i].id))
    {
      ListsDisjoint(members, Manager, Admin, primary, i);
      ListsDisjoint(members, Manager, User, primary, i);
    }
    forall i | 0 <= i < |f.users|
      ensures !HasId(f.admins, Some(f.users[i].id)) && !HasId(f.managers, Some(f.users[i].id))
    {
      ListsDisjoint(members, User, Admin, primary, i);
      ListsDisjoint(members, User, Manager, primary, i);
    }
  }

  // ---------------------------------------------------------------- how often the tree lists an id

  lemma FlattenOneMore(nodes: seq<ManagerNode>, node: ManagerNode, id: Id)
    ensures Times(FlattenManagers(nodes + [node]), id)
         == Times(FlattenManagers(nodes), id) + (if node.manager.id == id then 1 else 0) + Times(node.users, id)
  {
    assert (nodes + [node])[..|nodes|] == nodes;
    TimesOne(FlattenManagers(nodes), node.manager, id);
    TimesAppend(FlattenManagers(nodes) + [node.manager], node.users, id);
  }

  /** A manager counts once for each time it is in the list. */
  lemma {:induction false} ManagersListManagers(f: Firm, ms: seq<Member>, id: Id)
    requires !HasId(f.users, Some(id))
    ensures Times(FlattenManagers(ManagerNodes(f, ms)), id) == Times(ms, id)
    decreases |ms|
  {
    if ms != [] {
      var n := |ms| - 1;
      ManagersListManagers(f, ms[..n], id);
      var users := UsersAt(f, UnderManager(ms[n].id));
      TimesAtOther(f.users, f.admins, f.managers, UnderManager(ms[n].id), |f.users|, id);
      FlattenOneMore(ManagerNodes(f, ms[..n]), ManagerNode(ms[n], users), id);
    }
  }

  /** A user counts once for each time its manager is in the list. */
  lemma {:induction false} ManagersListUsers(f: Firm, ms: seq<Member>, u: nat)
    requires u < |f.users| && UniqueIds(f.users) && !HasId(ms, Some(f.users[u].id))
    ensures var place := PlaceOf(f.admins, f.managers, f.users[u]);
      Times(FlattenManagers(ManagerNodes(f, ms)), f.users[u].id)
      == if place.UnderManager? then Times(ms, place.id) else 0
    decreases |ms|
  {
    if ms != [] {
      var n := |ms| - 1;
      var id := f.users[u].id;
      assert ms == ms[..n] + [ms[n]];
      HasIdSnoc(ms[..n], ms[n], Some(id));
      ManagersListUsers(f, ms[..n], u);
      TimesAt(f.users, f.admins, f.managers, UnderManager(ms[n].id), |f.users|, u);
      FlattenOneMore(ManagerNodes(f, ms[..n]), ManagerNode(ms[n], UsersAt(f, UnderManager(ms[n].id))), id);
    }
  }

  /** How often an id is among the admins shown. */
  function TimesShown(admins: seq<Member>, primary: Id, id: Id): nat {
    if admins == [] then 0
    else
      var last := admins[|admins| - 1];
      TimesShown(admins[..|admins| - 1], primary, id) + if Shown(last, primary) && last.id == id then 1 else 0
  }

  /** How often the subtree of one admin lists an id. */
  function InSubtree(f: Firm, admin: Member, id: Id): nat {
    (if admin.id == id then 1 else 0)
    + Times(FlattenManagers(ManagerNodes(f, ManagersAt(f, UnderAdmin(admin.id)))), id)
    + Times(UsersAt(f, UnderAdmin(admin.id)), id)
  }

  /** An id that only the subtree of `chief` lists, and that lists once, is listed as often as that
      admin is shown. */
  lemma {:induction false} AdminsList(f: Firm, primary: Id, admins: seq<Member>, id: Id, chief: Option<Id>)
    requires forall i :: 0 <= i < |admins| ==>
        InSubtree(f, admins[i], id) == if chief == Some(admins[i].id) then 1 else 0
    ensures Times(FlattenAdmins(AdminNodes(f, primary, admins)), id)
         == if chief.Some? then TimesShown(admins, primary, chief.value) else 0
    decreases |admins|
  {
    if admins != [] {
      var n := |admins| - 1;
      AdminsList(f, primary, admins[..n], id, chief);
      var nodes := AdminNodes(f, primary, admins[..n]);
      assert InSubtree(f, admins[n], id) == if chief == Some(admins[n].id) then 1 else 0;
      if Shown(admins[n], primary) {
        var node := AdminNode(admins[n], ManagerNodes(f, ManagersAt(f, UnderAdmin(admins[n].id))),
            UsersAt(f, UnderAdmin(admins[n].id)));
        AdminOneMore(nodes, node, id);
        assert Times(FlattenAdmins(nodes + [node]), id)
            == Times(FlattenAdmins(nodes), id) + InSubtree(f, admins[n], id);
      }
      hide InSubtree, Times, FlattenAdmins, FlattenManagers, ManagerNodes, ManagersAt, UsersAt;
    }
  }

  lemma AdminOneMore(nodes: seq<AdminNode>, node: AdminNode, id: Id)
    ensures Times(FlattenAdmins(nodes + [node]), id)
         == Times(FlattenAdmins(nodes), id) + (if node.admin.id == id then 1 else 0)
            + Times(FlattenManagers(node.managers), id) + Times(node.users, id)
  {
    assert (nodes + [node])[..|nodes|] == nodes;
    var flat := FlattenAdmins(nodes);
    TimesOne(flat, node.admin, id);
    TimesAppend(flat + [node.admin], FlattenManagers(node.managers), id);
    TimesAppend(flat + [node.admin] + FlattenManagers(node.managers), node.users, id);
  }

  lemma {:induction false} TimesShownUnique(admins: seq<Member>, primary: Id, i: nat)
    requires UniqueIds(admins) && i < |admins|
    ensures TimesShown(admins, primary, admins[i].id) == if Shown(admins[i], primary) then 1 else 0
    decreases |admins|
  {
    var n := |admins| - 1;
    if i < n {
      TimesShownUnique(admins[..n], primary, i);
    } else {
      TimesShownAbsent(admins[..n], primary, admins[n].id);
    }
  }

  lemma {:induction false} TimesShownAbsent(admins: seq<Member>, primary: Id, id: Id)
    requires forall i :: 0 <= i < |admins| ==> admins[i].id != id
    ensures TimesShown(admins, primary, id) == 0
    decreases |admins|
  {
    if admins != [] {
      TimesShownAbsent(admins[..|admins| - 1], primary, id);
    }
  }

  /** How often the whole tree lists an id. */
  lemma FlattenTimes(members: seq<Member>, caller: Id, id: Id)
    requires PrimaryOf(members, caller).Some?
    ensures var f := Split(members, PrimaryOf(members, caller).value.id);
      Times(Flatten(TreeOf(members, caller)), id)
      == Times(FlattenAdmins(AdminNodes(f, PrimaryOf(members, caller).value.id, f.admins)), id)
         + Times(FlattenManagers(ManagerNodes(f, ManagersAt(f, Nowhere))), id)
         + Times(UsersAt(f, Nowhere), id)
  {
    var t := TreeOf(members, caller);
    TimesAppend(FlattenAdmins(t.admins), FlattenManagers(t.unassignedManagers), id);
    TimesAppend(FlattenAdmins(t.admins) + FlattenManagers(t.unassignedManagers), t.unassignedUsers, id);
  }

  /** The subtrees and the rest, for an admin. */
  lemma AdminListed(f: Firm, primary: Id, i: nat)
    requires WellSplit(f) && i < |f.admins|
    ensures Times(FlattenAdmins(AdminNodes(f, primary, f.admins)), f.admins[i].id)
         == if Shown(f.admins[i], primary) then 1 else 0
    ensures Times(FlattenManagers(ManagerNodes(f, ManagersAt(f, Nowhere))), f.admins[i].id)
        + Times(UsersAt(f, Nowhere), f.admins[i].id) == 0
  {
    var id := f.admins[i].id;
    forall j | 0 <= j < |f.admins|
      ensures InSubtree(f, f.admins[j], id) == if Some(id) == Some(f.admins[j].id) then 1 else 0
    {
      var place := UnderAdmin(f.admins[j].id);
      TimesAtOther(f.managers, f.admins, f.managers, place, |f.managers|, id);
      ManagersListManagers(f, ManagersAt(f, place), id);
      TimesAtOther(f.users, f.admins, f.managers, place, |f.users|, id);
    }
    AdminsList(f, primary, f.admins, id, Some(id));
    TimesShownUnique(f.admins, primary, i);
    TimesAtOther(f.managers, f.admins, f.managers, Nowhere, |f.managers|, id);
    ManagersListManagers(f, ManagersAt(f, Nowhere), id);
    TimesAtOther(f.users, f.admins, f.managers, Nowhere, |f.users|, id);
  }

  /** The admin above a place, if any. */
  function ChiefAt(place: Place): Option<Id> {
    if place.UnderAdmin? then Some(place.id) else None
  }

  /** ... for a manager. */
  lemma ManagerListed(f: Firm, primary: Id, i: nat)
    requires WellSplit(f) && i < |f.managers|
    ensures var chief := ChiefAt(PlaceOf(f.admins, f.managers, f.managers[i]));
      var id := f.managers[i].id;
      Times(FlattenAdmins(AdminNodes(f, primary, f.admins)), id)
        + Times(FlattenManagers(ManagerNodes(f, ManagersAt(f, Nowhere))), id) + Times(UsersAt(f, Nowhere), id)
      == if chief.Some? then TimesShown(f.admins, primary, chief.value) else 1
  {
    var id := f.managers[i].id;
    var place := PlaceOf(f.admins, f.managers, f.managers[i]);
    assert f.managers[i].role.Manager?;
    forall j | 0 <= j < |f.admins|
      ensures InSubtree(f, f.admins[j], id) == if ChiefAt(place) == Some(f.admins[j].id) then 1 else 0
    {
      assert !HasId(f.managers, Some(f.admins[j].id));
      var here := UnderAdmin(f.admins[j].id);
      TimesAt(f.managers, f.admins, f.managers, here, |f.managers|, i);
      ManagersListManagers(f, ManagersAt(f, here), id);
      TimesAtOther(f.users, f.admins, f.managers, here, |f.users|, id);
    }
    AdminsList(f, primary, f.admins, id, ChiefAt(place));
    TimesAt(f.managers, f.admins, f.managers, Nowhere, |f.managers|, i);
    ManagersListManagers(f, ManagersAt(f, Nowhere), id);
    TimesAtOther(f.users, f.admins, f.managers, Nowhere, |f.users|, id);
  }

  lemma {:induction false} AtIds(s: seq<Member>, admins: seq<Member>, managers: seq<Member>, place: Place, n: nat,
                                 id: Id)
    requires n <= |s| && !HasId(s, Some(id))
    ensures !HasId(At(s, admins, managers, place, n), Some(id))
  {
    if n > 0 {
      AtIds(s, admins, managers, place, n - 1, id);
      assert s[n - 1].id != id;
      HasIdSnoc(At(s, admins, managers, place, n - 1), s[n - 1], Some(id));
    }
  }

  /** ... for a user below manager `k`. */
  lemma ReportListed(f: Firm, primary: Id, i: nat, k: nat)
    requires WellSplit(f) && i < |f.users| && k < |f.managers|
    requires PlaceOf(f.admins, f.managers, f.users[i]) == UnderManager(f.managers[k].id)
    ensures var chief := ChiefAt(PlaceOf(f.admins, f.managers, f.managers[k]));
      var id := f.users[i].id;
      Times(FlattenAdmins(AdminNodes(f, primary, f.admins)), id)
        + Times(FlattenManagers(ManagerNodes(f, ManagersAt(f, Nowhere))), id) + Times(UsersAt(f, Nowhere), id)
      == if chief.Some? then TimesShown(f.admins, primary, chief.value) else 1
  {
    var id := f.users[i].id;
    var place := PlaceOf(f.admins, f.managers, f.managers[k]);
    assert f.managers[k].role.Manager?;
    forall j | 0 <= j < |f.admins|
      ensures InSubtree(f, f.admins[j], id) == if ChiefAt(place) == Some(f.admins[j].id) then 1 else 0
    {
      assert !HasId(f.users, Some(f.admins[j].id));
      var here := UnderAdmin(f.admins[j].id);
      AtIds(f.managers, f.admins, f.managers, here, |f.managers|, id);
      ManagersListUsers(f, ManagersAt(f, here), i);
      TimesAt(f.managers, f.admins, f.managers, here, |f.managers|, k);
      TimesAt(f.users, f.admins, f.managers, here, |f.users|, i);
    }
    AdminsList(f, primary, f.admins, id, ChiefAt(place));
    AtIds(f.managers, f.admins, f.managers, Nowhere, |f.managers|, id);
    ManagersListUsers(f, ManagersAt(f, Nowhere), i);
    TimesAt(f.managers, f.admins, f.managers, Nowhere, |f.managers|, k);
    TimesAt(f.users, f.admins, f.managers, Nowhere, |f.users|, i);
  }

  /** ... for any other user. */
  lemma UserListed(f: Firm, primary: Id, i: nat)
    requires WellSplit(f) && i < |f.users| && !PlaceOf(f.admins, f.managers, f.users[i]).UnderManager?
    ensures var chief := ChiefAt(PlaceOf(f.admins, f.managers, f.users[i]));
      var id := f.users[i].id;
      Times(FlattenAdmins(AdminNodes(f, primary, f.admins)), id)
        + Times(FlattenManagers(ManagerNodes(f, ManagersAt(f, Nowhere))), id) + Times(UsersAt(f, Nowhere), id)
      == if chief.Some? then TimesShown(f.admins, primary, chief.value) else 1
  {
    var id := f.users[i].id;
    var place := PlaceOf(f.admins, f.managers, f.users[i]);
    forall j | 0 <= j < |f.admins|
      ensures InSubtree(f, f.admins[j], id) == if ChiefAt(place) == Some(f.admins[j].id) then 1 else 0
    {
      assert !HasId(f.users, Some(f.admins[j].id));
      var here := UnderAdmin(f.admins[j].id);
      AtIds(f.managers, f.admins, f.managers, here, |f.managers|, id);
      ManagersListUsers(f, ManagersAt(f, here), i);
      TimesAt(f.users, f.admins, f.managers, here, |f.users|, i);
    }
    AdminsList(f, primary, f.admins, id, ChiefAt(place));
    AtIds(f.managers, f.admins, f.managers, Nowhere, |f.managers|, id);
    ManagersListUsers(f, ManagersAt(f, Nowhere), i);
    TimesAt(f.users, f.admins, f.managers, Nowhere, |f.users|, i);
  }

  // ---------------------------------------------------------------- everyone in place

  predicate ManagerInPlace(node: ManagerNode) {
    forall i :: 0 <= i < |node.users| ==> node.users[i].managerId == Some(node.manager.id)
  }

  predicate AdminInPlace(node: AdminNode) {
    && (forall i :: 0 <= i < |node.users| ==> node.users[i].adminId == Some(node.admin.id))
    && (forall i :: 0 <= i < |node.managers| ==>
          node.managers[i].manager.adminId == Some(node.admin.id) && ManagerInPlace(node.managers[i]))
  }

  lemma {:induction false} AtPlace(s: seq<Member>, admins: seq<Member>, managers: seq<Member>, place: Place, n: nat,
                                   i: nat)
    requires n <= |s| && i < |At(s, admins, managers, place, n)|
    ensures PlaceOf(admins, managers, At(s, admins, managers, place, n)[i]) == place
  {
    var before := At(s, admins, managers, place, n - 1);
    if i < |before| {
      AtPlace(s, admins, managers, place, n - 1, i);
      assert At(s, admins, managers, place, n)[i] == before[i];
    } else {
      assert At(s, admins, managers, place, n)[i] == s[n - 1];
    }
  }

  lemma {:induction false} ManagersInPlace(f: Firm, ms: seq<Member>)
    ensures var nodes := ManagerNodes(f, ms);
      |nodes| == |ms| && forall i :: 0 <= i < |nodes| ==> nodes[i].manager == ms[i] && ManagerInPlace(nodes[i])
    decreases |ms|
  {
    if ms != [] {
      var last := ms[|ms| - 1];
      ManagersInPlace(f, ms[..|ms| - 1]);
      var node := ManagerNode(last, UsersAt(f, UnderManager(last.id)));
      forall i | 0 <= i < |node.users| ensures node.users[i].managerId == Some(last.id) {
        AtPlace(f.users, f.admins, f.managers, UnderManager(last.id), |f.users|, i);
      }
    }
  }

  lemma {:induction false} AdminsInPlace(f: Firm, primary: Id, admins: seq<Member>)
    ensures forall i :: 0 <= i < |AdminNodes(f, primary, admins)| ==>
      var node := AdminNodes(f, primary, admins)[i]; AdminInPlace(node) && Shown(node.admin, primary)
    decreases |admins|
  {
    if admins != [] {
      var last := admins[|admins| - 1];
      AdminsInPlace(f, primary, admins[..|admins| - 1]);
      var place := UnderAdmin(last.id);
      ManagersInPlace(f, ManagersAt(f, place));
      var node := AdminNode(last, ManagerNodes(f, ManagersAt(f, place)), UsersAt(f, place));
      forall i | 0 <= i < |node.users| ensures node.users[i].adminId == Some(last.id) {
        AtPlace(f.users, f.admins, f.managers, place, |f.users|, i);
      }
      forall i | 0 <= i < |node.managers| ensures node.managers[i].manager.adminId == Some(last.id) {
        AtPlace(f.managers, f.admins, f.managers, place, |f.managers|, i);
      }
      hide UsersAt, ManagersAt, ManagerNodes, ManagerInPlace, PlaceOf;
    }
  }

  /** Whatever the references: whoever the tree shows below an admin or a manager refers to that admin
      or manager, and no admin shown is tied to another primary admin. */
  lemma TreeInPlace(members: seq<Member>, caller: Id)
    requires PrimaryOf(members, caller).Some?
    ensures var t := TreeOf(members, caller);
      && (forall i :: 0 <= i < |t.admins| ==>
            AdminInPlace(t.admins[i]) && Shown(t.admins[i].admin, PrimaryOf(members, caller).value.id))
      && (forall i :: 0 <= i < |t.unassignedManagers| ==> ManagerInPlace(t.unassignedManagers[i]))
  {
    hide PrimaryOf, ManagerNodes, AdminNodes, AdminInPlace, ManagerInPlace;
    var p := PrimaryOf(members, caller).value.id;
    var f := Split(members, p);
    AdminsInPlace(f, p, f.admins);
    ManagersInPlace(f, ManagersAt(f, Nowhere));
  }

  // ---------------------------------------------------------------- results

  /** A member the tree should list below its primary admin. */
  predicate Eligible(m: Member, primary: Id) {
    (m.role.Admin? || m.role.Manager? || m.role.User?) && m.id != primary
  }

  predicate AllShown(members: seq<Member>, primary: Id) {
    forall i :: 0 <= i < |members| && members[i].role.Admin? ==> Shown(members[i], primary)
  }

  lemma {:induction false} WithRoleIndex(members: seq<Member>, primary: Id, n: nat, j: nat) returns (i: nat)
    requires j < n <= |members| && members[j].id != primary
    ensures var s := WithRole(members, members[j].role, primary, n); i < |s| && s[i] == members[j]
  {
    if j == n - 1 {
      i := |WithRole(members, members[j].role, primary, n)| - 1;
    } else {
      i := WithRoleIndex(members, primary, n - 1, j);
    }
  }

  lemma {:induction false} WithRoleFrom(members: seq<Member>, role: Role, primary: Id, n: nat)
    requires n <= |members|
    ensures var s := WithRole(members, role, primary, n); forall m :: m in s ==> m in members
  {
    if n > 0 {
      WithRoleFrom(members, role, primary, n - 1);
    }
  }

  lemma ChiefCounts(f: Firm, primary: Id, place: Place, m: Member)
    requires WellSplit(f) && place == PlaceOf(f.admins, f.managers, m) && place.UnderAdmin?
    requires forall i :: 0 <= i < |f.admins| ==> Shown(f.admins[i], primary)
    ensures TimesShown(f.admins, primary, place.id) == 1
  {
    var i :| 0 <= i < |f.admins| && f.admins[i].id == place.id;
    TimesShownUnique(f.admins, primary, i);
  }

  /** With every admin shown, each other admin, manager and user is listed exactly once. */
  lemma ListedOnce(members: seq<Member>, caller: Id, j: nat)
    requires UniqueIds(members) && j < |members| && PrimaryOf(members, caller).Some?
    requires var p := PrimaryOf(members, caller).value.id; Eligible(members[j], p) && AllShown(members, p)
    ensures Times(Flatten(TreeOf(members, caller)), members[j].id) == 1
  {
    hide PrimaryOf, WithRole, Times, FlattenAdmins, FlattenManagers, UniqueIds;
    var p := PrimaryOf(members, caller).value.id;
    var f := Split(members, p);
    var m := members[j];
    SplitIsWell(members, p);
    WithRoleFrom(members, Admin, p, |members|);
    forall i | 0 <= i < |f.admins| ensures Shown(f.admins[i], p) {
      assert f.admins[i] in members;
    }
    FlattenTimes(members, caller, m.id);
    var i := WithRoleIndex(members, p, |members|, j);
    var place := PlaceOf(f.admins, f.managers, m);
    if m.role.Admin? {
      AdminListed(f, p, i);
    } else if m.role.Manager? {
      ManagerListed(f, p, i);
      if place.UnderAdmin? { ChiefCounts(f, p, place, m); }
    } else if place.UnderManager? {
      var k :| 0 <= k < |f.managers| && f.managers[k].id == m.managerId.value;
      ReportListed(f, p, i, k);
      var above := PlaceOf(f.admins, f.managers, f.managers[k]);
      if above.UnderAdmin? { ChiefCounts(f, p, above, f.managers[k]); }
    } else {
      UserListed(f, p, i);
      if place.UnderAdmin? { ChiefCounts(f, p, place, m); }
    }
  }

  /** The exact condition: the tree lists each other admin, manager and user exactly once if and only
      if no admin is tied to another primary admin. */
  lemma ListedOnceExactly(members: seq<Member>, caller: Id)
    requires UniqueIds(members) && PrimaryOf(members, caller).Some?
    ensures var p := PrimaryOf(members, caller).value.id;
      (forall j :: 0 <= j < |members| && Eligible(members[j], p) ==>
          Times(Flatten(TreeOf(members, caller)), members[j].id) == 1)
      <==> AllShown(members, p)
  {
    var p := PrimaryOf(members, caller).value;
    if AllShown(members, p.id) {
      forall j | 0 <= j < |members| && Eligible(members[j], p.id)
        ensures Times(Flatten(TreeOf(members, caller)), members[j].id) == 1
      {
        ListedOnce(members, caller, j);
      }
    } else {
      var j :| 0 <= j < |members| && members[j].role.Admin? && !Shown(members[j], p.id);
      PrimaryIsElsewhere(members, caller, j);
      HiddenAdmin(members, caller, j);
    }
  }

  lemma PrimaryIsElsewhere(members: seq<Member>, caller: Id, j: nat)
    requires UniqueIds(members) && PrimaryOf(members, caller).Some? && j < |members| && members[j].role.Admin?
    ensures members[j].id != PrimaryOf(members, caller).value.id
  {
    var p := PrimaryOf(members, caller).value;
    var k :| 0 <= k < |members| && members[k] == p;
  }

  lemma HiddenAdmin(members: seq<Member>, caller: Id, j: nat)
    requires UniqueIds(members) && PrimaryOf(members, caller).Some? && j < |members| && members[j].role.Admin?
    requires var p := PrimaryOf(members, caller).value.id; members[j].id != p && !Shown(members[j], p)
    ensures Times(Flatten(TreeOf(members, caller)), members[j].id) == 0
  {
    hide PrimaryOf, WithRole, Times, FlattenAdmins, FlattenManagers, HasId, UniqueIds;
    var p := PrimaryOf(members, caller).value.id;
    var f := Split(members, p);
    SplitIsWell(members, p);
    FlattenTimes(members, caller, members[j].id);
    var i := WithRoleIndex(members, p, |members|, j);
    AdminListed(f, p, i);
  }

  lemma {:induction false} AtHas(s: seq<Member>, admins: seq<Member>, managers: seq<Member>, place: Place, n: nat,
                                 i: nat)
    requires n <= |s| && UniqueIds(s) && i < |s|
    ensures HasId(At(s, admins, managers, place, n), Some(s[i].id))
        <==> i < n && PlaceOf(admins, managers, s[i]) == place
  {
    if n > 0 {
      AtHas(s, admins, managers, place, n - 1, i);
      HasIdSnoc(At(s, admins, managers, place, n - 1), s[n - 1], Some(s[i].id));
      if s[n - 1].id == s[i].id {
        SameId(s, n - 1, i);
      }
    }
  }

  function Managers(nodes: seq<ManagerNode>): seq<Member> {
    if nodes == [] then [] else Managers(nodes[..|nodes| - 1]) + [nodes[|nodes| - 1].manager]
  }

  lemma {:induction false} ManagersOfNodes(f: Firm, ms: seq<Member>)
    ensures Managers(ManagerNodes(f, ms)) == ms
    decreases |ms|
  {
    if ms != [] {
      var n := |ms| - 1;
      ManagersOfNodes(f, ms[..n]);
      var nodes := ManagerNodes(f, ms[..n]);
      var node := ManagerNode(ms[n], UsersAt(f, UnderManager(ms[n].id)));
      assert (nodes + [node])[..|nodes|] == nodes;
    }
  }

  /** A typed reference leads into the firm's lists. */
  lemma ReferencesResolve(members: seq<Member>, caller: Id, j: nat)
    requires UniqueIds(members) && Typed(members) && PrimaryOf(members, caller).Some? && j < |members|
    ensures var f := Split(members, PrimaryOf(members, caller).value.id);
      && (members[j].adminId.Some? <==> HasId(f.admins, members[j].adminId))
      && (members[j].managerId.Some? <==> HasId(f.managers, members[j].managerId))
  {
    var p := PrimaryOf(members, caller).value;
    var k :| 0 <= k < |members| && members[k] == p;
    if members[j].adminId.Some? {
      var a :| 0 <= a < |members| && members[a].id == members[j].adminId.value && members[a].role == Admin;
      PrimaryIsElsewhere(members, caller, a);
      WithRoleHas(members, Admin, p.id, |members|, members[a].id);
    }
    if members[j].managerId.Some? {
      var m :| 0 <= m < |members| && members[m].id == members[j].managerId.value && members[m].role == Manager;
      WithRoleHas(members, Manager, p.id, |members|, members[m].id);
    }
  }

  /** While references are typed, a manager is unassigned exactly when it has no admin, and a user
      exactly when it has neither a manager nor an admin. */
  lemma UnassignedExactly(members: seq<Member>, caller: Id, j: nat)
    requires UniqueIds(members) && Typed(members) && j < |members| && PrimaryOf(members, caller).Some?
    requires Eligible(members[j], PrimaryOf(members, caller).value.id)
    ensures var t := TreeOf(members, caller);
      && (members[j].role.Manager? ==>
            (HasId(Managers(t.unassignedManagers), Some(members[j].id)) <==> members[j].adminId.None?))
      && (members[j].role.User? ==>
            (HasId(t.unassignedUsers, Some(members[j].id)) <==> members[j].managerId.None? && members[j].adminId.None?))
  {
    hide PrimaryOf, WithRole, HasId, UniqueIds, Typed;
    var p := PrimaryOf(members, caller).value.id;
    var f := Split(members, p);
    SplitIsWell(members, p);
    ReferencesResolve(members, caller, j);
    ManagersOfNodes(f, ManagersAt(f, Nowhere));
    var i := WithRoleIndex(members, p, |members|, j);
    if members[j].role.Manager? {
      AtHas(f.managers, f.admins, f.managers, Nowhere, |f.managers|, i);
    } else if members[j].role.User? {
      AtHas(f.users, f.admins, f.managers, Nowhere, |f.users|, i);
    }
  }

  // ---------------------------------------------------------------- the whole tree

  /** The members that pass, in the order of the firm's list. */
  ghost function Those(members: seq<Member>, pass: Member -> bool): seq<Member> {
    if members == [] then []
    else
      var n := |members| - 1;
      Those(members[..n], pass) + if pass(members[n]) then [members[n]] else []
  }

  /** `id` is that of an ADMIN, or of a MANAGER, of the firm. */
  predicate Names(members: seq<Member>, role: Role, primary: Id, id: Option<Id>) {
    id.Some? && exists i :: 0 <= i < |members| && members[i].id == id.value != primary && members[i].role == role
  }

  ghost function ShownAdmins(primary: Id): Member -> bool {
    (m: Member) => m.role.Admin? && m.id != primary && (m.primaryAdminId == None || m.primaryAdminId == Some(primary))
  }

  ghost function ManagersOf(primary: Id, admin: Id): Member -> bool {
    (m: Member) => m.role.Manager? && m.id != primary && m.adminId == Some(admin)
  }

  ghost function LooseManagers(members: seq<Member>, primary: Id): Member -> bool {
    (m: Member) => m.role.Manager? && m.id != primary && !Names(members, Admin, primary, m.adminId)
  }

  ghost function ReportsOf(primary: Id, manager: Id): Member -> bool {
    (m: Member) => m.role.User? && m.id != primary && m.managerId == Some(manager)
  }

  ghost function UsersOf(members: seq<Member>, primary: Id, admin: Id): Member -> bool {
    (m: Member) => m.role.User? && m.id != primary && m.adminId == Some(admin)
                   && !Names(members, Manager, primary, m.managerId)
  }

  ghost function LooseUsers(members: seq<Member>, primary: Id): Member -> bool {
    (m: Member) => m.role.User? && m.id != primary && !Names(members, Manager, primary, m.managerId)
                   && !Names(members, Admin, primary, m.adminId)
  }

  /** A list of manager nodes for these managers, each with all the users that refer to it. */
  ghost predicate ManagersShown(members: seq<Member>, primary: Id, nodes: seq<ManagerNode>, managers: seq<Member>) {
    && |nodes| == |managers|
    && forall i :: 0 <= i < |nodes| ==>
        && nodes[i].manager == managers[i]
        && nodes[i].users == Those(members, ReportsOf(primary, managers[i].id))
  }

  ghost predicate AdminShown(members: seq<Member>, primary: Id, node: AdminNode) {
    && ManagersShown(members, primary, node.managers, Those(members, ManagersOf(primary, node.admin.id)))
    && node.users == Those(members, UsersOf(members, primary, node.admin.id))
  }

  ghost function Having(role: Role, primary: Id): Member -> bool {
    (m: Member) => m.role == role && m.id != primary
  }

  ghost function Placed(admins: seq<Member>, managers: seq<Member>, place: Place): Member -> bool {
    (m: Member) => PlaceOf(admins, managers, m) == place
  }

  lemma {:induction false} WithRoleIsThose(members: seq<Member>, role: Role, primary: Id, n: nat)
    requires n <= |members|
    ensures WithRole(members, role, primary, n) == Those(members[..n], Having(role, primary))
  {
    if n > 0 {
      WithRoleIsThose(members, role, primary, n - 1);
      assert members[..n][..n - 1] == members[..n - 1];
    }
  }

  lemma {:induction false} AtIsThose(s: seq<Member>, admins: seq<Member>, managers: seq<Member>, place: Place, n: nat)
    requires n <= |s|
    ensures At(s, admins, managers, place, n) == Those(s[..n], Placed(admins, managers, place))
  {
    hide PlaceOf;
    if n > 0 {
      AtIsThose(s, admins, managers, place, n - 1);
      assert s[..n][..n - 1] == s[..n - 1];
    }
  }

  /** Passing one test and then another is passing a third that asks for both. */
  lemma {:induction false} ThoseOfThose(members: seq<Member>, first: Member -> bool, second: Member -> bool,
                                        both: Member -> bool)
    requires forall m :: m in members ==> (both(m) <==> first(m) && second(m))
    ensures Those(Those(members, first), second) == Those(members, both)
    decreases |members|
  {
    if members != [] {
      var n := |members| - 1;
      ThoseOfThose(members[..n], first, second, both);
      var before := Those(members[..n], first);
      assert members[n] in members;
      assert (before + [members[n]])[..|before|] == before;
      assert before + [] == before;
    }
  }

  /** The members of one role that hang at a place, as a test on the whole firm. */
  lemma PlacedInFirm(members: seq<Member>, role: Role, primary: Id, place: Place, test: Member -> bool)
    requires var f := Split(members, primary);
      forall m :: m in members ==>
        (test(m) <==> m.role == role && m.id != primary && PlaceOf(f.admins, f.managers, m) == place)
    ensures var f := Split(members, primary);
      var s := WithRole(members, role, primary, |members|);
      At(s, f.admins, f.managers, place, |s|) == Those(members, test)
  {
    hide PlaceOf, Split;
    var f := Split(members, primary);
    var s := WithRole(members, role, primary, |members|);
    WithRoleIsThose(members, role, primary, |members|);
    assert members[..|members|] == members && s[..|s|] == s;
    AtIsThose(s, f.admins, f.managers, place, |s|);
    ThoseOfThose(members, Having(role, primary), Placed(f.admins, f.managers, place), test);
  }

  /** The firm's lists know exactly the admins and managers that the members name. */
  lemma ListsName(members: seq<Member>, primary: Id, id: Option<Id>)
    ensures var f := Split(members, primary);
      && (HasId(f.admins, id) <==> Names(members, Admin, primary, id))
      && (HasId(f.managers, id) <==> Names(members, Manager, primary, id))
      && (HasId(f.admins, id) || HasId(f.managers, id) ==> id.Some?)
  {
    if id.Some? {
      WithRoleHas(members, Admin, primary, |members|, id.value);
      WithRoleHas(members, Manager, primary, |members|, id.value);
    }
  }

  lemma ReportsExactly(members: seq<Member>, primary: Id, manager: Id)
    requires Names(members, Manager, primary, Some(manager))
    ensures UsersAt(Split(members, primary), UnderManager(manager)) == Those(members, ReportsOf(primary, manager))
  {
    hide HasId, Names, WithRole, At;
    var f := Split(members, primary);
    forall m | m in members
      ensures ReportsOf(primary, manager)(m)
        <==> m.role == User && m.id != primary && PlaceOf(f.admins, f.managers, m) == UnderManager(manager)
    {
      ListsName(members, primary, m.managerId);
    }
    PlacedInFirm(members, User, primary, UnderManager(manager), ReportsOf(primary, manager));
  }

  lemma {:induction false} ManagerNodesExactly(members: seq<Member>, primary: Id, managers: seq<Member>)
    requires forall i :: 0 <= i < |managers| ==> Names(members, Manager, primary, Some(managers[i].id))
    ensures ManagersShown(members, primary, ManagerNodes(Split(members, primary), managers), managers)
    decreases |managers|
  {
    hide Names, UsersAt, Split;
    if managers != [] {
      var n := |managers| - 1;
      ManagerNodesExactly(members, primary, managers[..n]);
      ReportsExactly(members, primary, managers[n].id);
    }
  }

  lemma ManagersAtExactly(members: seq<Member>, primary: Id, place: Place, test: Member -> bool)
    requires test == if place.UnderAdmin? then ManagersOf(primary, place.id) else LooseManagers(members, primary)
    requires place.UnderAdmin? ==> Names(members, Admin, primary, Some(place.id))
    requires !place.UnderManager?
    ensures var f := Split(members, primary);
      ManagersShown(members, primary, ManagerNodes(f, ManagersAt(f, place)), Those(members, test))
  {
    hide HasId, Names, WithRole, At, ManagerNodes, ManagersShown;
    var f := Split(members, primary);
    forall m | m in members
      ensures test(m) <==> m.role == Manager && m.id != primary && PlaceOf(f.admins, f.managers, m) == place
    {
      ListsName(members, primary, m.adminId);
    }
    PlacedInFirm(members, Manager, primary, place, test);
    var managers := ManagersAt(f, place);
    PlacedAreManagers(f, place, |f.managers|);
    forall i | 0 <= i < |managers| ensures Names(members, Manager, primary, Some(managers[i].id)) {
      ListsName(members, primary, Some(managers[i].id));
    }
    ManagerNodesExactly(members, primary, managers);
  }

  lemma UsersAtExactly(members: seq<Member>, primary: Id, place: Place)
    requires !place.UnderManager?
    requires place.UnderAdmin? ==> Names(members, Admin, primary, Some(place.id))
    ensures UsersAt(Split(members, primary), place)
        == Those(members,
                 if place.UnderAdmin? then UsersOf(members, primary, place.id) else LooseUsers(members, primary))
  {
    hide HasId, Names, WithRole, At;
    var f := Split(members, primary);
    var test := if place.UnderAdmin? then UsersOf(members, primary, place.id) else LooseUsers(members, primary);
    forall m | m in members
      ensures test(m) <==> m.role == User && m.id != primary && PlaceOf(f.admins, f.managers, m) == place
    {
      ListsName(members, primary, m.adminId);
      ListsName(members, primary, m.managerId);
    }
    PlacedInFirm(members, User, primary, place, test);
  }

  lemma {:induction false} AdminNodesExactly(members: seq<Member>, primary: Id, admins: seq<Member>)
    requires forall i :: 0 <= i < |admins| ==> Names(members, Admin, primary, Some(admins[i].id))
    requires forall m :: m in admins ==> m.role.Admin? && m.id != primary
    ensures var nodes := AdminNodes(Split(members, primary), primary, admins);
      var shown := Those(admins, ShownAdmins(primary));
      |nodes| == |shown| && forall i :: 0 <= i < |nodes| ==>
        nodes[i].admin == shown[i] && AdminShown(members, primary, nodes[i])
    decreases |admins|
  {
    hide Names, UsersAt, ManagersAt, ManagerNodes, Split, ManagersShown;
    if admins != [] {
      var n := |admins| - 1;
      AdminNodesExactly(members, primary, admins[..n]);
      assert admins[n] in admins;
      ManagersAtExactly(members, primary, UnderAdmin(admins[n].id), ManagersOf(primary, admins[n].id));
      UsersAtExactly(members, primary, UnderAdmin(admins[n].id));
    }
  }

  /** The whole tree, read off the members. Its admins are those not tied to another primary admin. A
      manager hangs below the admin it refers to, or is unassigned when that is no ADMIN of the firm. A
      user hangs below the manager it refers to; only if that is no MANAGER of the firm, below the
      admin it refers to; and is unassigned if that is no ADMIN either. Every list is complete and in
      the order of the members. */
  lemma TreeExactly(members: seq<Member>, caller: Id)
    requires PrimaryOf(members, caller).Some?
    ensures var t := TreeOf(members, caller);
      var primary := t.primaryAdmin.value.id;
      var shown := Those(members, ShownAdmins(primary));
      && |t.admins| == |shown|
      && (forall i :: 0 <= i < |shown| ==>
            t.admins[i].admin == shown[i] && AdminShown(members, primary, t.admins[i]))
      && ManagersShown(members, primary, t.unassignedManagers, Those(members, LooseManagers(members, primary)))
      && t.unassignedUsers == Those(members, LooseUsers(members, primary))
  {
    hide PrimaryOf, AdminNodes, ManagerNodes, AdminShown, ManagersShown;
    var primary := PrimaryOf(members, caller).value.id;
    var f := Split(members, primary);
    WithRoleIsThose(members, Admin, primary, |members|);
    assert members[..|members|] == members;
    RolesOf(members, Admin, primary, |members|);
    forall i | 0 <= i < |f.admins| ensures Names(members, Admin, primary, Some(f.admins[i].id)) {
      ListsName(members, primary, Some(f.admins[i].id));
      assert HasId(f.admins, Some(f.admins[i].id));
    }
    AdminNodesExactly(members, primary, f.admins);
    ThoseOfThose(members, Having(Admin, primary), ShownAdmins(primary), ShownAdmins(primary));
    ManagersAtExactly(members, primary, Nowhere, LooseManagers(members, primary));
    UsersAtExactly(members, primary, Nowhere);
  }

  /** A user whose `managerId` is that of a MANAGER of the firm is listed by that manager's node, and
      nowhere else: not directly below an admin, and not as unassigned. */
  lemma ManagersComeFirst(members: seq<Member>, caller: Id, u: Member)
    requires PrimaryOf(members, caller).Some? && u in members
    requires var primary := PrimaryOf(members, caller).value.id;
      u.role.User? && u.id != primary && Names(members, Manager, primary, u.managerId)
    ensures var t := TreeOf(members, caller);
      && (forall i, j :: 0 <= i < |t.admins| && 0 <= j < |t.admins[i].managers| ==>
            (u in t.admins[i].managers[j].users <==> t.admins[i].managers[j].manager.id == u.managerId.value))
      && (forall j :: 0 <= j < |t.unassignedManagers| ==>
            (u in t.unassignedManagers[j].users <==> t.unassignedManagers[j].manager.id == u.managerId.value))
      && (forall i :: 0 <= i < |t.admins| ==> u !in t.admins[i].users)
      && u !in t.unassignedUsers
  {
    hide PrimaryOf, ManagersShown, ManagerNodes, AdminNodes;
    TreeExactly(members, caller);
    var t := TreeOf(members, caller);
    var primary := t.primaryAdmin.value.id;
    forall i | 0 <= i < |t.admins|
      ensures u !in t.admins[i].users
      ensures forall j :: 0 <= j < |t.admins[i].managers| ==>
        (u in t.admins[i].managers[j].users <==> t.admins[i].managers[j].manager.id == u.managerId.value)
    {
      ThoseHas(members, UsersOf(members, primary, t.admins[i].admin.id), u);
      ListedByManager(members, primary, t.admins[i].managers,
          Those(members, ManagersOf(primary, t.admins[i].admin.id)), u);
    }
    ListedByManager(members, primary, t.unassignedManagers, Those(members, LooseManagers(members, primary)), u);
    ThoseHas(members, LooseUsers(members, primary), u);
  }

  lemma ListedByManager(members: seq<Member>, primary: Id, nodes: seq<ManagerNode>, managers: seq<Member>, u: Member)
    requires ManagersShown(members, primary, nodes, managers)
    requires u in members && u.role.User? && u.id != primary && u.managerId.Some?
    ensures forall j :: 0 <= j < |nodes| ==> (u in nodes[j].users <==> nodes[j].manager.id == u.managerId.value)
  {
    forall j | 0 <= j < |nodes| ensures u in nodes[j].users <==> nodes[j].manager.id == u.managerId.value {
      ThoseHas(members, ReportsOf(primary, managers[j].id), u);
    }
  }

  lemma {:induction false} ThoseHas(members: seq<Member>, pass: Member -> bool, m: Member)
    ensures m in Those(members, pass) <==> m in members && pass(m)
    decreases |members|
  {
    if members != [] {
      var n := |members| - 1;
      ThoseHas(members[..n], pass, m);
      assert members == members[..n] + [members[n]];
    }
  }

  predicate IsPrimary(members: seq<Member>, caller: Id) {
    exists i :: 0 <= i < |members| && members[i].role.PrimaryAdmin? && members[i].id == caller
  }

  /** Whose tree it is: the caller's, if a primary admin; else the first primary admin's; and without
      a primary admin it is empty. */
  lemma WhoIsOnTop(members: seq<Member>, caller: Id)
    ensures var t := TreeOf(members, caller);
      && (t.primaryAdmin.None? <==> forall i :: 0 <= i < |members| ==> !members[i].role.PrimaryAdmin?)
      && (t.primaryAdmin.None? ==> t == Tree(None, [], [], []))
      && (t.primaryAdmin.Some? ==>
            exists i :: 0 <= i < |members| && t.primaryAdmin == Some(members[i]) && members[i].role.PrimaryAdmin?
              && (IsPrimary(members, caller) ==> members[i].id == caller)
              && (!IsPrimary(members, caller) ==> forall k :: 0 <= k < i ==> !members[k].role.PrimaryAdmin?))
  {
    FirstPrimaryAt(members, Some(caller));
    FirstPrimaryAt(members, None);
    hide AdminNodes, ManagerNodes;
  }

  lemma {:induction false} FirstPrimaryAt(members: seq<Member>, id: Option<Id>)
    ensures FirstPrimary(members, id).Some? ==>
      exists i :: 0 <= i < |members| && FirstPrimary(members, id).value == members[i]
        && (id.None? ==> forall k :: 0 <= k < i ==> !members[k].role.PrimaryAdmin?)
  {
    if members != [] && FirstPrimary(members, id).Some? && FirstPrimary(members, id) == FirstPrimary(members[1..], id) {
      FirstPrimaryAt(members[1..], id);
      var i :| 0 <= i < |members[1..]| && FirstPrimary(members, id).value == members[1..][i]
        && (id.None? ==> forall k :: 0 <= k < i ==> !members[1..][k].role.PrimaryAdmin?);
      if members[0].role.PrimaryAdmin? && (id.None? || members[0].id == id.value) {
        assert FirstPrimary(members, id).value == members[0];
      } else {
        assert FirstPrimary(members, id).value == members[i + 1];
        forall k | 0 <= k < i + 1 && id.None? ensures !members[k].role.PrimaryAdmin? {
          assert k > 0 ==> members[k] == members[1..][k - 1];
        }
      }
    }
  }
}
