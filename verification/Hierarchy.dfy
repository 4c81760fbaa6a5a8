/** The firm hierarchy: updating a member's references, and the tree built from them. Members are the
    firm's users that are not deleted, in the order the database returns them. */
module Hierarchy {
  import opened Options

  type Id = nat

  datatype Role = PrimaryAdmin | Admin | Manager | User | OtherRole

  datatype Member = Member(id: Id, role: Role, primaryAdminId: Option<Id>, adminId: Option<Id>,
                           managerId: Option<Id>, reportsToUserId: Option<Id>)

  predicate UniqueIds(s: seq<Member>) {
    forall i, j :: 0 <= i < j < |s| ==> s[i].id != s[j].id
  }

  lemma SameId(s: seq<Member>, i: nat, j: nat)
    requires UniqueIds(s) && i < |s| && j < |s| && s[i].id == s[j].id
    ensures i == j
  {
    assert !(i < j) && !(j < i);
  }

  predicate HasRole(s: seq<Member>, id: Id, role: Role) {
    exists i :: 0 <= i < |s| && s[i].id == id && s[i].role == role
  }

  // ---------------------------------------------------------------- updating references

  /** A field of the request body: absent, or set to an id or to null. */
  datatype Field = Absent | Given(value: Option<Id>)

  datatype Reply = Updated | NotPrimaryAdmin | NotFound | BadTags | BadAdmin | BadManager | ManagerOfAnotherAdmin
                 | SaveRefused

  function Requested(f: Field, current: Option<Id>): Option<Id> {
    if f.Absent? then current else f.value
  }

  /** getTagValidationError: which references a role may carry. */
  predicate TagsAllowed(role: Role, adminId: Option<Id>, managerId: Option<Id>) {
    && (role.PrimaryAdmin? || role.Admin? ==> adminId.None? && managerId.None?)
    && (role.Manager? ==> managerId.None?)
  }

  predicate ManagerOf(s: seq<Member>, managerId: Id, adminId: Option<Id>) {
    exists i :: 0 <= i < |s| && s[i].id == managerId && s[i].adminId == adminId
  }

  function Decide(s: seq<Member>, target: Member, adminId: Option<Id>, managerId: Option<Id>): Reply {
    if !TagsAllowed(target.role, adminId, managerId) then BadTags
    else if adminId.Some? && !HasRole(s, adminId.value, Admin) then BadAdmin
    else if managerId.Some? && !HasRole(s, managerId.value, Manager) then BadManager
    else if managerId.Some? && adminId.Some? && !ManagerOf(s, managerId.value, adminId) then ManagerOfAnotherAdmin
    else Updated
  }

  /** The target's references once the request is granted. */
  function Relink(target: Member, adminId: Option<Id>, managerId: Option<Id>): Member {
    match target.role
    case PrimaryAdmin => target.(adminId := None, managerId := None, reportsToUserId := None)
    case Admin => target.(adminId := None, managerId := None, reportsToUserId := None)
    case Manager => target.(adminId := adminId, managerId := None, reportsToUserId := None)
    case _ => target.(adminId := adminId, managerId := managerId, reportsToUserId := managerId)
  }

  /** The members of a firm, as one request updates them. */
  class Directory {
    var members: seq<Member>

    constructor (members: seq<Member>)
      ensures this.members == members
    {
      this.members := members;
    }

    /** updateUserHierarchy. `at` is the member the lookup found; `saved` says whether the document's
        own validation lets the save through. */
    method UpdateUserHierarchy(callerIsPrimaryAdmin: bool, at: Option<nat>, admin: Field, manager: Field, saved: bool)
      returns (reply: Reply)
      requires at.Some? ==> at.value < |members|
      modifies this
      ensures callerIsPrimaryAdmin && at.Some? ==>
        var target := old(members)[at.value];
        var a, m := Requested(admin, target.adminId), Requested(manager, target.managerId);
        var decision := Decide(old(members), target, a, m);
        && reply == (if decision.Updated? && !saved then SaveRefused else decision)
        && members == if reply.Updated? then old(members)[at.value := Relink(target, a, m)] else old(members)
      ensures !callerIsPrimaryAdmin ==> reply == NotPrimaryAdmin
      ensures callerIsPrimaryAdmin && at.None? ==> reply == NotFound
      ensures !callerIsPrimaryAdmin || at.None? ==> members == old(members)
    {
      if !callerIsPrimaryAdmin { return NotPrimaryAdmin; }
      if at.None? { return NotFound; }
      var target := members[at.value];
      var role := target.role;
      var adminId := if admin.Absent? then target.adminId else admin.value;
      var managerId := if manager.Absent? then target.managerId else manager.value;
      if (role.PrimaryAdmin? || role.Admin?) && (adminId.Some? || managerId.Some?) { return BadTags; }
      if role.Manager? && managerId.Some? { return BadTags; }
      if adminId.Some? && !HasRole(members, adminId.value, Admin) { return BadAdmin; }
      if managerId.Some? {
        if !HasRole(members, managerId.value, Manager) { return BadManager; }
        if adminId.Some? && !ManagerOf(members, managerId.value, adminId) { return ManagerOfAnotherAdmin; }
      }
      match role {
        case PrimaryAdmin => target := target.(adminId := None, managerId := None, reportsToUserId := None);
        case Admin => target := target.(adminId := None, managerId := None, reportsToUserId := None);
        case Manager => target := target.(adminId := adminId, managerId := None, reportsToUserId := None);
        case _ => target := target.(adminId := adminId, managerId := managerId, reportsToUserId := managerId);
      }
      if !saved { return SaveRefused; }
      members := members[at.value := target];
      reply := Updated;
    }
  }

  /** What a request is told, read off the members: the references asked for, a field left out
      standing for the present one, must suit the target's role; must name an ADMIN and a MANAGER; and
      a manager must answer to the admin asked for with it. */
  lemma UpdateIsTold(s: seq<Member>, at: nat, admin: Field, manager: Field)
    requires at < |s| && UniqueIds(s)
    ensures var target := s[at];
      var a := if admin.Given? then admin.value else target.adminId;
      var m := if manager.Given? then manager.value else target.managerId;
      var reply := Decide(s, target, Requested(admin, target.adminId), Requested(manager, target.managerId));
      var fits := (target.role.PrimaryAdmin? || target.role.Admin? ==> a == None)
                  && (target.role.PrimaryAdmin? || target.role.Admin? || target.role.Manager? ==> m == None);
      var adminKnown := a.Some? ==> exists i :: 0 <= i < |s| && s[i].id == a.value && s[i].role == Admin;
      var managerKnown := m.Some? ==> exists i :: 0 <= i < |s| && s[i].id == m.value && s[i].role == Manager;
      var sameChain := a.Some? && m.Some? ==>
          forall i :: 0 <= i < |s| && s[i].id == m.value ==> s[i].adminId == a;
      && (reply == BadTags <==> !fits)
      && (reply == BadAdmin <==> fits && !adminKnown)
      && (reply == BadManager <==> fits && adminKnown && !managerKnown)
      && (reply == ManagerOfAnotherAdmin <==> fits && adminKnown && managerKnown && !sameChain)
      && (reply == Updated <==> fits && adminKnown && managerKnown && sameChain)
  {
    var m := Requested(manager, s[at].managerId);
    if m.Some? && HasRole(s, m.value, Manager) {
      var k :| 0 <= k < |s| && s[k].id == m.value && s[k].role == Manager;
      forall i | 0 <= i < |s| && s[i].id == m.value ensures i == k {
        SameId(s, i, k);
      }
    }
  }

  /** A granted request stores exactly the references asked for; reports go to the manager, and
      nobody above or beside a manager reports to anyone. Nothing else of the member changes. */
  lemma UpdateStores(s: seq<Member>, at: nat, admin: Field, manager: Field)
    requires at < |s|
    requires Decide(s, s[at], Requested(admin, s[at].adminId), Requested(manager, s[at].managerId)).Updated?
    ensures var target := s[at];
      var now := Relink(target, Requested(admin, target.adminId), Requested(manager, target.managerId));
      && now.adminId == (if admin.Given? then admin.value else target.adminId)
      && now.managerId == (if manager.Given? then manager.value else target.managerId)
      && now.reportsToUserId == now.managerId
      && now.id == target.id && now.role == target.role && now.primaryAdminId == target.primaryAdminId
  {
  }

  /** Every reference names a member of the right role. */
  ghost predicate Typed(s: seq<Member>) {
    forall i :: 0 <= i < |s| ==>
      && (s[i].adminId.Some? ==> HasRole(s, s[i].adminId.value, Admin))
      && (s[i].managerId.Some? ==> HasRole(s, s[i].managerId.value, Manager))
  }

  /** A granted update changes no role, so references stay typed. */
  lemma UpdateKeepsTyped(s: seq<Member>, at: nat, adminId: Option<Id>, managerId: Option<Id>)
    requires at < |s| && Typed(s) && Decide(s, s[at], adminId, managerId).Updated?
    ensures Typed(s[at := Relink(s[at], adminId, managerId)])
  {
    var s' := s[at := Relink(s[at], adminId, managerId)];
    forall id, role | HasRole(s, id, role) ensures HasRole(s', id, role) {
      var i :| 0 <= i < |s| && s[i].id == id && s[i].role == role;
      assert s'[i].id == id && s'[i].role == role;
    }
  }

  /** A member with both references has an admin who is also its manager's. */
  ghost predicate Coherent(s: seq<Member>) {
    forall i, j | 0 <= i < |s| && 0 <= j < |s| ::
      s[i].adminId.Some? && s[i].managerId == Some(s[j].id) ==> s[j].adminId == s[i].adminId
  }

  /** Some other member answers to the manager at `at` under an admin other than `adminId`. */
  ghost predicate LeavesBehind(s: seq<Member>, at: nat, adminId: Option<Id>)
    requires at < |s|
  {
    exists i :: 0 <= i < |s| && i != at && s[i].managerId == Some(s[at].id) && s[i].adminId.Some?
        && s[i].adminId != adminId
  }

  /** The update checks the target against its manager but not a manager's own reports: chains stay
      coherent exactly when the target is not a manager moved away from reports of its own. */
  lemma UpdateCoherent(s: seq<Member>, at: nat, adminId: Option<Id>, managerId: Option<Id>)
    requires at < |s| && UniqueIds(s) && Typed(s) && Coherent(s) && Decide(s, s[at], adminId, managerId).Updated?
    ensures Coherent(s[at := Relink(s[at], adminId, managerId)])
      <==> !(s[at].role.Manager? && LeavesBehind(s, at, adminId))
  {
    var t := Relink(s[at], adminId, managerId);
    var s' := s[at := t];
    if s[at].role.Manager? && LeavesBehind(s, at, adminId) {
      var i :| 0 <= i < |s| && i != at && s[i].managerId == Some(s[at].id) && s[i].adminId.Some?
          && s[i].adminId != adminId;
      assert s'[i].managerId == Some(s'[at].id) && s'[at].adminId != s'[i].adminId;
    } else {
      forall i, j | 0 <= i < |s| && 0 <= j < |s| && s'[i].adminId.Some? && s'[i].managerId == Some(s'[j].id)
        ensures s'[j].adminId == s'[i].adminId
      {
        if i == at {
          NewReportCoherent(s, at, adminId, managerId, j);
        } else if j == at {
          OnlyManagersManage(s, i, at);
        } else {
          assert s[j].adminId == s[i].adminId;
        }
      }
    }
  }

  lemma OnlyManagersManage(s: seq<Member>, i: nat, j: nat)
    requires UniqueIds(s) && Typed(s) && i < |s| && j < |s| && s[i].managerId == Some(s[j].id)
    ensures s[j].role.Manager?
  {
    var k :| 0 <= k < |s| && s[k].id == s[j].id && s[k].role == Manager;
    SameId(s, j, k);
  }

  lemma NewReportCoherent(s: seq<Member>, at: nat, adminId: Option<Id>, managerId: Option<Id>, j: nat)
    requires at < |s| && j < |s| && UniqueIds(s) && Decide(s, s[at], adminId, managerId).Updated?
    requires var t := Relink(s[at], adminId, managerId); t.adminId.Some? && t.managerId == Some(s[j].id)
    ensures s[at := Relink(s[at], adminId, managerId)][j].adminId == adminId
        == Relink(s[at], adminId, managerId).adminId
  {
    var k :| 0 <= k < |s| && s[k].id == managerId.value && s[k].role == Manager;
    SameId(s, j, k);
    var l :| 0 <= l < |s| && s[l].id == managerId.value && s[l].adminId == adminId;
    SameId(s, j, l);
  }

  const SMALL_FIRM: seq<Member> :=
    [Member(1, Admin, Some(0), None, None, None), Member(2, Admin, Some(0), None, None, None),
     Member(3, Manager, Some(0), Some(1), None, None), Member(4, User, Some(0), Some(1), Some(3), Some(3))]

  lemma SmallFirm()
    ensures UniqueIds(SMALL_FIRM) && Typed(SMALL_FIRM) && Coherent(SMALL_FIRM)
    ensures Decide(SMALL_FIRM, SMALL_FIRM[2], Some(2), None).Updated?
  {
    var s := SMALL_FIRM;
    assert HasRole(s, 1, Admin) by { assert s[0].id == 1; }
    assert HasRole(s, 2, Admin) by { assert s[1].id == 2; }
    assert HasRole(s, 3, Manager) by { assert s[2].id == 3; }
    hide HasRole;
  }

  /** Moving a manager leaves its report pointing at the old admin. */
  lemma MovingAManagerBreaksChains()
    ensures Decide(SMALL_FIRM, SMALL_FIRM[2], Some(2), None).Updated?
    ensures Typed(SMALL_FIRM) && Coherent(SMALL_FIRM)
        && !Coherent(SMALL_FIRM[2 := Relink(SMALL_FIRM[2], Some(2), None)])
  {
    SmallFirm();
    hide Typed, Coherent, UniqueIds, Decide;
    var s := SMALL_FIRM;
    assert LeavesBehind(s, 2, Some(2)) by { assert s[3].managerId == Some(s[2].id); }
    UpdateCoherent(s, 2, Some(2), None);
  }
}
