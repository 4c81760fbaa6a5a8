/** The backfill of primary admins: for each firm, over its live users in order of creation, one
    user is made the primary admin and everybody else is tied to that user. */
module PrimaryAdminBackfill {
  import opened Options

  type Id = nat

  /** Roles after normalisation. */
  datatype Role = PrimaryAdmin | Admin | Manager | Staff | OtherRole

  datatype User = User(id: Id, role: Role, isPrimaryAdmin: bool, primaryAdminId: Option<Id>,
                       adminId: Option<Id>, managerId: Option<Id>, reportsToUserId: Option<Id>)

  predicate UniqueIds(users: seq<User>) {
    forall i, j :: 0 <= i < j < |users| ==> users[i].id != users[j].id
  }

  // ---------------------------------------------------------------- specification

  /** The first user who is a primary admin from position `from` on, or the end. */
  function FirstPrimary(users: seq<User>, from: nat): (i: nat)
    requires from <= |users|
    ensures from <= i <= |users|
    ensures i < |users| ==> users[i].role.PrimaryAdmin?
    ensures forall j :: from <= j < i ==> !users[j].role.PrimaryAdmin?
    decreases |users| - from
  {
    if from == |users| || users[from].role.PrimaryAdmin? then from else FirstPrimary(users, from + 1)
  }

  /** The user chosen: the first primary admin, else the oldest user. */
  function Chosen(users: seq<User>): (i: nat)
    requires users != []
    ensures i < |users|
  {
    var i := FirstPrimary(users, 0);
    if i < |users| then i else 0
  }

  function Crown(u: User): User {
    User(u.id, PrimaryAdmin, true, None, None, None, None)
  }

  /** Everybody else: the tags a role must not carry are cleared by the role the user had before. */
  function Subject(u: User, primary: Id): User {
    var clear := u.role.Admin?;
    var reports := u.role.Admin? || u.role.Manager?;
    User(u.id, if u.role.PrimaryAdmin? then Admin else u.role, false, Some(primary),
         if clear then None else u.adminId, if reports then None else u.managerId,
         if reports then None else u.reportsToUserId)
  }

  function Backfill(users: seq<User>): (r: seq<User>)
    ensures |r| == |users|
    ensures users != [] ==> forall i :: 0 <= i < |users| ==>
      r[i] == if i == Chosen(users) then Crown(users[i]) else Subject(users[i], users[Chosen(users)].id)
  {
    seq(|users|, i requires 0 <= i < |users| =>
      if i == Chosen(users) then Crown(users[i]) else Subject(users[i], users[Chosen(users)].id))
  }

  /** The per-firm body of run: the chosen user is written first, then each of the others. */
  method BackfillFirm(users: array<User>)
    requires UniqueIds(users[..])
    modifies users
    ensures users[..] == Backfill(old(users[..]))
  {
    if users.Length == 0 { return; }
    ghost var was := users[..];
    var current := 0;
    while current < users.Length && !users[current].role.PrimaryAdmin?
      invariant 0 <= current <= users.Length
      invariant FirstPrimary(was, 0) == FirstPrimary(was, current)
    {
      current := current + 1;
    }
    if current == users.Length {
      current := 0;
    }
    assert current == Chosen(was);
    var primary := users[current].id;
    users[current] := Crown(users[current]);
    var i := 0;
    while i < users.Length
      invariant 0 <= i <= users.Length
      invariant users[current] == Crown(was[current]) && primary == was[current].id
      invariant forall j :: 0 <= j < i && j != current ==> users[j] == Subject(was[j], primary)
      invariant forall j :: i <= j < users.Length && j != current ==> users[j] == was[j]
    {
      var user := users[i];
      if user.id != primary {
        var update := user.(primaryAdminId := Some(primary), isPrimaryAdmin := false);
        if user.role.PrimaryAdmin? {
          update := update.(role := Admin);
        }
        if user.role.Admin? {
          update := update.(adminId := None, managerId := None, reportsToUserId := None);
        } else if user.role.Manager? {
          update := update.(managerId := None, reportsToUserId := None);
        }
        users[i] := update;
      } else {
        assert !(i < current) && !(current < i);
      }
      i := i + 1;
    }
  }

  // ---------------------------------------------------------------- after one run

  lemma {:induction false} FirstPrimaryIs(users: seq<User>, from: nat, p: nat)
    requires from <= p < |users| && users[p].role.PrimaryAdmin?
    requires forall j :: from <= j < p ==> !users[j].role.PrimaryAdmin?
    ensures FirstPrimary(users, from) == p
    decreases p - from
  {
    if from < p {
      FirstPrimaryIs(users, from + 1, p);
    }
  }

  /** One run leaves exactly one primary admin, ties everybody else to that user, and later runs
      choose the same one. */
  lemma OneRun(users: seq<User>)
    requires users != []
    ensures var after := Backfill(users);
      var p := Chosen(users);
      && after[p].role.PrimaryAdmin? && after[p].isPrimaryAdmin && after[p].primaryAdminId.None?
      && (forall i :: 0 <= i < |after| && i != p ==>
            !after[i].role.PrimaryAdmin? && !after[i].isPrimaryAdmin && after[i].primaryAdminId == Some(after[p].id))
      && Chosen(after) == p && after[p].id == users[p].id
  {
    FirstPrimaryIs(Backfill(users), 0, Chosen(users));
  }

  /** Who that is: the oldest primary admin, or the oldest user when there is none. */
  lemma WhoIsCrowned(users: seq<User>, p: nat)
    requires p < |users| && Backfill(users)[p].role.PrimaryAdmin?
    ensures forall i :: 0 <= i < p ==> !users[i].role.PrimaryAdmin?
    ensures users[p].role.PrimaryAdmin? || (p == 0 && forall i :: 0 <= i < |users| ==> !users[i].role.PrimaryAdmin?)
  {
    OneRun(users);
  }

  // ---------------------------------------------------------------- the fixpoint

  /** The tags a role may carry, everybody tied to the one primary admin. */
  predicate SettledUser(u: User, isChosen: bool, primary: Id) {
    if isChosen then u == Crown(u)
    else
      && !u.role.PrimaryAdmin? && !u.isPrimaryAdmin && u.primaryAdminId == Some(primary)
      && (u.role.Admin? ==> u.adminId.None?)
      && (u.role.Admin? || u.role.Manager? ==> u.managerId.None? && u.reportsToUserId.None?)
  }

  predicate Settled(users: seq<User>) {
    users != [] ==> forall i :: 0 <= i < |users| ==> SettledUser(users[i], i == Chosen(users), users[Chosen(users)].id)
  }

  /** The backfill leaves a firm alone exactly when it is settled. */
  lemma FixpointIsSettled(users: seq<User>)
    ensures Backfill(users) == users <==> Settled(users)
  {
    if users != [] {
      forall i | 0 <= i < |users|
        ensures Backfill(users)[i] == users[i] <==> SettledUser(users[i], i == Chosen(users), users[Chosen(users)].id)
      {
      }
    }
  }

  /** A user about to be demoted who still carries tags an admin must not have. */
  predicate Lingers(users: seq<User>, i: nat)
    requires i < |users|
  {
    i != Chosen(users) && users[i].role.PrimaryAdmin?
    && (users[i].adminId.Some? || users[i].managerId.Some? || users[i].reportsToUserId.Some?)
  }

  /** One run settles a firm if and only if it demotes nobody who still carries such tags. */
  lemma OneRunSettles(users: seq<User>)
    ensures Backfill(Backfill(users)) == Backfill(users) <==> forall i :: 0 <= i < |users| ==> !Lingers(users, i)
  {
    FixpointIsSettled(Backfill(users));
    if users != [] {
      OneRun(users);
      var after := Backfill(users);
      forall i | 0 <= i < |users|
        ensures SettledUser(after[i], i == Chosen(after), after[Chosen(after)].id) <==> !Lingers(users, i)
      {
      }
    }
  }

  function Runs(users: seq<User>, n: nat): seq<User> {
    if n == 0 then users else Backfill(Runs(users, n - 1))
  }

  lemma TwoRunsSettle(users: seq<User>)
    ensures Backfill(Backfill(Backfill(users))) == Backfill(Backfill(users))
  {
    var after := Backfill(users);
    if users != [] {
      OneRun(users);
    }
    OneRunSettles(after);
  }

  /** The fixpoint arrives with the second run: every later run changes nothing. */
  lemma {:induction false} SecondRunIsTheLast(users: seq<User>, n: nat)
    requires n >= 2
    ensures Runs(users, n) == Runs(users, 2) && Settled(Runs(users, n))
  {
    TwoRunsSettle(users);
    assert Runs(users, 1) == Backfill(Runs(users, 0)) == Backfill(users);
    assert Runs(users, 2) == Backfill(Runs(users, 1));
    if n > 2 {
      SecondRunIsTheLast(users, n - 1);
    }
    FixpointIsSettled(Runs(users, 2));
  }

  /** The second run can matter: the demoted user keeps its manager through the first. */
  lemma FirstRunMayNotSettle()
    ensures var users := [User(1, PrimaryAdmin, true, None, None, None, None),
                          User(2, PrimaryAdmin, true, None, None, Some(7), Some(7))];
      Runs(users, 2) != Runs(users, 1)
  {
    var users := [User(1, PrimaryAdmin, true, None, None, None, None),
                  User(2, PrimaryAdmin, true, None, None, Some(7), Some(7))];
    assert FirstPrimary(users, 0) == 0;
    assert Lingers(users, 1);
    OneRunSettles(users);
    assert Runs(users, 0) == users;
  }
}
