/** The integrity checks run after the migration, and what the migration establishes of them. */
module FirmIntegrity {
  import opened FirmMigration
  import opened Options

  // ---------------------------------------------------------------- the checks

  /** Check 1: every firm has a default client. */
  predicate FirmsHaveDefault(db: Db) {
    forall i :: 0 <= i < |db.firms| ==> db.firms[i].defaultClientId.Some?
  }

  /** Check 2: every admin has one. */
  predicate AdminsHaveDefault(db: Db) {
    forall k :: 0 <= k < |db.admins| ==> db.admins[k].defaultClientId.Some?
  }

  /** Check 3, for one admin: linked to a firm with a default, and equal to it. */
  predicate Matches(db: Db, admin: Admin) {
    var index := FirmIndex(db.firms, admin.firmId, |db.firms|);
    index.Some? && db.firms[index.value].defaultClientId.Some?
        && admin.defaultClientId == db.firms[index.value].defaultClientId
  }

  predicate AdminsMatch(db: Db) {
    forall k :: 0 <= k < |db.admins| ==> Matches(db, db.admins[k])
  }

  /** Check 4: a completed firm has a default client. */
  predicate CompletedHaveDefault(db: Db) {
    forall i :: 0 <= i < |db.firms| && db.firms[i].bootstrap.Completed? ==> db.firms[i].defaultClientId.Some?
  }

  /** Check 5: each firm has exactly one internal client. */
  predicate OneInternalEach(db: Db) {
    forall i :: 0 <= i < |db.firms| ==> InternalCount(db.clients, db.firms[i].id) == 1
  }

  predicate ChecksPass(db: Db) {
    FirmsHaveDefault(db) && AdminsHaveDefault(db) && AdminsMatch(db) && CompletedHaveDefault(db) && OneInternalEach(db)
  }

  datatype Issue = NoFirm | FirmWithoutDefault | Mismatch

  /** Check 3 reads the default of an admin whose firm has one without looking whether it is set. */
  datatype Outcome = Threw | Listed(mismatches: seq<(Id, Issue)>)

  predicate Breaks(db: Db, admin: Admin) {
    var index := FirmIndex(db.firms, admin.firmId, |db.firms|);
    index.Some? && db.firms[index.value].defaultClientId.Some? && admin.defaultClientId.None?
  }

  /** validateAdminClientMatchesFirm: the admins that fail check 3, each with the reason, unless one
      without a default belongs to a firm with one. */
  method ListMismatches(db: Db) returns (outcome: Outcome)
    ensures outcome == Listed([]) <==> AdminsMatch(db)
    ensures outcome.Threw? <==> exists k :: 0 <= k < |db.admins| && Breaks(db, db.admins[k])
  {
    var mismatches: seq<(Id, Issue)> := [];
    var k := 0;
    while k < |db.admins|
      invariant 0 <= k <= |db.admins|
      invariant mismatches == [] <==> forall j :: 0 <= j < k ==> Matches(db, db.admins[j])
      invariant forall j :: 0 <= j < k ==> !Breaks(db, db.admins[j])
    {
      var admin := db.admins[k];
      var index := FirmIndex(db.firms, admin.firmId, |db.firms|);
      if index.None? {
        mismatches := mismatches + [(admin.id, NoFirm)];
      } else if db.firms[index.value].defaultClientId.None? {
        mismatches := mismatches + [(admin.id, FirmWithoutDefault)];
      } else if admin.defaultClientId.None? {
        assert Breaks(db, admin);
        return Threw;
      } else if admin.defaultClientId != db.firms[index.value].defaultClientId {
        mismatches := mismatches + [(admin.id, Mismatch)];
      }
      k := k + 1;
    }
    outcome := Listed(mismatches);
  }

  /** validateFirmInternalClients: the firms that fail check 5, with how many they have. */
  method ListInternalIssues(db: Db) returns (issues: seq<(Id, nat)>)
    ensures issues == [] <==> OneInternalEach(db)
  {
    issues := [];
    var i := 0;
    while i < |db.firms|
      invariant 0 <= i <= |db.firms|
      invariant issues == [] <==> forall j :: 0 <= j < i ==> InternalCount(db.clients, db.firms[j].id) == 1
    {
      var count := InternalCount(db.clients, db.firms[i].id);
      if count != 1 {
        issues := issues + [(db.firms[i].id, count)];
      }
      i := i + 1;
    }
  }

  // ---------------------------------------------------------------- what a run leaves

  /** Firm `i` is given a default by the first `n` transactions. */
  predicate Fixes(db: Db, aborted: set<nat>, i: nat, n: nat)
    requires i < |db.firms|
  {
    i < n && db.firms[i].defaultClientId.None? && i !in aborted
  }

  function NewDefault(db: Db, newId: nat -> Id, i: nat): Id
    requires i < |db.firms|
  {
    Target(db.clients, db.firms[i].id, newId(i))
  }

  lemma {:induction false} InternalAppend(clients: seq<Client>, c: Client, firmId: Id)
    ensures InternalCount(clients + [c], firmId)
         == InternalCount(clients, firmId) + if c.firmId == firmId && c.isInternal then 1 else 0
    ensures FirstInternal(clients + [c], firmId)
         == if FirstInternal(clients, firmId).Some? then FirstInternal(clients, firmId)
            else if c.firmId == firmId && c.isInternal then Some(c.id) else None
  {
    if clients != [] {
      assert (clients + [c])[1..] == clients[1..] + [c];
      InternalAppend(clients[1..], c, firmId);
    }
  }

  lemma {:induction false} CountIsZero(clients: seq<Client>, firmId: Id)
    ensures InternalCount(clients, firmId) == 0 <==> FirstInternal(clients, firmId).None?
  {
    if clients != [] {
      CountIsZero(clients[1..], firmId);
    }
  }

  lemma FixedClients(db: Db, i: nat, newId: Id, firmId: Id)
    requires i < |db.firms|
    ensures var clients := Fixed(db, i, newId).clients;
      var created := db.firms[i].id == firmId && FirstInternal(db.clients, firmId).None?;
      && InternalCount(clients, firmId) == InternalCount(db.clients, firmId) + (if created then 1 else 0)
      && FirstInternal(clients, firmId) == if created then Some(newId) else FirstInternal(db.clients, firmId)
  {
    hide Backfill, LinkFirm, InternalCount, FirstInternal;
    InternalAppend(db.clients, Client(newId, db.firms[i].id, true), firmId);
  }

  /** The internal clients of firm `i`: one more if its transaction had to create it. */
  lemma {:induction false} ClientsAfter(db: Db, newId: nat -> Id, aborted: set<nat>, n: nat, i: nat)
    requires UniqueFirms(db.firms) && n <= |db.firms| && i < |db.firms|
    ensures var firmId := db.firms[i].id;
      var clients := FixFirms(db, newId, aborted, n).clients;
      var created := Fixes(db, aborted, i, n) && FirstInternal(db.clients, firmId).None?;
      && InternalCount(clients, firmId) == InternalCount(db.clients, firmId) + (if created then 1 else 0)
      && FirstInternal(clients, firmId) == if created then Some(newId(i)) else FirstInternal(db.clients, firmId)
  {
    hide Fixed, InternalCount, FirstInternal;
    if n > 0 {
      ClientsAfter(db, newId, aborted, n - 1, i);
      FirmIdsKept(db, newId, aborted, n - 1, n - 1);
      FixedClients(FixFirms(db, newId, aborted, n - 1), n - 1, newId(n - 1), db.firms[i].id);
      if db.firms[i].id == db.firms[n - 1].id {
        assert !(i < n - 1) && !(n - 1 < i);
      }
    }
  }

  lemma {:induction false} FirmIdsKept(db: Db, newId: nat -> Id, aborted: set<nat>, n: nat, i: nat)
    requires n <= |db.firms| && i < |db.firms|
    ensures FixFirms(db, newId, aborted, n).firms[i].id == db.firms[i].id
  {
    if n > 0 {
      FirmIdsKept(db, newId, aborted, n - 1, i);
    }
  }

  /** Firm `i` after the first `n` transactions. */
  lemma {:induction false} FirmAfter(db: Db, newId: nat -> Id, aborted: set<nat>, n: nat, i: nat)
    requires UniqueFirms(db.firms) && n <= |db.firms| && i < |db.firms|
    ensures FixFirms(db, newId, aborted, n).firms[i]
         == if Fixes(db, aborted, i, n) then LinkFirm(db.firms[i], NewDefault(db, newId, i)) else db.firms[i]
  {
    hide Backfill, LinkFirm, InternalCount, FirstInternal, UniqueFirms;
    if n > 0 {
      FirmAfter(db, newId, aborted, n - 1, i);
      if i == n - 1 {
        ClientsAfter(db, newId, aborted, n - 1, i);
      }
    }
  }

  lemma FirmIndexIs(firms: seq<Firm>, i: nat, id: Option<Id>)
    requires UniqueFirms(firms) && i < |firms| && id == Some(firms[i].id)
    ensures FirmIndex(firms, id, |firms|) == Some(i)
  {
    var j := FirmIndex(firms, id, |firms|).value;
    assert !(i < j) && !(j < i);
  }

  /** Admin `k` after the first `n` transactions. */
  lemma {:induction false} AdminAfter(db: Db, newId: nat -> Id, aborted: set<nat>, n: nat, k: nat)
    requires UniqueFirms(db.firms) && n <= |db.firms| && k < |db.admins|
    ensures var index := FirmIndex(db.firms, db.admins[k].firmId, |db.firms|);
      FixFirms(db, newId, aborted, n).admins[k]
      == if db.admins[k].defaultClientId.None? && index.Some? && Fixes(db, aborted, index.value, n)
         then db.admins[k].(defaultClientId := Some(NewDefault(db, newId, index.value))) else db.admins[k]
  {
    hide LinkFirm, InternalCount, FirstInternal, UniqueFirms;
    if n > 0 {
      AdminAfter(db, newId, aborted, n - 1, k);
      FirmAfter(db, newId, aborted, n - 1, n - 1);
      ClientsAfter(db, newId, aborted, n - 1, n - 1);
      if db.admins[k].firmId == Some(db.firms[n - 1].id) {
        FirmIndexIs(db.firms, n - 1, db.admins[k].firmId);
      }
    }
  }

  lemma {:induction false} SameIndex(a: seq<Firm>, b: seq<Firm>, id: Option<Id>, n: nat)
    requires n <= |a| == |b| && forall i :: 0 <= i < |a| ==> a[i].id == b[i].id
    ensures FirmIndex(a, id, n) == FirmIndex(b, id, n)
  {
    if n > 0 {
      SameIndex(a, b, id, n - 1);
    }
  }

  lemma IndexAfter(db: Db, newId: nat -> Id, aborted: set<nat>, id: Option<Id>)
    ensures FirmIndex(FixFirms(db, newId, aborted, |db.firms|).firms, id, |db.firms|)
        == FirmIndex(db.firms, id, |db.firms|)
  {
    forall i | 0 <= i < |db.firms| ensures FixFirms(db, newId, aborted, |db.firms|).firms[i].id == db.firms[i].id {
      FirmIdsKept(db, newId, aborted, |db.firms|, i);
    }
    SameIndex(FixFirms(db, newId, aborted, |db.firms|).firms, db.firms, id, |db.firms|);
  }

  /** Admin `k` after a whole run: a default already set is untouched; one that was missing becomes
      that of its firm, if it has a firm and that firm now has one. */
  lemma FinalAdmin(db: Db, newId: nat -> Id, aborted: set<nat>, refused: set<nat>, k: nat)
    requires UniqueFirms(db.firms) && k < |db.admins| && k !in refused
    ensures var done := Migrated(db, newId, aborted, refused);
      var index := FirmIndex(db.firms, db.admins[k].firmId, |db.firms|);
      done.admins[k] == db.admins[k].(defaultClientId :=
        if db.admins[k].defaultClientId.Some? then db.admins[k].defaultClientId
        else if index.Some? then done.firms[index.value].defaultClientId else None)
  {
    var index := FirmIndex(db.firms, db.admins[k].firmId, |db.firms|);
    AdminAfter(db, newId, aborted, |db.firms|, k);
    IndexAfter(db, newId, aborted, db.admins[k].firmId);
    if index.Some? {
      FirmAfter(db, newId, aborted, |db.firms|, index.value);
    }
  }

  lemma {:induction false} FirstInternalIsThere(clients: seq<Client>, firmId: Id)
    ensures FirstInternal(clients, firmId).Some? ==>
      exists c :: c in clients && c.id == FirstInternal(clients, firmId).value && c.firmId == firmId && c.isInternal
  {
    if clients != [] {
      FirstInternalIsThere(clients[1..], firmId);
    }
  }

  lemma {:induction false} ClientsStay(db: Db, newId: nat -> Id, aborted: set<nat>, n: nat)
    requires n <= |db.firms|
    ensures db.clients <= FixFirms(db, newId, aborted, n).clients
  {
    if n > 0 {
      ClientsStay(db, newId, aborted, n - 1);
    }
  }

  /** Firm `i` after a whole run, whatever fails: its row is touched only if it had no default and its
      transaction went through. Then its default is an internal client of its own, the one it had if
      any, and its bootstrap status is complete unless it had failed. No client is removed. */
  lemma FinalFirm(db: Db, newId: nat -> Id, aborted: set<nat>, refused: set<nat>, i: nat)
    requires UniqueFirms(db.firms) && i < |db.firms|
    ensures var done := Migrated(db, newId, aborted, refused);
      var was, now := db.firms[i], done.firms[i];
      && db.clients <= done.clients && now.id == was.id
      && (was.defaultClientId.Some? || i in aborted ==> now == was)
      && (was.defaultClientId.None? && i !in aborted ==>
          && now.defaultClientId.Some?
          && (exists c :: c in done.clients && c.id == now.defaultClientId.value && c.firmId == was.id && c.isInternal)
          && (InternalCount(db.clients, was.id) > 0 ==>
              exists c :: c in db.clients && c.id == now.defaultClientId.value && c.firmId == was.id && c.isInternal)
          && now.bootstrap == if was.bootstrap == Failed then Failed else Completed)
  {
    hide FirstInternal, InternalCount;
    FirmAfter(db, newId, aborted, |db.firms|, i);
    ClientsAfter(db, newId, aborted, |db.firms|, i);
    ClientsStay(db, newId, aborted, |db.firms|);
    CountIsZero(db.clients, db.firms[i].id);
    FirstInternalIsThere(db.clients, db.firms[i].id);
    FirstInternalIsThere(FixFirms(db, newId, aborted, |db.firms|).clients, db.firms[i].id);
  }

  // ---------------------------------------------------------------- the theorem

  /** Newly created clients have ids nobody refers to. */
  ghost predicate FreshIds(db: Db, newId: nat -> Id) {
    forall i, k :: 0 <= i < |db.firms| && 0 <= k < |db.admins| ==> db.admins[k].defaultClientId != Some(newId(i))
  }

  /** An admin the run can bring in line: it has a firm, and its default, if set, is the firm's or
      will be: the internal client a firm without default already has. */
  predicate AdminFixable(db: Db, admin: Admin) {
    var index := FirmIndex(db.firms, admin.firmId, |db.firms|);
    && index.Some?
    && (admin.defaultClientId.Some? ==>
          var firm := db.firms[index.value];
          admin.defaultClientId
          == if firm.defaultClientId.Some? then firm.defaultClientId else FirstInternal(db.clients, firm.id))
  }

  /** A firm the run can bring in line: at most one internal client, and one if it has a default. */
  predicate FirmFixable(db: Db, firm: Firm) {
    InternalCount(db.clients, firm.id) <= 1 && (firm.defaultClientId.Some? ==> InternalCount(db.clients, firm.id) == 1)
  }

  predicate Fixable(db: Db) {
    && (forall k :: 0 <= k < |db.admins| ==> AdminFixable(db, db.admins[k]))
    && (forall i :: 0 <= i < |db.firms| ==> FirmFixable(db, db.firms[i]))
  }

  lemma FirmOutcome(db: Db, newId: nat -> Id, refused: set<nat>, i: nat)
    requires UniqueFirms(db.firms) && i < |db.firms|
    ensures var done := Migrated(db, newId, {}, refused);
      && done.firms[i].defaultClientId.Some?
      && (InternalCount(done.clients, done.firms[i].id) == 1 <==> FirmFixable(db, db.firms[i]))
  {
    FirmAfter(db, newId, {}, |db.firms|, i);
    ClientsAfter(db, newId, {}, |db.firms|, i);
    CountIsZero(db.clients, db.firms[i].id);
  }

  lemma AdminOutcome(db: Db, newId: nat -> Id, k: nat)
    requires UniqueFirms(db.firms) && FreshIds(db, newId) && k < |db.admins|
    ensures var done := Migrated(db, newId, {}, {});
      Matches(done, done.admins[k]) <==> AdminFixable(db, db.admins[k])
  {
    var index := FirmIndex(db.firms, db.admins[k].firmId, |db.firms|);
    FinalAdmin(db, newId, {}, {}, k);
    IndexAfter(db, newId, {}, db.admins[k].firmId);
    if index.Some? {
      FirmAfter(db, newId, {}, |db.firms|, index.value);
      assert db.admins[k].defaultClientId != Some(newId(index.value));
    }
  }

  /** When the migration establishes the validator's checks: after a run without failures all five
      pass if and only if every admin has a firm, every admin default already set agrees with the
      default its firm has or will get, and no firm has an internal client too many or too few. */
  lemma MigrationEstablishesChecks(db: Db, newId: nat -> Id)
    requires UniqueFirms(db.firms) && FreshIds(db, newId)
    ensures ChecksPass(Migrated(db, newId, {}, {})) <==> Fixable(db)
  {
    hide Migrated, AdminFixable, FirmFixable, InternalCount;
    var done := Migrated(db, newId, {}, {});
    assert forall k :: 0 <= k < |done.admins| && Matches(done, done.admins[k]) ==> done.admins[k].defaultClientId.Some?;
    hide Matches;
    SizesKept(db, newId, {}, {});
    forall i | 0 <= i < |db.firms|
      ensures done.firms[i].defaultClientId.Some?
      ensures InternalCount(done.clients, done.firms[i].id) == 1 <==> FirmFixable(db, db.firms[i])
    {
      FirmOutcome(db, newId, {}, i);
    }
    forall k | 0 <= k < |db.admins| ensures Matches(done, done.admins[k]) <==> AdminFixable(db, db.admins[k]) {
      AdminOutcome(db, newId, k);
    }
    assert ChecksPass(done) ==> forall k :: 0 <= k < |done.admins| ==> Matches(done, done.admins[k]);
  }

  lemma SizesKept(db: Db, newId: nat -> Id, aborted: set<nat>, refused: set<nat>)
    ensures |Migrated(db, newId, aborted, refused).firms| == |db.firms|
    ensures |Migrated(db, newId, aborted, refused).admins| == |db.admins|
  {
  }

  /** Whatever fails, an admin default that was set stays as it was. */
  lemma SetDefaultsUntouched(db: Db, newId: nat -> Id, aborted: set<nat>, refused: set<nat>, k: nat)
    requires UniqueFirms(db.firms) && k < |db.admins| && db.admins[k].defaultClientId.Some?
    ensures Migrated(db, newId, aborted, refused).admins[k] == db.admins[k]
  {
    AdminAfter(db, newId, aborted, |db.firms|, k);
  }

  /** A firm whose transaction was aborted keeps its row, its internal clients and its admins as they
      were, whatever becomes of the other firms. */
  lemma AbortedFirmUntouched(db: Db, newId: nat -> Id, aborted: set<nat>, refused: set<nat>, i: nat, k: nat)
    requires UniqueFirms(db.firms) && i < |db.firms| && i in aborted && db.firms[i].defaultClientId.None?
    requires k < |db.admins|
    ensures var done := Migrated(db, newId, aborted, refused);
      && done.firms[i] == db.firms[i]
      && InternalCount(done.clients, db.firms[i].id) == InternalCount(db.clients, db.firms[i].id)
      && FirstInternal(done.clients, db.firms[i].id) == FirstInternal(db.clients, db.firms[i].id)
      && (db.admins[k].firmId == Some(db.firms[i].id) ==> done.admins[k] == db.admins[k])
  {
    FirmAfter(db, newId, aborted, |db.firms|, i);
    ClientsAfter(db, newId, aborted, |db.firms|, i);
    if db.admins[k].firmId == Some(db.firms[i].id) {
      FirmIndexIs(db.firms, i, db.admins[k].firmId);
      AdminAfter(db, newId, aborted, |db.firms|, k);
      IndexAfter(db, newId, aborted, db.admins[k].firmId);
    }
  }

  /** After a run without failures a second run changes nothing, whatever its own failures. */
  lemma SecondRunIsIdle(db: Db, newId: nat -> Id, newId': nat -> Id, aborted: set<nat>, refused: set<nat>)
    requires UniqueFirms(db.firms)
    ensures var done := Migrated(db, newId, {}, {});
      Migrated(done, newId', aborted, refused) == done
  {
    hide Migrated;
    var done := Migrated(db, newId, {}, {});
    SizesKept(db, newId, {}, {});
    forall i | 0 <= i < |done.firms| ensures done.firms[i].defaultClientId.Some? {
      FirmOutcome(db, newId, {}, i);
    }
    forall k | 0 <= k < |done.admins| ensures Adopt(done.firms, done.admins[k]) == done.admins[k] {
      FinalAdmin(db, newId, {}, {}, k);
      DoneIndex(db, newId, db.admins[k].firmId);
    }
    IdleRun(done, newId', aborted, refused);
  }

  lemma DoneIndex(db: Db, newId: nat -> Id, id: Option<Id>)
    ensures var done := Migrated(db, newId, {}, {});
      FirmIndex(done.firms, id, |done.firms|) == FirmIndex(db.firms, id, |db.firms|)
  {
    IndexAfter(db, newId, {}, id);
  }

  lemma IdleRun(db: Db, newId: nat -> Id, aborted: set<nat>, refused: set<nat>)
    requires FirmsHaveDefault(db) && forall k :: 0 <= k < |db.admins| ==> Adopt(db.firms, db.admins[k]) == db.admins[k]
    ensures Migrated(db, newId, aborted, refused) == db
  {
    PassOver(db, newId, aborted, 0, |db.firms|);
  }
}
