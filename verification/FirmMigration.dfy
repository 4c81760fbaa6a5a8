/** The migration that gives every firm a default client and every admin its firm's, one transaction
    per firm, and the integrity checks its result is held against. Users stand for those with the
    role 'Admin'. */
module FirmMigration {
  import opened Options

  type Id = nat

  datatype Bootstrap = Unset | Pending | Completed | Failed

  datatype Firm = Firm(id: Id, defaultClientId: Option<Id>, bootstrap: Bootstrap)
  datatype Client = Client(id: Id, firmId: Id, isInternal: bool)
  datatype Admin = Admin(id: Id, firmId: Option<Id>, defaultClientId: Option<Id>)
  datatype Db = Db(firms: seq<Firm>, clients: seq<Client>, admins: seq<Admin>)

  predicate UniqueFirms(firms: seq<Firm>) {
    forall i, j :: 0 <= i < j < |firms| ==> firms[i].id != firms[j].id
  }

  // ---------------------------------------------------------------- queries

  /** The firm an admin is linked to; none when the link is absent or dangling. */
  function FirmIndex(firms: seq<Firm>, id: Option<Id>, n: nat): (index: Option<nat>)
    requires n <= |firms|
    ensures index.Some? ==> index.value < n && Some(firms[index.value].id) == id
    ensures index.None? ==> forall i :: 0 <= i < n ==> Some(firms[i].id) != id
  {
    if n == 0 then None
    else if Some(firms[n - 1].id) == id then Some(n - 1)
    else FirmIndex(firms, id, n - 1)
  }

  /** The first internal client of a firm. */
  function FirstInternal(clients: seq<Client>, firmId: Id): Option<Id> {
    if clients == [] then None
    else if clients[0].firmId == firmId && clients[0].isInternal then Some(clients[0].id)
    else FirstInternal(clients[1..], firmId)
  }

  function InternalCount(clients: seq<Client>, firmId: Id): nat {
    if clients == [] then 0
    else (if clients[0].firmId == firmId && clients[0].isInternal then 1 else 0) + InternalCount(clients[1..], firmId)
  }

  // ---------------------------------------------------------------- fixing one firm

  /** The client a firm's default will be: its internal client, or the new one. */
  function Target(clients: seq<Client>, firmId: Id, newId: Id): Id {
    var existing := FirstInternal(clients, firmId);
    if existing.Some? then existing.value else newId
  }

  function LinkFirm(firm: Firm, client: Id): Firm {
    firm.(defaultClientId := Some(client),
          bootstrap := if firm.bootstrap.Unset? || firm.bootstrap.Pending? then Completed else firm.bootstrap)
  }

  function Needs(admin: Admin, firmId: Id): bool {
    admin.firmId == Some(firmId) && admin.defaultClientId.None?
  }

  function Backfill(admins: seq<Admin>, firmId: Id, client: Id): (r: seq<Admin>)
    ensures |r| == |admins|
    ensures forall k :: 0 <= k < |admins| ==>
      r[k] == if Needs(admins[k], firmId) then admins[k].(defaultClientId := Some(client)) else admins[k]
  {
    seq(|admins|, k requires 0 <= k < |admins| =>
      if Needs(admins[k], firmId) then admins[k].(defaultClientId := Some(client)) else admins[k])
  }

  /** The database after a firm's transaction has committed. */
  function Fixed(db: Db, i: nat, newId: Id): Db
    requires i < |db.firms|
  {
    var firm := db.firms[i];
    var client := Target(db.clients, firm.id, newId);
    Db(db.firms[i := LinkFirm(firm, client)],
       if FirstInternal(db.clients, firm.id).Some? then db.clients else db.clients + [Client(newId, firm.id, true)],
       Backfill(db.admins, firm.id, client))
  }

  // ---------------------------------------------------------------- the whole migration

  /** The first `n` firms, each in its own transaction; those in `aborted` are rolled back. */
  function FixFirms(db: Db, newId: nat -> Id, aborted: set<nat>, n: nat): (r: Db)
    requires n <= |db.firms|
    ensures |r.firms| == |db.firms| && |r.admins| == |db.admins|
  {
    if n == 0 then db
    else
      var before := FixFirms(db, newId, aborted, n - 1);
      if db.firms[n - 1].defaultClientId.None? && n - 1 !in aborted then Fixed(before, n - 1, newId(n - 1)) else before
  }

  /** An admin still without a default takes its firm's. */
  function Adopt(firms: seq<Firm>, admin: Admin): Admin {
    var index := FirmIndex(firms, admin.firmId, |firms|);
    if admin.defaultClientId.None? && index.Some? && firms[index.value].defaultClientId.Some?
    then admin.(defaultClientId := firms[index.value].defaultClientId) else admin
  }

  /** The first `n` remaining admins; updates in `refused` fail. */
  function AdoptAll(firms: seq<Firm>, admins: seq<Admin>, refused: set<nat>, n: nat): (r: seq<Admin>)
    requires n <= |admins|
    ensures |r| == |admins|
    ensures forall k :: 0 <= k < |admins| ==>
        r[k] == if k < n && k !in refused then Adopt(firms, admins[k]) else admins[k]
  {
    if n == 0 then admins
    else
      var before := AdoptAll(firms, admins, refused, n - 1);
      if n - 1 in refused then before else before[n - 1 := Adopt(firms, admins[n - 1])]
  }

  function Migrated(db: Db, newId: nat -> Id, aborted: set<nat>, refused: set<nat>): Db {
    var fixed := FixFirms(db, newId, aborted, |db.firms|);
    Db(fixed.firms, fixed.clients, AdoptAll(fixed.firms, fixed.admins, refused, |fixed.admins|))
  }

  /** Some write of firm `i`'s transaction fails. */
  ghost predicate WriteFails(fails: (nat, nat) -> bool, i: nat) {
    exists w :: fails(i, w)
  }

  ghost predicate Fails(fails: (nat, nat) -> bool, commitFails: nat -> bool, i: nat) {
    WriteFails(fails, i) || commitFails(i)
  }

  /** The database the script works on. */
  class Database {
    var firms: seq<Firm>
    var clients: seq<Client>
    var admins: seq<Admin>

    function Value(): Db
      reads this
    {
      Db(firms, clients, admins)
    }

    constructor (db: Db)
      ensures Value() == db
    {
      firms, clients, admins := db.firms, db.clients, db.admins;
    }

    /** fixFirm: at most one insert, one save, then one update per admin. The w-th write fails when
        `fails(i, w)`; then the remaining writes are not attempted. */
    method FixFirm(i: nat, newId: Id, fails: (nat, nat) -> bool) returns (ok: bool)
      requires i < |firms|
      modifies this
      ensures ok ==> Value() == Fixed(old(Value()), i, newId)
      ensures !ok ==> WriteFails(fails, i)
    {
      var firm := firms[i];
      var existing := FirstInternal(clients, firm.id);
      var client: Id;
      if existing.Some? {
        client := existing.value;
      } else {
        if fails(i, 0) { return false; }
        client := newId;
        clients := clients + [Client(newId, firm.id, true)];
      }
      if fails(i, 1) { return false; }
      firms := firms[i := LinkFirm(firm, client)];
      ok := BackfillAdmins(i, firm.id, client, fails);
    }

    method BackfillAdmins(i: nat, firmId: Id, client: Id, fails: (nat, nat) -> bool) returns (ok: bool)
      modifies this`admins
      ensures ok ==> admins == Backfill(old(admins), firmId, client)
      ensures !ok ==> WriteFails(fails, i)
    {
      var k := 0;
      while k < |admins|
        invariant 0 <= k <= |admins| == |old(admins)|
        invariant forall j :: 0 <= j < k ==> admins[j] == Backfill(old(admins), firmId, client)[j]
        invariant forall j :: k <= j < |admins| ==> admins[j] == old(admins)[j]
      {
        if Needs(admins[k], firmId) {
          if fails(i, k + 2) { return false; }
          admins := admins[k := admins[k].(defaultClientId := Some(client))];
        }
        k := k + 1;
      }
      ok := true;
    }

    /** analyzeMigration: which firms lack a default, and how many admins can already be given one. */
    method Analyze() returns (missing: seq<nat>, adminsToFix: nat)
      ensures Lists(missing, firms, |firms|)
      ensures adminsToFix == 0 <==> forall k :: 0 <= k < |admins| ==> Adopt(firms, admins[k]) == admins[k]
    {
      missing, adminsToFix := [], 0;
      var i := 0;
      while i < |firms|
        invariant 0 <= i <= |firms|
        invariant Lists(missing, firms, i)
      {
        if firms[i].defaultClientId.None? {
          assert forall a :: 0 <= a < |missing| ==> missing[a] in missing;
          missing := missing + [i];
        }
        i := i + 1;
      }
      var k := 0;
      while k < |admins|
        invariant 0 <= k <= |admins|
        invariant adminsToFix == 0 <==> forall j :: 0 <= j < k ==> Adopt(firms, admins[j]) == admins[j]
      {
        var index := FirmIndex(firms, admins[k].firmId, |firms|);
        if admins[k].defaultClientId.None? && index.Some? && firms[index.value].defaultClientId.Some? {
          adminsToFix := adminsToFix + 1;
        }
        k := k + 1;
      }
    }

    /** A firm's transaction: when fixFirm or the commit fails, everything written is put back. */
    method Transaction(i: nat, newId: Id, fails: (nat, nat) -> bool, commitFails: nat -> bool) returns (ok: bool)
      requires i < |firms|
      modifies this
      ensures Value() == if ok then Fixed(old(Value()), i, newId) else old(Value())
      ensures ok ==> !commitFails(i)
      ensures !ok ==> Fails(fails, commitFails, i)
    {
      var savedFirms, savedClients, savedAdmins := firms, clients, admins;
      ok := FixFirm(i, newId, fails);
      if !ok || commitFails(i) {
        firms, clients, admins := savedFirms, savedClients, savedAdmins;
        ok := false;
      }
    }

    /** One firm of the first loop: fixed, or among those aborted. */
    method FixListed(i: nat, newId: nat -> Id, fails: (nat, nat) -> bool, commitFails: nat -> bool,
                     ghost start: Db, ghost before: set<nat>) returns (ok: bool, ghost aborted: set<nat>)
      requires i < |start.firms| && start.firms[i].defaultClientId.None? && i !in before
      requires Value() == FixFirms(start, newId, before, i)
      modifies this
      ensures aborted == if ok then before else before + {i}
      ensures Value() == FixFirms(start, newId, aborted, i + 1)
      ensures !ok ==> Fails(fails, commitFails, i)
    {
      hide FixFirms, Fixed, Fails;
      ok := Transaction(i, newId(i), fails, commitFails);
      FixOrSkip(start, newId, before, i, ok);
      aborted := if ok then before else before + {i};
    }

    /** The first loop of applyMigration. */
    method FixMissing(missing: seq<nat>, newId: nat -> Id, fails: (nat, nat) -> bool, commitFails: nat -> bool)
      returns (firmsFixed: nat, failed: nat, ghost aborted: set<nat>)
      requires Lists(missing, firms, |firms|)
      modifies this
      ensures Value() == FixFirms(old(Value()), newId, aborted, |old(firms)|)
      ensures forall i :: i in aborted ==> Fails(fails, commitFails, i)
      ensures failed == 0 <==> aborted == {}
    {
      firmsFixed, failed, aborted := 0, 0, {};
      ghost var start := Value();
      assert FixFirms(start, newId, aborted, 0) == start;
      hide FixFirms, Fixed, Fails, Lists;
      ghost var next: nat := 0;
      var m := 0;
      while m < |missing|
        invariant 0 <= m <= |missing| && next <= |start.firms|
        invariant next == if m == 0 then 0 else missing[m - 1] + 1
        invariant Value() == FixFirms(start, newId, aborted, next)
        invariant forall i :: i in aborted ==> i < next && Fails(fails, commitFails, i)
        invariant failed == 0 <==> aborted == {}
      {
        var i := missing[m];
        ListedAt(missing, start.firms, m);
        Between(start, newId, aborted, missing, m, next);
        var ok;
        ok, aborted := FixListed(i, newId, fails, commitFails, start, aborted);
        if ok {
          firmsFixed := firmsFixed + 1;
        } else {
          failed := failed + 1;
        }
        next := i + 1;
        m := m + 1;
      }
      Between(start, newId, aborted, missing, m, next);
    }

    /** The second loop of applyMigration: admins still without a default whose firm has one. */
    method AdoptRemaining(refuses: nat -> bool) returns (failed: nat, ghost refused: set<nat>)
      modifies this`admins
      ensures admins == AdoptAll(firms, old(admins), refused, |old(admins)|)
      ensures forall k :: k in refused ==> refuses(k)
      ensures failed == 0 <==> refused == {}
    {
      failed, refused := 0, {};
      var k := 0;
      while k < |admins|
        invariant 0 <= k <= |admins| == |old(admins)|
        invariant forall j :: 0 <= j < |admins| ==>
          admins[j] == if j < k && j !in refused then Adopt(firms, old(admins)[j]) else old(admins)[j]
        invariant forall j :: j in refused ==> j < k && refuses(j)
        invariant failed == 0 <==> refused == {}
      {
        var index := FirmIndex(firms, admins[k].firmId, |firms|);
        if admins[k].defaultClientId.None? && index.Some? && firms[index.value].defaultClientId.Some? {
          if refuses(k) {
            failed := failed + 1;
            refused := refused + {k};
          } else {
            admins := admins[k := admins[k].(defaultClientId := firms[index.value].defaultClientId)];
          }
        }
        k := k + 1;
      }
    }

    /** analyzeMigration, then applyMigration. */
    method Migrate(newId: nat -> Id, fails: (nat, nat) -> bool, commitFails: nat -> bool, refuses: nat -> bool)
      returns (firmsFixed: nat, failed: nat, ghost aborted: set<nat>, ghost refused: set<nat>)
      modifies this
      ensures Value() == Migrated(old(Value()), newId, aborted, refused)
      ensures forall i :: i in aborted ==> Fails(fails, commitFails, i)
      ensures forall k :: k in refused ==> refuses(k)
      ensures failed == 0 <==> aborted == {} && refused == {}
    {
      firmsFixed, failed, aborted, refused := 0, 0, {}, {};
      var missing, adminsToFix := Analyze();
      if |missing| == 0 && adminsToFix == 0 {
        PassOver(Value(), newId, {}, 0, |firms|);
        assert AdoptAll(firms, admins, {}, |admins|) == admins;
        return;
      }
      firmsFixed, failed, aborted := FixMissing(missing, newId, fails, commitFails);
      var alsoFailed;
      alsoFailed, refused := AdoptRemaining(refuses);
      failed := failed + alsoFailed;
    }
  }

  /** `missing` lists, in order, the firms among the first `n` that have no default. */
  predicate Lists(missing: seq<nat>, firms: seq<Firm>, n: nat)
    requires n <= |firms|
  {
    && (forall a :: 0 <= a < |missing| ==> missing[a] < n && firms[missing[a]].defaultClientId.None?)
    && (forall a, b :: 0 <= a < b < |missing| ==> missing[a] < missing[b])
    && (forall i: nat :: i < n && firms[i].defaultClientId.None? ==> i in missing)
  }

  /** Firms that have a default are passed over. */
  lemma {:induction false} PassOver(db: Db, newId: nat -> Id, aborted: set<nat>, lo: nat, hi: nat)
    requires lo <= hi <= |db.firms| && forall i :: lo <= i < hi ==> db.firms[i].defaultClientId.Some?
    ensures FixFirms(db, newId, aborted, hi) == FixFirms(db, newId, aborted, lo)
    decreases hi
  {
    if lo < hi {
      PassOver(db, newId, aborted, lo, hi - 1);
    }
  }

  lemma Between(db: Db, newId: nat -> Id, aborted: set<nat>, missing: seq<nat>, m: nat, next: nat)
    requires m <= |missing| && next <= |db.firms| && Lists(missing, db.firms, |db.firms|)
    requires next == if m == 0 then 0 else missing[m - 1] + 1
    ensures var stop := if m == |missing| then |db.firms| else missing[m];
      next <= stop <= |db.firms| && FixFirms(db, newId, aborted, stop) == FixFirms(db, newId, aborted, next)
  {
    PassOver(db, newId, aborted, next, if m == |missing| then |db.firms| else missing[m]);
  }

  lemma ListedAt(missing: seq<nat>, firms: seq<Firm>, m: nat)
    requires Lists(missing, firms, |firms|) && m < |missing|
    ensures missing[m] < |firms| && firms[missing[m]].defaultClientId.None?
  {
    assert missing[m] in missing;
  }

  /** One transaction later: firm `i` is fixed, or joins the aborted ones. */
  lemma FixOrSkip(db: Db, newId: nat -> Id, aborted: set<nat>, i: nat, ok: bool)
    requires i < |db.firms| && db.firms[i].defaultClientId.None? && i !in aborted
    ensures var before := FixFirms(db, newId, aborted, i);
      FixFirms(db, newId, if ok then aborted else aborted + {i}, i + 1)
      == if ok then Fixed(before, i, newId(i)) else before
  {
    SameAborts(db, newId, aborted, aborted + {i}, i);
  }

  lemma {:induction false} SameAborts(db: Db, newId: nat -> Id, a: set<nat>, b: set<nat>, n: nat)
    requires n <= |db.firms| && forall i :: 0 <= i < n ==> (i in a <==> i in b)
    ensures FixFirms(db, newId, a, n) == FixFirms(db, newId, b, n)
  {
    if n > 0 {
      SameAborts(db, newId, a, b, n - 1);
    }
  }
}
