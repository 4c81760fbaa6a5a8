/** The effort ledger: each docket carries a running total of the minutes logged on it, kept up to
    date as entries are created and deleted. */
module EffortLedger {

  type Id = nat

  datatype Case = Case(id: Id, firm: Id, clientId: string, serviceLine: string, actualMinutes: real,
                       expectedMinutes: real)
  datatype Effort = Effort(id: Id, firm: Id, caseId: Id, user: Id, minutes: real)
  datatype Actor = Actor(firm: Id, user: Id, isAdmin: bool, restricted: set<string>)
  datatype Books = Books(cases: seq<Case>, efforts: seq<Effort>)

  datatype Reply = Done | NotFound | Forbidden | Invalid

  // ---------------------------------------------------------------- operations

  /** The last of the first `n` elements that satisfies `p`, or -1. */
  function LastWhere<T>(s: seq<T>, p: T -> bool, n: nat): (i: int)
    requires n <= |s|
    ensures -1 <= i < n
    ensures i >= 0 ==> p(s[i])
    ensures forall j :: i < j < n ==> !p(s[j])
  {
    if n == 0 then -1 else if p(s[n - 1]) then n - 1 else LastWhere(s, p, n - 1)
  }

  /** The position of a case of the firm, or -1. */
  function CaseIndex(cases: seq<Case>, id: Id, firm: Id, n: nat): (i: int)
    requires n <= |cases|
    ensures -1 <= i < n
    ensures i >= 0 ==> cases[i].id == id && cases[i].firm == firm
    ensures forall j :: i < j < n ==> !(cases[j].id == id && cases[j].firm == firm)
  {
    LastWhere(cases, (c: Case) => c.id == id && c.firm == firm, n)
  }

  function EffortIndex(efforts: seq<Effort>, id: Id, firm: Id, n: nat): (i: int)
    requires n <= |efforts|
    ensures -1 <= i < n
    ensures i >= 0 ==> efforts[i].id == id && efforts[i].firm == firm
  {
    LastWhere(efforts, (e: Effort) => e.id == id && e.firm == firm, n)
  }

  function Max0(x: real): real {
    if x < 0.0 then 0.0 else x
  }

  function CreateReply(b: Books, actor: Actor, caseId: Id, minutes: real, wellFormed: bool): Reply {
    var c := CaseIndex(b.cases, caseId, actor.firm, |b.cases|);
    if c < 0 then NotFound
    else if b.cases[c].clientId in actor.restricted then Forbidden
    else if minutes < 1.0 || !wellFormed then Invalid
    else Done
  }

  function AddMinutes(cases: seq<Case>, c: nat, minutes: real): seq<Case>
    requires c < |cases|
  {
    cases[c := cases[c].(actualMinutes := cases[c].actualMinutes + minutes)]
  }

  function TakeMinutes(cases: seq<Case>, c: nat, minutes: real): seq<Case>
    requires c < |cases|
  {
    cases[c := cases[c].(actualMinutes := Max0(cases[c].actualMinutes - minutes))]
  }

  function Create(b: Books, actor: Actor, newId: Id, caseId: Id, minutes: real, wellFormed: bool): Books {
    if CreateReply(b, actor, caseId, minutes, wellFormed).Done?
    then Books(AddMinutes(b.cases, CaseIndex(b.cases, caseId, actor.firm, |b.cases|), minutes),
               b.efforts + [Effort(newId, actor.firm, caseId, actor.user, minutes)])
    else b
  }

  function DeleteReply(b: Books, actor: Actor, id: Id): Reply {
    var e := EffortIndex(b.efforts, id, actor.firm, |b.efforts|);
    if e < 0 then NotFound
    else if b.efforts[e].user != actor.user && !actor.isAdmin then Forbidden
    else Done
  }

  function Delete(b: Books, actor: Actor, id: Id): Books {
    if DeleteReply(b, actor, id).Done? then
      var e := EffortIndex(b.efforts, id, actor.firm, |b.efforts|);
      var c := CaseIndex(b.cases, b.efforts[e].caseId, actor.firm, |b.cases|);
      Books(if c >= 0 then TakeMinutes(b.cases, c, b.efforts[e].minutes) else b.cases,
            b.efforts[..e] + b.efforts[e + 1..])
    else b
  }

  /** The dockets and effort entries the handlers work on. */
  class Ledger {
    var cases: seq<Case>
    var efforts: seq<Effort>

    function Value(): Books
      reads this
    {
      Books(cases, efforts)
    }

    constructor (cases: seq<Case>)
      ensures Value() == Books(cases, [])
    {
      this.cases, this.efforts := cases, [];
    }

    /** createDocketEffort. `wellFormed` stands for the schema's other demands on the entry. */
    method CreateDocketEffort(actor: Actor, newId: Id, caseId: Id, minutes: real, wellFormed: bool)
      returns (reply: Reply)
      modifies this
      ensures reply == CreateReply(old(Value()), actor, caseId, minutes, wellFormed)
      ensures Value() == Create(old(Value()), actor, newId, caseId, minutes, wellFormed)
    {
      var c := CaseIndex(cases, caseId, actor.firm, |cases|);
      if c < 0 { return NotFound; }
      if cases[c].clientId in actor.restricted { return Forbidden; }
      if minutes < 1.0 || !wellFormed { return Invalid; }
      efforts := efforts + [Effort(newId, actor.firm, caseId, actor.user, minutes)];
      cases := cases[c := cases[c].(actualMinutes := cases[c].actualMinutes + minutes)];
      reply := Done;
    }

    /** deleteDocketEffort. */
    method DeleteDocketEffort(actor: Actor, id: Id) returns (reply: Reply)
      modifies this
      ensures reply == DeleteReply(old(Value()), actor, id)
      ensures Value() == Delete(old(Value()), actor, id)
    {
      var e := EffortIndex(efforts, id, actor.firm, |efforts|);
      if e < 0 { return NotFound; }
      var effort := efforts[e];
      if effort.user != actor.user && !actor.isAdmin { return Forbidden; }
      var c := CaseIndex(cases, effort.caseId, actor.firm, |cases|);
      if c >= 0 {
        cases := cases[c := cases[c].(actualMinutes := Max0(cases[c].actualMinutes - effort.minutes))];
      }
      efforts := efforts[..e] + efforts[e + 1..];
      reply := Done;
    }
  }

  // ---------------------------------------------------------------- the invariant

  /** The minutes logged on a case. */
  function Logged(efforts: seq<Effort>, caseId: Id): real {
    if efforts == [] then 0.0
    else Logged(efforts[..|efforts| - 1], caseId)
         + (if efforts[|efforts| - 1].caseId == caseId then efforts[|efforts| - 1].minutes else 0.0)
  }

  predicate UniqueCases(cases: seq<Case>) {
    forall i, j :: 0 <= i < j < |cases| ==> cases[i].id != cases[j].id
  }

  /** Every entry is positive and belongs to a case of its own firm. */
  ghost predicate Attached(b: Books) {
    forall k :: 0 <= k < |b.efforts| ==>
      b.efforts[k].minutes > 0.0 && CaseIndex(b.cases, b.efforts[k].caseId, b.efforts[k].firm, |b.cases|) >= 0
  }

  /** Every running total is the sum of the case's live entries. */
  predicate Balanced(b: Books) {
    forall i :: 0 <= i < |b.cases| ==> b.cases[i].actualMinutes == Logged(b.efforts, b.cases[i].id)
  }

  ghost predicate Sound(b: Books) {
    UniqueCases(b.cases) && Attached(b) && Balanced(b)
  }

  lemma LoggedSnoc(efforts: seq<Effort>, e: Effort, caseId: Id)
    ensures Logged(efforts + [e], caseId) == Logged(efforts, caseId) + if e.caseId == caseId then e.minutes else 0.0
  {
    assert (efforts + [e])[..|efforts|] == efforts;
  }

  /** Removing one entry takes its minutes from its own case's sum and from no other. */
  lemma {:induction false} LoggedRemove(efforts: seq<Effort>, e: nat, caseId: Id)
    requires e < |efforts|
    ensures Logged(efforts[..e] + efforts[e + 1..], caseId)
         == Logged(efforts, caseId) - if efforts[e].caseId == caseId then efforts[e].minutes else 0.0
    decreases |efforts|
  {
    var n := |efforts| - 1;
    if e == n {
      assert efforts[..e] + efforts[e + 1..] == efforts[..n];
    } else {
      LoggedRemove(efforts[..n], e, caseId);
      assert efforts[..n][..e] == efforts[..e];
      assert efforts[..e] + efforts[e + 1..] == (efforts[..e] + efforts[..n][e + 1..]) + [efforts[n]];
      LoggedSnoc(efforts[..e] + efforts[..n][e + 1..], efforts[n], caseId);
      assert efforts == efforts[..n] + [efforts[n]];
      LoggedSnoc(efforts[..n], efforts[n], caseId);
      hide Logged;
    }
  }

  lemma {:induction false} LoggedNonNegative(efforts: seq<Effort>, caseId: Id)
    requires forall k :: 0 <= k < |efforts| ==> efforts[k].minutes > 0.0
    ensures Logged(efforts, caseId) >= 0.0
    decreases |efforts|
  {
    if efforts != [] {
      LoggedNonNegative(efforts[..|efforts| - 1], caseId);
    }
  }

  lemma CaseIndexIgnoresMinutes(a: seq<Case>, b: seq<Case>, id: Id, firm: Id, n: nat)
    requires n <= |a| == |b| && forall i :: 0 <= i < |a| ==> a[i].id == b[i].id && a[i].firm == b[i].firm
    ensures CaseIndex(a, id, firm, n) == CaseIndex(b, id, firm, n)
  {
    var i, j := CaseIndex(a, id, firm, n), CaseIndex(b, id, firm, n);
    assert !(i < j) && !(j < i);
  }

  lemma CreateKeeps(b: Books, actor: Actor, newId: Id, caseId: Id, minutes: real, wellFormed: bool)
    requires Sound(b)
    ensures Sound(Create(b, actor, newId, caseId, minutes, wellFormed))
  {
    var b' := Create(b, actor, newId, caseId, minutes, wellFormed);
    if CreateReply(b, actor, caseId, minutes, wellFormed).Done? {
      var c := CaseIndex(b.cases, caseId, actor.firm, |b.cases|);
      forall k | 0 <= k < |b'.efforts|
        ensures CaseIndex(b'.cases, b'.efforts[k].caseId, b'.efforts[k].firm, |b'.cases|) >= 0
      {
        CaseIndexIgnoresMinutes(b.cases, b'.cases, b'.efforts[k].caseId, b'.efforts[k].firm, |b.cases|);
      }
      forall i | 0 <= i < |b'.cases| ensures b'.cases[i].actualMinutes == Logged(b'.efforts, b'.cases[i].id) {
        LoggedSnoc(b.efforts, b'.efforts[|b.efforts|], b.cases[i].id);
        assert i != c ==> b.cases[i].id != b.cases[c].id;
      }
    }
  }

  /** On sound books a deletion never clamps: the total stays at least the minutes taken away. */
  lemma DeleteNeverClamps(b: Books, actor: Actor, id: Id)
    requires Sound(b) && DeleteReply(b, actor, id).Done?
    ensures var e := EffortIndex(b.efforts, id, actor.firm, |b.efforts|);
      var c := CaseIndex(b.cases, b.efforts[e].caseId, actor.firm, |b.cases|);
      c >= 0 && Max0(b.cases[c].actualMinutes - b.efforts[e].minutes) == b.cases[c].actualMinutes - b.efforts[e].minutes
  {
    var e := EffortIndex(b.efforts, id, actor.firm, |b.efforts|);
    LoggedRemove(b.efforts, e, b.efforts[e].caseId);
    LoggedNonNegative(b.efforts[..e] + b.efforts[e + 1..], b.efforts[e].caseId);
  }

  lemma DeleteAttached(b: Books, actor: Actor, id: Id)
    requires Sound(b) && DeleteReply(b, actor, id).Done?
    ensures Attached(Delete(b, actor, id)) && UniqueCases(Delete(b, actor, id).cases)
  {
    hide Logged, Balanced;
    var b' := Delete(b, actor, id);
    var e := EffortIndex(b.efforts, id, actor.firm, |b.efforts|);
    forall k | 0 <= k < |b'.efforts|
      ensures b'.efforts[k].minutes > 0.0
      ensures CaseIndex(b'.cases, b'.efforts[k].caseId, b'.efforts[k].firm, |b'.cases|) >= 0
    {
      assert b'.efforts[k] == if k < e then b.efforts[k] else b.efforts[k + 1];
      CaseIndexIgnoresMinutes(b.cases, b'.cases, b'.efforts[k].caseId, b'.efforts[k].firm, |b.cases|);
    }
  }

  lemma DeleteBalanced(b: Books, actor: Actor, id: Id)
    requires Sound(b) && DeleteReply(b, actor, id).Done?
    ensures Balanced(Delete(b, actor, id))
  {
    var b' := Delete(b, actor, id);
    var e := EffortIndex(b.efforts, id, actor.firm, |b.efforts|);
    DeleteNeverClamps(b, actor, id);
    var c := CaseIndex(b.cases, b.efforts[e].caseId, actor.firm, |b.cases|);
    hide Logged, CaseIndex, EffortIndex, Attached;
    forall i | 0 <= i < |b'.cases| ensures b'.cases[i].actualMinutes == Logged(b'.efforts, b'.cases[i].id) {
      LoggedRemove(b.efforts, e, b.cases[i].id);
      assert i != c ==> b.cases[i].id != b.cases[c].id;
    }
  }

  lemma DeleteKeeps(b: Books, actor: Actor, id: Id)
    requires Sound(b)
    ensures Sound(Delete(b, actor, id))
  {
    if DeleteReply(b, actor, id).Done? {
      DeleteAttached(b, actor, id);
      DeleteBalanced(b, actor, id);
    }
  }

  // ---------------------------------------------------------------- runs

  datatype Request =
    | CreateEffort(actor: Actor, newId: Id, caseId: Id, minutes: real, wellFormed: bool)
    | DeleteEffort(actor: Actor, id: Id)

  function Apply(b: Books, r: Request): Books {
    match r
    case CreateEffort(actor, newId, caseId, minutes, wellFormed) => Create(b, actor, newId, caseId, minutes, wellFormed)
    case DeleteEffort(actor, id) => Delete(b, actor, id)
  }

  function Run(b: Books, requests: seq<Request>): Books {
    if requests == [] then b else Apply(Run(b, requests[..|requests| - 1]), requests[|requests| - 1])
  }

  /** Dockets of any firms, nothing logged yet. */
  predicate Fresh(b: Books) {
    UniqueCases(b.cases) && b.efforts == [] && forall i :: 0 <= i < |b.cases| ==> b.cases[i].actualMinutes == 0.0
  }

  /** Over every sequential run of creations and deletions each case's running total equals the sum
      of its live entries. */
  lemma {:induction false} TotalsAreSums(b: Books, requests: seq<Request>)
    requires Fresh(b)
    ensures Sound(Run(b, requests))
    decreases |requests|
  {
    if requests != [] {
      var n := |requests| - 1;
      TotalsAreSums(b, requests[..n]);
      var before := Run(b, requests[..n]);
      match requests[n] {
        case CreateEffort(actor, newId, caseId, minutes, wellFormed) =>
          CreateKeeps(before, actor, newId, caseId, minutes, wellFormed);
        case DeleteEffort(actor, id) =>
          DeleteKeeps(before, actor, id);
      }
    }
  }

  /** Deleting the entry just created restores the books. */
  lemma CreateThenDelete(b: Books, actor: Actor, newId: Id, caseId: Id, minutes: real, wellFormed: bool)
    requires Sound(b) && CreateReply(b, actor, caseId, minutes, wellFormed).Done?
    ensures Delete(Create(b, actor, newId, caseId, minutes, wellFormed), actor, newId) == b
  {
    var b' := Create(b, actor, newId, caseId, minutes, wellFormed);
    var n := |b.efforts|;
    assert EffortIndex(b'.efforts, newId, actor.firm, n + 1) == n;
    CaseIndexIgnoresMinutes(b.cases, b'.cases, caseId, actor.firm, |b.cases|);
    var c := CaseIndex(b.cases, caseId, actor.firm, |b.cases|);
    LoggedNonNegative(b.efforts, caseId);
    assert b'.efforts[..n] + b'.efforts[n + 1..] == b.efforts;
    assert Delete(b', actor, newId).cases == b.cases;
  }

  /** So at the end of any run: a creation that is granted adds its entry, and deleting that entry next
      takes the books back to where they were. */
  lemma RunCreateThenDelete(b: Books, requests: seq<Request>, actor: Actor, newId: Id, caseId: Id, minutes: real)
    requires Fresh(b) && CreateReply(Run(b, requests), actor, caseId, minutes, true).Done?
    ensures var created := requests + [CreateEffort(actor, newId, caseId, minutes, true)];
      && Run(b, created).efforts == Run(b, requests).efforts + [Effort(newId, actor.firm, caseId, actor.user, minutes)]
      && Run(b, created + [DeleteEffort(actor, newId)]) == Run(b, requests)
  {
    var n := |requests|;
    var created := requests + [CreateEffort(actor, newId, caseId, minutes, true)];
    var deleted := created + [DeleteEffort(actor, newId)];
    assert created[..n] == requests && deleted[..n + 1] == created;
    assert Run(b, created) == Apply(Run(b, requests), created[n]);
    assert Run(b, deleted) == Apply(Run(b, created), deleted[n + 1]);
    hide Run;
    TotalsAreSums(b, requests);
    CreateThenDelete(Run(b, requests), actor, newId, caseId, minutes, true);
  }

  // ---------------------------------------------------------------- what a caller is told, and what is written

  /** The firm's docket of this id. */
  predicate IsDocket(c: Case, id: Id, firm: Id) {
    c.id == id && c.firm == firm
  }

  predicate HasDocket(b: Books, id: Id, firm: Id) {
    exists i :: 0 <= i < |b.cases| && IsDocket(b.cases[i], id, firm)
  }

  /** The docket is the firm's, for a client that is closed to the caller. */
  predicate ClosedTo(b: Books, actor: Actor, id: Id) {
    exists i :: 0 <= i < |b.cases| && IsDocket(b.cases[i], id, actor.firm) && b.cases[i].clientId in actor.restricted
  }

  /** Creating: the docket must be the caller's firm's, its client open to the caller, and the entry
      at least a minute. Then one entry is added, the caller's, and the docket's own total grows by
      its minutes; otherwise nothing changes. */
  lemma CreateIsTold(b: Books, actor: Actor, newId: Id, caseId: Id, minutes: real, wellFormed: bool)
    requires UniqueCases(b.cases)
    ensures var reply := CreateReply(b, actor, caseId, minutes, wellFormed);
      var b' := Create(b, actor, newId, caseId, minutes, wellFormed);
      var open_ := HasDocket(b, caseId, actor.firm) && !ClosedTo(b, actor, caseId);
      && (reply == NotFound <==> !HasDocket(b, caseId, actor.firm))
      && (reply == Forbidden <==> ClosedTo(b, actor, caseId))
      && (reply == Invalid <==> open_ && !(minutes >= 1.0 && wellFormed))
      && (reply == Done <==> open_ && minutes >= 1.0 && wellFormed)
      && (reply != Done ==> b' == b)
      && (reply == Done ==>
          && b'.efforts == b.efforts + [Effort(newId, actor.firm, caseId, actor.user, minutes)]
          && |b'.cases| == |b.cases|
          && forall i :: 0 <= i < |b.cases| ==>
              b'.cases[i] == if IsDocket(b.cases[i], caseId, actor.firm)
                             then b.cases[i].(actualMinutes := b.cases[i].actualMinutes + minutes) else b.cases[i])
  {
    var c := CaseIndex(b.cases, caseId, actor.firm, |b.cases|);
    assert forall i :: 0 <= i < |b.cases| && c >= 0 && i != c ==> b.cases[i].id != b.cases[c].id;
  }

  predicate UniqueEfforts(b: Books) {
    forall i, j :: 0 <= i < j < |b.efforts| ==> b.efforts[i].id != b.efforts[j].id
  }

  /** Deleting entry `e` of the books: the caller's firm must own it, and the caller must have logged
      it or be an admin. Then that entry goes, and its docket's own total falls by its minutes;
      otherwise nothing changes. */
  lemma DeleteIsTold(b: Books, actor: Actor, e: nat)
    requires Sound(b) && UniqueEfforts(b) && e < |b.efforts|
    ensures var entry := b.efforts[e];
      var reply := DeleteReply(b, actor, entry.id);
      var b' := Delete(b, actor, entry.id);
      && (reply == NotFound <==> entry.firm != actor.firm)
      && (reply == Forbidden <==> entry.firm == actor.firm && entry.user != actor.user && !actor.isAdmin)
      && (reply == Done <==> entry.firm == actor.firm && (entry.user == actor.user || actor.isAdmin))
      && (reply != Done ==> b' == b)
      && (reply == Done ==>
          && b'.efforts == b.efforts[..e] + b.efforts[e + 1..]
          && |b'.cases| == |b.cases|
          && forall i :: 0 <= i < |b.cases| ==>
              b'.cases[i] == if IsDocket(b.cases[i], entry.caseId, actor.firm)
                             then b.cases[i].(actualMinutes := b.cases[i].actualMinutes - entry.minutes)
                             else b.cases[i])
  {
    hide Logged;
    var entry := b.efforts[e];
    var at := EffortIndex(b.efforts, entry.id, actor.firm, |b.efforts|);
    assert at >= 0 ==> !(at < e) && !(e < at);
    if DeleteReply(b, actor, entry.id).Done? {
      DeleteNeverClamps(b, actor, entry.id);
      var c := CaseIndex(b.cases, entry.caseId, actor.firm, |b.cases|);
      assert forall i :: 0 <= i < |b.cases| && i != c ==> b.cases[i].id != b.cases[c].id;
    }
  }

  /** Whatever the books, a deletion leaves the docket's total the difference, or zero where that
      would be negative. */
  lemma NeverNegative(b: Books, actor: Actor, id: Id, i: nat)
    requires i < |b.cases| && DeleteReply(b, actor, id).Done? && Delete(b, actor, id).cases[i] != b.cases[i]
    ensures var e := EffortIndex(b.efforts, id, actor.firm, |b.efforts|);
      var left := b.cases[i].actualMinutes - b.efforts[e].minutes;
      var total := Delete(b, actor, id).cases[i].actualMinutes;
      total >= 0.0 && total >= left && (total == left || total == 0.0)
  {
  }

  /** An id no entry has is not found. */
  lemma UnknownEntry(b: Books, actor: Actor, id: Id)
    requires forall k :: 0 <= k < |b.efforts| ==> b.efforts[k].id != id
    ensures DeleteReply(b, actor, id) == NotFound && Delete(b, actor, id) == b
  {
  }
}
