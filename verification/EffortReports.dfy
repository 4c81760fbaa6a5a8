/** The profitability report: entries and dockets grouped under labels, with running totals. */
module EffortReports {
  import opened EffortLedger
  import opened Sequences

  /** What one entry or docket adds to the group of its label. */
  datatype Item = Item(key: string, actual: real, expected: real)

  datatype Group = Group(key: string, actual: real, expected: real, count: nat)

  /** A row of the obligation variance. */
  datatype Variance = Variance(group: Group, variance: real, averageExpected: int, averageActual: int)

  datatype Report = Report(clients: seq<Group>, serviceLines: seq<Group>, obligations: seq<Variance>)

  // ---------------------------------------------------------------- what a grouping means

  function ActualFor(items: seq<Item>, key: string): real {
    if items == [] then 0.0
    else
      var last := items[|items| - 1];
      ActualFor(items[..|items| - 1], key) + if last.key == key then last.actual else 0.0
  }

  function ExpectedFor(items: seq<Item>, key: string): real {
    if items == [] then 0.0
    else
      var last := items[|items| - 1];
      ExpectedFor(items[..|items| - 1], key) + if last.key == key then last.expected else 0.0
  }

  function CountFor(items: seq<Item>, key: string): nat {
    if items == [] then 0
    else CountFor(items[..|items| - 1], key) + if items[|items| - 1].key == key then 1 else 0
  }

  function Whole(items: seq<Item>, key: string): Group {
    Group(key, ActualFor(items, key), ExpectedFor(items, key), CountFor(items, key))
  }

  predicate HasGroup(groups: seq<Group>, key: string) {
    exists i :: 0 <= i < |groups| && groups[i].key == key
  }

  /** One group for each label that occurs, holding everything under that label. */
  ghost predicate Groups(groups: seq<Group>, items: seq<Item>) {
    && (forall i, j :: 0 <= i < j < |groups| ==> groups[i].key != groups[j].key)
    && (forall i :: 0 <= i < |groups| ==> groups[i] == Whole(items, groups[i].key) && groups[i].count > 0)
    && (forall k :: 0 <= k < |items| ==> HasGroup(groups, items[k].key))
  }

  predicate Descending(groups: seq<Group>) {
    forall i, j :: 0 <= i < j < |groups| ==> groups[i].actual >= groups[j].actual
  }

  function Total(groups: seq<Group>): real {
    if groups == [] then 0.0 else Total(groups[..|groups| - 1]) + groups[|groups| - 1].actual
  }

  function TotalCount(groups: seq<Group>): nat {
    if groups == [] then 0 else TotalCount(groups[..|groups| - 1]) + groups[|groups| - 1].count
  }

  function Sum(items: seq<Item>): real {
    if items == [] then 0.0 else Sum(items[..|items| - 1]) + items[|items| - 1].actual
  }

  lemma {:induction false} AbsentLabel(items: seq<Item>, key: string)
    requires forall k :: 0 <= k < |items| ==> items[k].key != key
    ensures Whole(items, key) == Group(key, 0.0, 0.0, 0)
    decreases |items|
  {
    if items != [] {
      AbsentLabel(items[..|items| - 1], key);
    }
  }

  function Plus(g: Group, actual: real, expected: real): Group {
    Group(g.key, g.actual + actual, g.expected + expected, g.count + 1)
  }

  lemma WholeSnoc(items: seq<Item>, last: Item, key: string)
    ensures Whole(items + [last], key)
         == if last.key == key then Plus(Whole(items, key), last.actual, last.expected) else Whole(items, key)
  {
    assert (items + [last])[..|items|] == items;
  }

  /** The items left once one label is taken out. */
  function Without(items: seq<Item>, key: string): seq<Item> {
    if items == [] then []
    else
      var rest := Without(items[..|items| - 1], key);
      var last := items[|items| - 1];
      if last.key == key then rest else rest + [last]
  }

  lemma {:induction false} RestMembers(items: seq<Item>, key: string)
    ensures forall k :: 0 <= k < |Without(items, key)| ==>
        Without(items, key)[k] in items && Without(items, key)[k].key != key
    decreases |items|
  {
    if items != [] {
      RestMembers(items[..|items| - 1], key);
    }
  }

  lemma SumNext(items: seq<Item>, last: Item)
    ensures Sum(items + [last]) == Sum(items) + last.actual
  {
    assert (items + [last])[..|items|] == items;
  }

  lemma {:induction false} TakeOut(items: seq<Item>, key: string)
    ensures Sum(items) == Sum(Without(items, key)) + ActualFor(items, key)
    ensures |items| == |Without(items, key)| + CountFor(items, key)
    decreases |items|
  {
    if items != [] {
      var n := |items| - 1;
      TakeOut(items[..n], key);
      assert items == items[..n] + [items[n]];
      SumNext(items[..n], items[n]);
      SumNext(Without(items[..n], key), items[n]);
      hide Sum;
    }
  }

  lemma {:induction false} TakeOutKeeps(items: seq<Item>, key: string, other: string)
    requires other != key
    ensures Whole(Without(items, key), other) == Whole(items, other)
    decreases |items|
  {
    if items != [] {
      var n := |items| - 1;
      TakeOutKeeps(items[..n], key, other);
      assert items == items[..n] + [items[n]];
      WholeSnoc(items[..n], items[n], other);
      WholeSnoc(Without(items[..n], key), items[n], other);
      hide Whole;
    }
  }

  lemma DropGroup(groups: seq<Group>, items: seq<Item>)
    requires Groups(groups, items) && groups != []
    ensures var n := |groups| - 1; Groups(groups[..n], Without(items, groups[n].key))
  {
    var n := |groups| - 1;
    var key := groups[n].key;
    var rest := Without(items, key);
    RestMembers(items, key);
    forall i | 0 <= i < n ensures groups[..n][i] == Whole(rest, groups[..n][i].key) {
      TakeOutKeeps(items, key, groups[i].key);
    }
    hide Whole, Without;
    forall k | 0 <= k < |rest| ensures HasGroup(groups[..n], rest[k].key) {
      var j :| 0 <= j < |items| && items[j] == rest[k];
      var i := GroupOf(groups, items, j);
      assert groups[..n][i].key == rest[k].key;
    }
  }

  /** A grouping loses nothing: the groups add up to the items, in minutes and in number. */
  lemma {:induction false} GroupsKeepTotals(groups: seq<Group>, items: seq<Item>)
    requires Groups(groups, items)
    ensures Total(groups) == Sum(items) && TotalCount(groups) == |items|
    decreases |groups|
  {
    if groups == [] {
      if items != [] { var a := GroupOf(groups, items, 0); }
    } else {
      var n := |groups| - 1;
      var rest := Without(items, groups[n].key);
      DropGroup(groups, items);
      TakeOut(items, groups[n].key);
      GroupsKeepTotals(groups[..n], rest);
      hide Without, ActualFor, ExpectedFor, CountFor, Sum;
    }
  }

  // ---------------------------------------------------------------- the accumulator

  /** The object a report accumulates into: a group for each label, created at its first use. */
  class Tally {
    var order: seq<string>
    var groups: map<string, Group>
    ghost var items: seq<Item>

    ghost predicate Valid()
      reads this
    {
      && (forall i :: 0 <= i < |order| ==> order[i] in groups)
      && (forall i, j :: 0 <= i < j < |order| ==> order[i] != order[j])
      && (forall l :: l in groups ==> l in order && groups[l] == Whole(items, l) && groups[l].count > 0)
      && (forall k :: 0 <= k < |items| ==> items[k].key in groups)
    }

    constructor ()
      ensures Valid() && items == []
    {
      order, groups, items := [], map[], [];
    }

    method Add(key: string, actual: real, expected: real)
      requires Valid()
      modifies this
      ensures Valid() && items == old(items) + [Item(key, actual, expected)]
    {
      hide Whole;
      if key !in groups {
        AbsentLabel(items, key);
        order := order + [key];
        groups := groups[key := Group(key, 0.0, 0.0, 0)];
      }
      groups := groups[key := Plus(groups[key], actual, expected)];
      forall l ensures Whole(items + [Item(key, actual, expected)], l)
                    == if key == l then Plus(Whole(items, l), actual, expected) else Whole(items, l)
      {
        WholeSnoc(items, Item(key, actual, expected), l);
      }
      items := items + [Item(key, actual, expected)];
    }

    /** Object.values: the groups in the order they were created. */
    method Values() returns (values: seq<Group>)
      requires Valid()
      ensures Groups(values, items)
    {
      values := [];
      var i := 0;
      while i < |order|
        invariant 0 <= i <= |order| && |values| == i
        invariant forall k :: 0 <= k < i ==> values[k] == groups[order[k]]
      {
        values := values + [groups[order[i]]];
        i := i + 1;
      }
      forall k | 0 <= k < |items| ensures HasGroup(values, items[k].key) {
        var j :| 0 <= j < |order| && order[j] == items[k].key;
        assert values[j].key == items[k].key;
      }
    }
  }

  // ---------------------------------------------------------------- sorting

  function Insert(g: Group, sorted: seq<Group>): seq<Group> {
    if sorted == [] then [g]
    else if g.actual > sorted[|sorted| - 1].actual then Insert(g, sorted[..|sorted| - 1]) + [sorted[|sorted| - 1]]
    else sorted + [g]
  }

  /** The order by falling minutes; equal groups keep their order. */
  function Sorted(groups: seq<Group>): seq<Group> {
    if groups == [] then [] else Insert(groups[|groups| - 1], Sorted(groups[..|groups| - 1]))
  }

  lemma {:induction false} InsertMultiset(g: Group, sorted: seq<Group>)
    ensures multiset(Insert(g, sorted)) == multiset(sorted) + multiset{g}
    decreases |sorted|
  {
    if sorted != [] {
      var n := |sorted| - 1;
      assert sorted == sorted[..n] + [sorted[n]];
      InsertMultiset(g, sorted[..n]);
    }
  }

  predicate AtLeast(groups: seq<Group>, bound: real) {
    forall i :: 0 <= i < |groups| ==> groups[i].actual >= bound
  }

  lemma {:induction false} InsertDescends(g: Group, sorted: seq<Group>, bound: real)
    requires Descending(sorted) && AtLeast(sorted, bound) && g.actual >= bound
    ensures Descending(Insert(g, sorted)) && AtLeast(Insert(g, sorted), bound)
    decreases |sorted|
  {
    if sorted != [] {
      var n := |sorted| - 1;
      if g.actual > sorted[n].actual {
        InsertDescends(g, sorted[..n], sorted[n].actual);
      }
    }
  }

  lemma {:induction false} SortedKeeps(groups: seq<Group>)
    ensures Descending(Sorted(groups)) && multiset(Sorted(groups)) == multiset(groups)
    decreases |groups|
  {
    if groups != [] {
      var n := |groups| - 1;
      assert groups == groups[..n] + [groups[n]];
      SortedKeeps(groups[..n]);
      var before := Sorted(groups[..n]);
      InsertMultiset(groups[n], before);
      var least := if before == [] then groups[n].actual else before[|before| - 1].actual;
      InsertDescends(groups[n], before, if groups[n].actual < least then groups[n].actual else least);
    }
  }

  lemma GroupOf(groups: seq<Group>, items: seq<Item>, k: nat) returns (a: nat)
    requires Groups(groups, items) && k < |items|
    ensures a < |groups| && groups[a].key == items[k].key
  {
    hide Whole;
    assert HasGroup(groups, items[k].key);
    a :| 0 <= a < |groups| && groups[a].key == items[k].key;
  }

  lemma Elsewhere(groups: seq<Group>, others: seq<Group>, a: nat) returns (b: nat)
    requires multiset(groups) == multiset(others) && a < |groups|
    ensures b < |others| && others[b] == groups[a]
  {
    assert groups[a] in multiset(others);
    b :| 0 <= b < |others| && others[b] == groups[a];
  }

  /** Sorting keeps a grouping a grouping. */
  lemma SortedGroups(groups: seq<Group>, items: seq<Item>)
    requires Groups(groups, items)
    ensures Groups(Sorted(groups), items) && Descending(Sorted(groups))
  {
    hide Whole, Sorted;
    var sorted := Sorted(groups);
    SortedKeeps(groups);
    forall i | 0 <= i < |sorted| ensures sorted[i] == Whole(items, sorted[i].key) && sorted[i].count > 0 {
      var a := Elsewhere(sorted, groups, i);
    }
    forall k | 0 <= k < |items| ensures HasGroup(sorted, items[k].key) {
      var a := GroupOf(groups, items, k);
      var i := Elsewhere(groups, sorted, a);
    }
    assert Distinct(groups);
    RearrangedDistinct(groups, sorted);
    forall i, j | 0 <= i < j < |sorted| ensures sorted[i].key != sorted[j].key {
      var a := Elsewhere(sorted, groups, i);
      var b := Elsewhere(sorted, groups, j);
      assert groups[if a < b then a else b].key != groups[if a < b then b else a].key;
    }
  }

  // ---------------------------------------------------------------- the report

  datatype Found = Found(docket: Case) | Unknown

  function Last(cases: seq<Case>, id: Id): Found {
    if cases == [] then Unknown
    else if cases[|cases| - 1].id == id then Found(cases[|cases| - 1])
    else Last(cases[..|cases| - 1], id)
  }

  function First(cases: seq<Case>, id: Id): Found {
    if cases == [] then Unknown
    else if cases[0].id == id then Found(cases[0])
    else First(cases[1..], id)
  }

  lemma {:induction false} LastMeaning(cases: seq<Case>, id: Id)
    ensures match Last(cases, id)
      case Unknown => forall i :: 0 <= i < |cases| ==> cases[i].id != id
      case Found(docket) => exists i :: 0 <= i < |cases| && cases[i] == docket && docket.id == id
    decreases |cases|
  {
    if cases != [] && cases[|cases| - 1].id != id {
      var n := |cases| - 1;
      LastMeaning(cases[..n], id);
      if Last(cases[..n], id).Found? {
        var i :| 0 <= i < n && cases[..n][i] == Last(cases[..n], id).docket;
        assert cases[i] == Last(cases, id).docket;
      }
    }
  }

  lemma {:induction false} FirstMeaning(cases: seq<Case>, id: Id)
    ensures match First(cases, id)
      case Unknown => forall i :: 0 <= i < |cases| ==> cases[i].id != id
      case Found(docket) => exists i :: 0 <= i < |cases| && cases[i] == docket && docket.id == id
    decreases |cases|
  {
    if cases != [] && cases[0].id != id {
      FirstMeaning(cases[1..], id);
      if First(cases[1..], id).Found? {
        var i :| 0 <= i < |cases| - 1 && cases[1..][i] == First(cases[1..], id).docket;
        assert cases[i + 1] == First(cases, id).docket;
      }
    }
  }

  /** The map the report builds, where a later docket overwrites an earlier one, answers every
      look-up as a linear search for the first match would. */
  lemma MapAgreesWithSearch(cases: seq<Case>, id: Id)
    requires UniqueCases(cases)
    ensures Last(cases, id) == First(cases, id)
  {
    LastMeaning(cases, id);
    FirstMeaning(cases, id);
  }

  function OrElse(text: string, fallback: string): string {
    if text == "" then fallback else text
  }

  /** The label of an entry: its docket's client, found by linear search. */
  function ClientKey(cases: seq<Case>, id: Id): string {
    match First(cases, id)
    case Unknown => "Internal / General"
    case Found(docket) => OrElse(docket.clientId, "Internal / General")
  }

  function ClientItems(cases: seq<Case>, efforts: seq<Effort>): seq<Item> {
    seq(|efforts|, i requires 0 <= i < |efforts| => Item(ClientKey(cases, efforts[i].caseId), efforts[i].minutes, 0.0))
  }

  function LineItems(cases: seq<Case>): seq<Item> {
    seq(|cases|, i requires 0 <= i < |cases| =>
      Item(OrElse(cases[i].serviceLine, "OTHER"), cases[i].actualMinutes, cases[i].expectedMinutes))
  }

  /** Math.round of a mean. */
  function RoundedMean(total: real, count: nat): int {
    if count > 0 then (total / count as real + 0.5).Floor else 0
  }

  function VarianceOf(g: Group): Variance {
    Variance(g, g.actual - g.expected, RoundedMean(g.expected, g.count), RoundedMean(g.actual, g.count))
  }

  /** Entry `k` of the report counts with its minutes, under its docket's client, or under the general
      label when the docket is unknown or has none. */
  lemma EntryLabel(cases: seq<Case>, efforts: seq<Effort>, k: nat)
    requires UniqueCases(cases) && k < |efforts|
    ensures var item := ClientItems(cases, efforts)[k];
      && item.actual == efforts[k].minutes
      && (forall i :: 0 <= i < |cases| && cases[i].id == efforts[k].caseId && cases[i].clientId != "" ==>
            item.key == cases[i].clientId)
      && ((forall i :: 0 <= i < |cases| && cases[i].id == efforts[k].caseId ==> cases[i].clientId == "") ==>
            item.key == "Internal / General")
  {
    FirstMeaning(cases, efforts[k].caseId);
    if First(cases, efforts[k].caseId).Found? {
      var at :| 0 <= at < |cases| && cases[at] == First(cases, efforts[k].caseId).docket
          && cases[at].id == efforts[k].caseId;
      forall i | 0 <= i < |cases| && cases[i].id == efforts[k].caseId ensures i == at {
        assert !(i < at) && !(at < i);
      }
    }
  }

  /** Docket `k` counts with its actual and expected minutes, under its service line or as `OTHER`. */
  lemma DocketLabel(cases: seq<Case>, k: nat)
    requires k < |cases|
    ensures var item := LineItems(cases)[k];
      && item.actual == cases[k].actualMinutes && item.expected == cases[k].expectedMinutes
      && (cases[k].serviceLine != "" ==> item.key == cases[k].serviceLine)
      && (cases[k].serviceLine == "" ==> item.key == "OTHER")
  {
  }

  /** A row of the obligation variance: by how much the actual minutes exceed the expected ones, and
      both means, each to the nearest whole minute, halves upwards. */
  lemma VarianceExactly(g: Group)
    requires g.count > 0
    ensures var row := VarianceOf(g);
      && row.group == g && g.expected + row.variance == g.actual
      && row.averageExpected as real - 0.5 <= g.expected / g.count as real < row.averageExpected as real + 0.5
      && row.averageActual as real - 0.5 <= g.actual / g.count as real < row.averageActual as real + 0.5
  {
  }

  method DocketMap(cases: seq<Case>) returns (docketOf: map<Id, Case>)
    ensures forall id :: Last(cases, id) == if id in docketOf then Found(docketOf[id]) else Unknown
  {
    docketOf := map[];
    var i := 0;
    while i < |cases|
      invariant 0 <= i <= |cases|
      invariant forall id :: Last(cases[..i], id) == if id in docketOf then Found(docketOf[id]) else Unknown
    {
      assert cases[..i + 1][..i] == cases[..i];
      docketOf := docketOf[cases[i].id := cases[i]];
      i := i + 1;
    }
    assert cases[..i] == cases;
  }

  method ClientSummary(cases: seq<Case>, efforts: seq<Effort>) returns (summary: seq<Group>)
    requires UniqueCases(cases)
    ensures Groups(summary, ClientItems(cases, efforts)) && Descending(summary)
  {
    hide Last, First, Groups, Descending;
    var docketOf := DocketMap(cases);
    var tally := new Tally();
    var i := 0;
    while i < |efforts|
      invariant 0 <= i <= |efforts| && fresh(tally) && tally.Valid()
      invariant tally.items == ClientItems(cases, efforts)[..i]
    {
      var id := efforts[i].caseId;
      MapAgreesWithSearch(cases, id);
      var clientId := if id in docketOf then docketOf[id].clientId else "";
      tally.Add(if clientId == "" then "Internal / General" else clientId, efforts[i].minutes, 0.0);
      i := i + 1;
    }
    assert tally.items == ClientItems(cases, efforts);
    var values := tally.Values();
    SortedGroups(values, ClientItems(cases, efforts));
    summary := Sorted(values);
  }

  method TallyLines(cases: seq<Case>) returns (values: seq<Group>)
    ensures Groups(values, LineItems(cases))
  {
    var tally := new Tally();
    var i := 0;
    while i < |cases|
      invariant 0 <= i <= |cases| && fresh(tally) && tally.Valid()
      invariant tally.items == LineItems(cases)[..i]
    {
      tally.Add(if cases[i].serviceLine == "" then "OTHER" else cases[i].serviceLine,
        cases[i].actualMinutes, cases[i].expectedMinutes);
      i := i + 1;
    }
    assert tally.items == LineItems(cases);
    values := tally.Values();
  }

  method ServiceLineSummary(cases: seq<Case>) returns (summary: seq<Group>)
    ensures Groups(summary, LineItems(cases)) && Descending(summary)
  {
    var values := TallyLines(cases);
    SortedGroups(values, LineItems(cases));
    summary := Sorted(values);
  }

  function GroupsOf(rows: seq<Variance>): seq<Group> {
    seq(|rows|, i requires 0 <= i < |rows| => rows[i].group)
  }

  method ObligationVariance(cases: seq<Case>) returns (rows: seq<Variance>)
    ensures Groups(GroupsOf(rows), LineItems(cases))
    ensures forall i :: 0 <= i < |rows| ==> rows[i] == VarianceOf(rows[i].group)
  {
    var values := TallyLines(cases);
    rows := seq(|values|, i requires 0 <= i < |values| => VarianceOf(values[i]));
    assert GroupsOf(rows) == values;
  }

  // ---------------------------------------------------------------- the totals agree

  function CasesOf(cases: seq<Case>, firm: Id): seq<Case> {
    if cases == [] then []
    else
      var rest := CasesOf(cases[..|cases| - 1], firm);
      if cases[|cases| - 1].firm == firm then rest + [cases[|cases| - 1]] else rest
  }

  function EffortsOf(efforts: seq<Effort>, firm: Id): seq<Effort> {
    if efforts == [] then []
    else
      var rest := EffortsOf(efforts[..|efforts| - 1], firm);
      if efforts[|efforts| - 1].firm == firm then rest + [efforts[|efforts| - 1]] else rest
  }

  /** Everything logged in a firm. */
  function LoggedIn(efforts: seq<Effort>, firm: Id): real {
    if efforts == [] then 0.0
    else
      var last := efforts[|efforts| - 1];
      LoggedIn(efforts[..|efforts| - 1], firm) + if last.firm == firm then last.minutes else 0.0
  }

  /** What the firm's first n dockets have logged, summed docket by docket. */
  function LoggedOnCases(cases: seq<Case>, n: nat, efforts: seq<Effort>, firm: Id): real
    requires n <= |cases|
  {
    if n == 0 then 0.0
    else LoggedOnCases(cases, n - 1, efforts, firm)
         + if cases[n - 1].firm == firm then Logged(efforts, cases[n - 1].id) else 0.0
  }

  /** A new entry raises the sum over the firm's dockets exactly when one of them is its docket. */
  lemma {:induction false} OneMoreEntry(cases: seq<Case>, n: nat, efforts: seq<Effort>, e: Effort, firm: Id)
    requires n <= |cases| && UniqueCases(cases)
    ensures LoggedOnCases(cases, n, efforts + [e], firm)
         == LoggedOnCases(cases, n, efforts, firm) + if CaseIndex(cases, e.caseId, firm, n) >= 0 then e.minutes else 0.0
  {
    if n > 0 {
      OneMoreEntry(cases, n - 1, efforts, e, firm);
      LoggedSnoc(efforts, e, cases[n - 1].id);
    }
  }

  lemma {:induction false} NothingLogged(cases: seq<Case>, n: nat, firm: Id)
    requires n <= |cases|
    ensures LoggedOnCases(cases, n, [], firm) == 0.0
  {
    if n > 0 {
      NothingLogged(cases, n - 1, firm);
    }
  }

  /** Summing by docket and summing by entry agree. */
  lemma {:induction false} ByDocketIsByEntry(cases: seq<Case>, efforts: seq<Effort>, firm: Id)
    requires UniqueCases(cases) && Attached(Books(cases, efforts))
    ensures LoggedOnCases(cases, |cases|, efforts, firm) == LoggedIn(efforts, firm)
    decreases |efforts|
  {
    if efforts == [] {
      NothingLogged(cases, |cases|, firm);
    } else {
      var n := |efforts| - 1;
      var e := efforts[n];
      assert efforts == efforts[..n] + [e];
      ByDocketIsByEntry(cases, efforts[..n], firm);
      OneMoreEntry(cases, |cases|, efforts[..n], e, firm);
      var own := CaseIndex(cases, e.caseId, e.firm, |cases|);
      var here := CaseIndex(cases, e.caseId, firm, |cases|);
      assert here >= 0 ==> cases[here].id == cases[own].id;
      assert here >= 0 ==> here == own;
    }
  }

  lemma {:induction false} EntriesSum(cases: seq<Case>, efforts: seq<Effort>, firm: Id)
    ensures Sum(ClientItems(cases, EffortsOf(efforts, firm))) == LoggedIn(efforts, firm)
    decreases |efforts|
  {
    if efforts != [] {
      var n := |efforts| - 1;
      EntriesSum(cases, efforts[..n], firm);
      var rest := EffortsOf(efforts[..n], firm);
      if efforts[n].firm == firm {
        var items := ClientItems(cases, rest + [efforts[n]]);
        assert items[..|rest|] == ClientItems(cases, rest);
      }
    }
  }

  lemma {:induction false} DocketsSum(cases: seq<Case>, n: nat, efforts: seq<Effort>, firm: Id)
    requires n <= |cases| && Balanced(Books(cases, efforts))
    ensures Sum(LineItems(CasesOf(cases[..n], firm))) == LoggedOnCases(cases, n, efforts, firm)
  {
    if n > 0 {
      DocketsSum(cases, n - 1, efforts, firm);
      assert cases[..n][..n - 1] == cases[..n - 1];
      var rest := CasesOf(cases[..n - 1], firm);
      if cases[n - 1].firm == firm {
        var items := LineItems(rest + [cases[n - 1]]);
        assert items[..|rest|] == LineItems(rest);
      }
    }
  }

  /** On sound books an unrestricted report's three groupings all add up to the minutes logged in
      the firm, and count every entry and every docket. */
  lemma ReportTotals(b: Books, firm: Id, clients: seq<Group>, lines: seq<Group>, obligations: seq<Variance>)
    requires Sound(b)
    requires Groups(clients, ClientItems(CasesOf(b.cases, firm), EffortsOf(b.efforts, firm)))
    requires Groups(lines, LineItems(CasesOf(b.cases, firm)))
    requires Groups(GroupsOf(obligations), LineItems(CasesOf(b.cases, firm)))
    ensures Total(clients) == Total(lines) == Total(GroupsOf(obligations)) == LoggedIn(b.efforts, firm)
    ensures TotalCount(clients) == |EffortsOf(b.efforts, firm)|
    ensures TotalCount(lines) == TotalCount(GroupsOf(obligations)) == |CasesOf(b.cases, firm)|
  {
    GroupsKeepTotals(clients, ClientItems(CasesOf(b.cases, firm), EffortsOf(b.efforts, firm)));
    GroupsKeepTotals(lines, LineItems(CasesOf(b.cases, firm)));
    GroupsKeepTotals(GroupsOf(obligations), LineItems(CasesOf(b.cases, firm)));
    EntriesSum(CasesOf(b.cases, firm), b.efforts, firm);
    DocketsSum(b.cases, |b.cases|, b.efforts, firm);
    assert b.cases[..|b.cases|] == b.cases;
    ByDocketIsByEntry(b.cases, b.efforts, firm);
  }

  lemma {:induction false} CasesOfUnique(cases: seq<Case>, firm: Id)
    requires UniqueCases(cases)
    ensures UniqueCases(CasesOf(cases, firm)) && forall c :: c in CasesOf(cases, firm) ==> c in cases
    decreases |cases|
  {
    if cases != [] {
      var n := |cases| - 1;
      CasesOfUnique(cases[..n], firm);
      var rest := CasesOf(cases[..n], firm);
      forall c | c in rest ensures c.id != cases[n].id {
        var i :| 0 <= i < n && cases[..n][i] == c;
        assert cases[i].id != cases[n].id;
      }
    }
  }

  /** getProfitabilityReports for a firm, no client restricted: after any run of creations and
      deletions from empty books its three groupings hold the same minutes, all that was logged. */
  method ProfitabilityReport(b: Books, ghost start: Books, ghost requests: seq<Request>, firm: Id)
    returns (report: Report)
    requires Fresh(start) && b == Run(start, requests)
    ensures Descending(report.clients) && Descending(report.serviceLines)
    ensures Groups(report.clients, ClientItems(CasesOf(b.cases, firm), EffortsOf(b.efforts, firm)))
    ensures Groups(report.serviceLines, LineItems(CasesOf(b.cases, firm)))
    ensures Groups(GroupsOf(report.obligations), LineItems(CasesOf(b.cases, firm)))
    ensures forall i :: 0 <= i < |report.obligations| ==>
        report.obligations[i] == VarianceOf(report.obligations[i].group)
    ensures Total(report.clients) == Total(report.serviceLines) == Total(GroupsOf(report.obligations))
         == LoggedIn(b.efforts, firm)
  {
    TotalsAreSums(start, requests);
    var cases, efforts := CasesOf(b.cases, firm), EffortsOf(b.efforts, firm);
    CasesOfUnique(b.cases, firm);
    var clients := ClientSummary(cases, efforts);
    var lines := ServiceLineSummary(cases);
    var obligations := ObligationVariance(cases);
    ReportTotals(b, firm, clients, lines, obligations);
    report := Report(clients, lines, obligations);
  }
}
