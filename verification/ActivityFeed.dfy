/** The paged activity feed of firm settings: two audit collections, each fetched newest first up to
    a bound, are filtered, sorted together and cut to a page. The reference is the same feed built
    from the complete collections. */
module ActivityFeed {

  datatype Source = CaseAudit | AuthAudit
  datatype Item = Item(source: Source, id: nat, timestamp: int)

  predicate NewestFirst(s: seq<Item>) {
    forall i, j :: 0 <= i < j < |s| ==> s[i].timestamp >= s[j].timestamp
  }

  predicate From(s: seq<Item>, source: Source) {
    forall i :: 0 <= i < |s| ==> s[i].source == source
  }

  function Take(s: seq<Item>, n: nat): seq<Item> {
    if n < |s| then s[..n] else s
  }

  /** Array.prototype.slice with non-negative bounds. */
  function Slice(s: seq<Item>, lo: nat, hi: nat): seq<Item>
    requires lo <= hi
  {
    if lo < |s| then Take(s, hi)[lo..] else []
  }

  // ---------------------------------------------------------------- the stable sort

  /** Puts `x` before every item that is not newer. */
  function Insert(x: Item, s: seq<Item>): seq<Item> {
    if s == [] || x.timestamp >= s[0].timestamp then [x] + s else [s[0]] + Insert(x, s[1..])
  }

  /** Array.prototype.sort by descending timestamp; it is stable. */
  function StableSort(s: seq<Item>): seq<Item> {
    if s == [] then [] else Insert(s[0], StableSort(s[1..]))
  }

  /** The items with one timestamp, in order. */
  function At(s: seq<Item>, timestamp: int): seq<Item> {
    if s == [] then []
    else
      var rest := At(s[1..], timestamp);
      if s[0].timestamp == timestamp then [s[0]] + rest else rest
  }

  lemma {:induction false} InsertSorts(x: Item, s: seq<Item>)
    requires NewestFirst(s)
    ensures NewestFirst(Insert(x, s))
    ensures |Insert(x, s)| == |s| + 1
    ensures forall i :: 0 <= i < |s| + 1 ==> Insert(x, s)[i] == x || Insert(x, s)[i] in s
  {
    if s != [] && x.timestamp < s[0].timestamp {
      InsertSorts(x, s[1..]);
    }
  }

  lemma {:induction false} InsertIsStable(x: Item, s: seq<Item>, timestamp: int)
    ensures At(Insert(x, s), timestamp) == if x.timestamp == timestamp then [x] + At(s, timestamp) else At(s, timestamp)
  {
    if s == [] || x.timestamp >= s[0].timestamp {
      assert ([x] + s)[1..] == s;
    } else {
      InsertIsStable(x, s[1..], timestamp);
      assert ([s[0]] + Insert(x, s[1..]))[1..] == Insert(x, s[1..]);
    }
  }

  /** What makes it the stable sort: the result is newest first, and items with equal timestamps are
      the same ones in the same order. */
  lemma {:induction false} StableSortIsStable(s: seq<Item>, timestamp: int)
    ensures NewestFirst(StableSort(s)) && |StableSort(s)| == |s|
    ensures At(StableSort(s), timestamp) == At(s, timestamp)
  {
    if s != [] {
      StableSortIsStable(s[1..], timestamp);
      InsertSorts(s[0], StableSort(s[1..]));
      InsertIsStable(s[0], StableSort(s[1..]), timestamp);
    }
  }

  // ---------------------------------------------------------------- sorting is merging

  /** Two feeds merged, newest first, the first feed winning ties. */
  function Merge(c: seq<Item>, a: seq<Item>): seq<Item>
    decreases |c| + |a|
  {
    if c == [] then a
    else if a == [] then c
    else if c[0].timestamp >= a[0].timestamp then [c[0]] + Merge(c[1..], a)
    else [a[0]] + Merge(c, a[1..])
  }

  lemma {:induction false} InsertMerges(x: Item, c: seq<Item>, a: seq<Item>)
    requires NewestFirst([x] + c) && NewestFirst(a)
    ensures Insert(x, Merge(c, a)) == Merge([x] + c, a)
    decreases |a|
  {
    assert ([x] + c)[1..] == c;
    assert c != [] ==> ([x] + c)[0].timestamp >= ([x] + c)[1].timestamp;
    if a != [] && x.timestamp < a[0].timestamp {
      assert Merge(c, a) == [a[0]] + Merge(c, a[1..]);
      assert ([a[0]] + Merge(c, a[1..]))[1..] == Merge(c, a[1..]);
      InsertMerges(x, c, a[1..]);
    }
  }

  lemma {:induction false} SortedIsSorted(a: seq<Item>)
    requires NewestFirst(a)
    ensures StableSort(a) == a
  {
    if a != [] {
      SortedIsSorted(a[1..]);
    }
  }

  /** Sorting the two sources put end to end merges them. */
  lemma {:induction false} SortIsMerge(c: seq<Item>, a: seq<Item>)
    requires NewestFirst(c) && NewestFirst(a)
    ensures StableSort(c + a) == Merge(c, a)
    decreases |c|
  {
    if c == [] {
      assert c + a == a;
      SortedIsSorted(a);
    } else {
      assert (c + a)[1..] == c[1..] + a;
      SortIsMerge(c[1..], a);
      assert [c[0]] + c[1..] == c;
      InsertMerges(c[0], c[1..], a);
    }
  }

  // ---------------------------------------------------------------- bounded fetches

  function CountFrom(s: seq<Item>, source: Source): nat {
    if s == [] then 0 else (if s[0].source == source then 1 else 0) + CountFrom(s[1..], source)
  }

  lemma {:induction false} CountBound(s: seq<Item>, source: Source)
    ensures CountFrom(s, source) <= |s|
    ensures From(s, source) ==> CountFrom(s, source) == |s|
    ensures From(s, if source.CaseAudit? then AuthAudit else CaseAudit) ==> CountFrom(s, source) == 0
  {
    if s != [] {
      CountBound(s[1..], source);
    }
  }

  lemma TakeCons(x: Item, s: seq<Item>, m: nat)
    requires m > 0
    ensures Take([x] + s, m) == [x] + Take(s, m - 1)
    ensures Take([x] + s, m)[1..] == Take(s, m - 1)
  {
  }

  lemma SameAfterHead(x: Item, s: seq<Item>, t: seq<Item>, m: nat)
    requires m > 0
    ensures Take([x] + t, m) == Take([x] + s, m) <==> Take(t, m - 1) == Take(s, m - 1)
  {
    TakeCons(x, s, m);
    TakeCons(x, t, m);
  }

  /** How many items of each source the first `m` of a merge draw on. */
  function Drawn(c: seq<Item>, a: seq<Item>, m: nat, source: Source): nat {
    CountFrom(Take(Merge(c, a), m), source)
  }

  lemma {:induction false} DrawnCase(c: seq<Item>, a: seq<Item>, n: nat, k: nat, m: nat)
    requires From(c, CaseAudit) && From(a, AuthAudit) && n <= |c| && k <= |a| && m > 0
    requires c != [] && (a == [] || c[0].timestamp >= a[0].timestamp) && n > 0
    ensures Merge(c[..n], a[..k]) == [c[0]] + Merge(c[1..][..n - 1], a[..k])
    ensures Drawn(c, a, m, CaseAudit) == 1 + Drawn(c[1..], a, m - 1, CaseAudit)
    ensures Drawn(c, a, m, AuthAudit) == Drawn(c[1..], a, m - 1, AuthAudit)
  {
    assert c[..n][1..] == c[1..][..n - 1];
    assert Merge(c, a) == [c[0]] + Merge(c[1..], a);
    TakeCons(c[0], Merge(c[1..], a), m);
    if a[..k] == [] {
      assert Merge(c[..n], a[..k]) == [c[0]] + c[1..][..n - 1];
    }
  }

  lemma {:induction false} DrawnAuth(c: seq<Item>, a: seq<Item>, n: nat, k: nat, m: nat)
    requires From(c, CaseAudit) && From(a, AuthAudit) && n <= |c| && k <= |a| && m > 0
    requires a != [] && (c == [] || c[0].timestamp < a[0].timestamp) && k > 0
    ensures Merge(c[..n], a[..k]) == [a[0]] + Merge(c[..n], a[1..][..k - 1])
    ensures Drawn(c, a, m, AuthAudit) == 1 + Drawn(c, a[1..], m - 1, AuthAudit)
    ensures Drawn(c, a, m, CaseAudit) == Drawn(c, a[1..], m - 1, CaseAudit)
  {
    assert a[..k][1..] == a[1..][..k - 1];
    assert Merge(c, a) == [a[0]] + Merge(c, a[1..]);
    TakeCons(a[0], Merge(c, a[1..]), m);
    if c[..n] == [] {
      assert Merge(c[..n], a[..k]) == [a[0]] + a[1..][..k - 1];
    }
  }

  /** An exhausted source is missed as soon as the merge begins with one of its items. */
  lemma PrefixTooShort(c: seq<Item>, a: seq<Item>, n: nat, k: nat, m: nat)
    requires From(c, CaseAudit) && From(a, AuthAudit) && n <= |c| && k <= |a| && m > 0
    requires if c != [] && (a == [] || c[0].timestamp >= a[0].timestamp) then n == 0 else a != [] && k == 0
    ensures Take(Merge(c[..n], a[..k]), m) != Take(Merge(c, a), m)
    ensures !(Drawn(c, a, m, CaseAudit) <= n && Drawn(c, a, m, AuthAudit) <= k)
  {
    var first, short := Take(Merge(c, a), m), Take(Merge(c[..n], a[..k]), m);
    assert first[0] == Merge(c, a)[0];
    assert short != [] ==> short[0] == Merge(c[..n], a[..k])[0];
    if n == 0 && c != [] && (a == [] || c[0].timestamp >= a[0].timestamp) {
      DrawnCase(c, a, 1, k, m);
    } else {
      DrawnAuth(c, a, n, 1, m);
    }
  }

  /** When prefixes of the two sources suffice: the first `m` items of the merge come out right if
      and only if neither source is drawn on beyond its prefix. */
  lemma {:induction false} PrefixesSuffice(c: seq<Item>, a: seq<Item>, n: nat, k: nat, m: nat)
    requires From(c, CaseAudit) && From(a, AuthAudit) && n <= |c| && k <= |a|
    ensures Take(Merge(c[..n], a[..k]), m) == Take(Merge(c, a), m)
      <==> Drawn(c, a, m, CaseAudit) <= n && Drawn(c, a, m, AuthAudit) <= k
    decreases |c| + |a|
  {
    hide Drawn, Take;
    if m == 0 || (c == [] && a == []) {
      NothingDrawn(c, a, n, k, m);
    } else if c != [] && (a == [] || c[0].timestamp >= a[0].timestamp) {
      if n > 0 {
        DrawnCase(c, a, n, k, m);
        assert Merge(c, a) == [c[0]] + Merge(c[1..], a);
        PrefixesSuffice(c[1..], a, n - 1, k, m - 1);
        SameAfterHead(c[0], Merge(c[1..], a), Merge(c[1..][..n - 1], a[..k]), m);
      } else {
        PrefixTooShort(c, a, n, k, m);
      }
    } else if k > 0 {
      DrawnAuth(c, a, n, k, m);
      assert Merge(c, a) == [a[0]] + Merge(c, a[1..]);
      PrefixesSuffice(c, a[1..], n, k - 1, m - 1);
      SameAfterHead(a[0], Merge(c, a[1..]), Merge(c[..n], a[1..][..k - 1]), m);
    } else {
      PrefixTooShort(c, a, n, k, m);
    }
  }

  lemma NothingDrawn(c: seq<Item>, a: seq<Item>, n: nat, k: nat, m: nat)
    requires n <= |c| && k <= |a| && (m == 0 || (c == [] && a == []))
    ensures Take(Merge(c[..n], a[..k]), m) == Take(Merge(c, a), m)
    ensures Drawn(c, a, m, CaseAudit) == 0 && Drawn(c, a, m, AuthAudit) == 0
  {
    assert Take(Merge(c, a), m) == [];
  }

  // ---------------------------------------------------------------- the endpoint

  const FETCH_CAP: nat := 5000

  function FetchLimit(page: nat, limit: nat): nat {
    var wanted := if page * limit < FETCH_CAP then page * limit else FETCH_CAP;
    if limit > wanted then limit else wanted
  }

  /** The auth rows shown: those that pass the route filter. */
  function Keep(shown: Item -> bool, a: seq<Item>): seq<Item> {
    if a == [] then []
    else
      var rest := Keep(shown, a[1..]);
      if shown(a[0]) then [a[0]] + rest else rest
  }

  /** The rows sorted for a page when up to `n` are fetched from each source. */
  function Fetched(c: seq<Item>, a: seq<Item>, shown: Item -> bool, n: nat): seq<Item> {
    StableSort(Take(c, n) + Keep(shown, Take(a, n)))
  }

  /** Where a page starts. */
  function Skip(page: nat, limit: nat): nat
    requires page >= 1
  {
    var before: nat := page - 1;
    before * limit
  }

  /** getFirmSettingsActivity: the rows of one page. */
  function Page(c: seq<Item>, a: seq<Item>, shown: Item -> bool, page: nat, limit: nat): seq<Item>
    requires page >= 1
  {
    Slice(Fetched(c, a, shown, FetchLimit(page, limit)), Skip(page, limit), Skip(page, limit) + limit)
  }

  /** The complete feed. */
  function Feed(c: seq<Item>, a: seq<Item>, shown: Item -> bool): seq<Item> {
    StableSort(c + Keep(shown, a))
  }

  predicate Sources(c: seq<Item>, a: seq<Item>) {
    From(c, CaseAudit) && From(a, AuthAudit) && NewestFirst(c) && NewestFirst(a)
  }

  lemma {:induction false} KeepSource(shown: Item -> bool, a: seq<Item>)
    requires From(a, AuthAudit)
    ensures From(Keep(shown, a), AuthAudit)
  {
    if a != [] {
      KeepSource(shown, a[1..]);
    }
  }

  predicate NoneNewer(s: seq<Item>, timestamp: int) {
    forall i :: 0 <= i < |s| ==> s[i].timestamp <= timestamp
  }

  lemma {:induction false} KeepNoneNewer(shown: Item -> bool, a: seq<Item>, timestamp: int)
    requires NoneNewer(a, timestamp)
    ensures NoneNewer(Keep(shown, a), timestamp)
  {
    if a != [] {
      KeepNoneNewer(shown, a[1..], timestamp);
    }
  }

  lemma {:induction false} KeepOrder(shown: Item -> bool, a: seq<Item>)
    requires NewestFirst(a)
    ensures NewestFirst(Keep(shown, a))
  {
    if a != [] {
      KeepOrder(shown, a[1..]);
      KeepNoneNewer(shown, a[1..], a[0].timestamp);
    }
  }

  /** Filtering a prefix gives a prefix of the filtered rows. */
  lemma {:induction false} KeepPrefix(shown: Item -> bool, a: seq<Item>, n: nat)
    ensures |Keep(shown, Take(a, n))| <= |Keep(shown, a)|
    ensures Keep(shown, Take(a, n)) == Keep(shown, a)[..|Keep(shown, Take(a, n))|]
  {
    if a != [] && n > 0 {
      KeepPrefix(shown, a[1..], n - 1);
      assert Take(a, n)[1..] == Take(a[1..], n - 1);
    }
  }

  /** The exact condition for the rows fetched to be right up to the first `m`: the feed's first `m`
      rows hold no more case rows than were fetched, and no more auth rows than were fetched and
      kept. */
  lemma FetchExactly(c: seq<Item>, a: seq<Item>, shown: Item -> bool, n: nat, m: nat)
    requires Sources(c, a)
    ensures var first := Take(Feed(c, a, shown), m);
      Take(Fetched(c, a, shown, n), m) == first
      <==> CountFrom(first, CaseAudit) <= |Take(c, n)| && CountFrom(first, AuthAudit) <= |Keep(shown, Take(a, n))|
  {
    hide StableSort, Merge, CountFrom, Keep;
    var kept := Keep(shown, a);
    KeepSource(shown, a);
    KeepOrder(shown, a);
    KeepSource(shown, Take(a, n));
    KeepOrder(shown, Take(a, n));
    KeepPrefix(shown, a, n);
    SortIsMerge(c, kept);
    SortIsMerge(Take(c, n), Keep(shown, Take(a, n)));
    assert Take(c, n) == c[..|Take(c, n)|];
    PrefixesSuffice(c, kept, |Take(c, n)|, |Keep(shown, Take(a, n))|, m);
  }

  lemma {:induction false} KeepAll(shown: Item -> bool, a: seq<Item>)
    requires forall i :: 0 <= i < |a| ==> shown(a[i])
    ensures Keep(shown, a) == a
  {
    if a != [] {
      KeepAll(shown, a[1..]);
    }
  }

  lemma {:induction false} MergeCounts(c: seq<Item>, a: seq<Item>)
    requires From(c, CaseAudit) && From(a, AuthAudit)
    ensures CountFrom(Merge(c, a), CaseAudit) == |c| && CountFrom(Merge(c, a), AuthAudit) == |a|
    ensures |Merge(c, a)| == |c| + |a|
    decreases |c| + |a|
  {
    CountBound(c, CaseAudit);
    CountBound(c, AuthAudit);
    CountBound(a, CaseAudit);
    CountBound(a, AuthAudit);
    if c != [] && a != [] {
      if c[0].timestamp >= a[0].timestamp {
        MergeCounts(c[1..], a);
        assert Merge(c, a)[1..] == Merge(c[1..], a);
      } else {
        MergeCounts(c, a[1..]);
        assert Merge(c, a)[1..] == Merge(c, a[1..]);
      }
    }
  }

  lemma {:induction false} CountTake(s: seq<Item>, m: nat, source: Source)
    ensures CountFrom(Take(s, m), source) <= CountFrom(s, source) && CountFrom(Take(s, m), source) <= m
  {
    if s != [] && m > 0 {
      CountTake(s[1..], m - 1, source);
      assert Take(s, m)[1..] == Take(s[1..], m - 1);
    }
  }

  /** Fetching at least `m` from each source gives the first `m` of the feed when every auth row is
      shown. */
  lemma FetchSuffices(c: seq<Item>, a: seq<Item>, shown: Item -> bool, n: nat, m: nat)
    requires Sources(c, a) && m <= n
    requires forall i :: 0 <= i < |a| ==> shown(a[i])
    ensures Take(Fetched(c, a, shown, n), m) == Take(Feed(c, a, shown), m)
  {
    hide StableSort, Merge, CountFrom, Keep;
    KeepAll(shown, a);
    KeepAll(shown, Take(a, n));
    SortIsMerge(c, a);
    MergeCounts(c, a);
    CountTake(Feed(c, a, shown), m, CaseAudit);
    CountTake(Feed(c, a, shown), m, AuthAudit);
    FetchExactly(c, a, shown, n, m);
  }

  /** Within the cap, and with every auth row shown, a page is that page of the complete feed. */
  lemma PageIsRight(c: seq<Item>, a: seq<Item>, shown: Item -> bool, page: nat, limit: nat)
    requires Sources(c, a) && page >= 1 && 1 <= limit <= 100 && page * limit <= 5000
    requires forall i :: 0 <= i < |a| ==> shown(a[i])
    ensures Page(c, a, shown, page, limit) == Slice(Feed(c, a, shown), Skip(page, limit), Skip(page, limit) + limit)
  {
    hide Feed, Fetched, Take, Slice;
    var n, m := FetchLimit(page, limit), page * limit;
    assert Skip(page, limit) + limit == m;
    FetchSuffices(c, a, shown, n, m);
    SliceOfTake(Fetched(c, a, shown, n), Feed(c, a, shown), Skip(page, limit), m);
  }

  /** Beyond the cap one collection shows nothing more: in a feed of case rows alone, a page that starts
      at row 5000 or later is empty although the feed goes on. */
  lemma PagesEndAtTheCap(c: seq<Item>, shown: Item -> bool, page: nat, limit: nat)
    requires Sources(c, []) && page >= 1 && 1 <= limit <= 100 && 5000 <= Skip(page, limit) < |c|
    ensures Page(c, [], shown, page, limit) == []
    ensures Slice(Feed(c, [], shown), Skip(page, limit), Skip(page, limit) + limit) != []
  {
    SortIsMerge(c, []);
    SortIsMerge(Take(c, 5000), []);
    assert page * limit == Skip(page, limit) + limit;
  }

  lemma SliceOfTake(s: seq<Item>, t: seq<Item>, lo: nat, hi: nat)
    requires lo <= hi && Take(s, hi) == Take(t, hi)
    ensures Slice(s, lo, hi) == Slice(t, lo, hi)
  {
    assert |s| <= lo ==> Take(s, hi) == s;
    assert |t| <= lo ==> Take(t, hi) == t;
  }

  /** Pages 1 to `pages`, one after the other. */
  function Pages(c: seq<Item>, a: seq<Item>, shown: Item -> bool, limit: nat, pages: nat): seq<Item> {
    if pages == 0 then [] else Pages(c, a, shown, limit, pages - 1) + Page(c, a, shown, pages, limit)
  }

  lemma PageContinues(c: seq<Item>, a: seq<Item>, shown: Item -> bool, limit: nat, page: nat)
    requires Sources(c, a) && page >= 1 && 1 <= limit <= 100 && page * limit <= 5000
    requires forall i :: 0 <= i < |a| ==> shown(a[i])
    ensures Skip(page, limit) + limit == page * limit
    ensures Take(Feed(c, a, shown), Skip(page, limit)) + Page(c, a, shown, page, limit)
        == Take(Feed(c, a, shown), page * limit)
  {
    hide Feed, Page, Take, Slice;
    PageIsRight(c, a, shown, page, limit);
    TakeThenSlice(Feed(c, a, shown), Skip(page, limit), page * limit);
  }

  /** Paging through the feed shows it from the start, with no gap and no repetition. */
  lemma {:induction false} PagesAreAPrefix(c: seq<Item>, a: seq<Item>, shown: Item -> bool, limit: nat, pages: nat)
    requires Sources(c, a) && 1 <= limit <= 100 && pages * limit <= 5000
    requires forall i :: 0 <= i < |a| ==> shown(a[i])
    ensures Pages(c, a, shown, limit, pages) == Take(Feed(c, a, shown), pages * limit)
    decreases pages
  {
    hide Feed, Page, Slice;
    if pages > 0 {
      PagesAreAPrefix(c, a, shown, limit, pages - 1);
      PageContinues(c, a, shown, limit, pages);
      assert Skip(pages, limit) == (pages - 1) * limit;
    }
  }

  lemma TakeThenSlice(s: seq<Item>, lo: nat, hi: nat)
    requires lo <= hi
    ensures Take(s, lo) + Slice(s, lo, hi) == Take(s, hi)
  {
  }

  lemma {:induction false} KeepShortens(shown: Item -> bool, a: seq<Item>)
    ensures |Keep(shown, a)| <= |a|
  {
    if a != [] {
      KeepShortens(shown, a[1..]);
    }
  }

  /** `hasNextPage` is computed from the unfiltered totals: it always announces a page when the feed
      goes on, and announces one in vain exactly when the rows shown end by this page although the
      rows counted do not. */
  lemma NextPageAnnounced(c: seq<Item>, a: seq<Item>, shown: Item -> bool, page: nat, limit: nat)
    requires Sources(c, a) && page >= 1 && limit >= 1
    ensures var announced := page * limit < |c| + |a|;
      var goesOn := Slice(Feed(c, a, shown), page * limit, page * limit + limit) != [];
      && (goesOn ==> announced)
      && (announced && !goesOn <==> |c| + |Keep(shown, a)| <= page * limit < |c| + |a|)
  {
    KeepSource(shown, a);
    KeepOrder(shown, a);
    KeepShortens(shown, a);
    SortIsMerge(c, Keep(shown, a));
    MergeCounts(c, Keep(shown, a));
  }

  /** A hidden auth row still takes a place among those fetched: the page comes out empty although
      the feed is not. */
  lemma HiddenRowsShortenPages(shown: Item -> bool)
    requires !shown(Item(AuthAudit, 0, 10)) && shown(Item(AuthAudit, 1, 9))
    ensures var a := [Item(AuthAudit, 0, 10), Item(AuthAudit, 1, 9)];
      Page([], a, shown, 1, 1) == [] && Slice(Feed([], a, shown), 0, 1) == [Item(AuthAudit, 1, 9)]
  {
    var a := [Item(AuthAudit, 0, 10), Item(AuthAudit, 1, 9)];
    assert Take(a, 1) == [a[0]];
    assert Keep(shown, a[1..]) == [a[1]];
    assert Keep(shown, a) == [a[1]];
    assert Keep(shown, [a[0]]) == [];
    assert StableSort([a[1]]) == [a[1]];
    assert [] + [a[1]] == [a[1]];
  }
}
