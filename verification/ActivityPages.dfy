/** What a single page of the activity feed promises: exactly when it is the page of the complete
    feed, and exactly when its rows do not depend on how the database orders rows of equal time. */
module ActivityPages {
  import opened ActivityFeed
  import opened Sequences

  // ---------------------------------------------------------------- subsequences

  /** `s` is `t` with some items left out. */
  predicate Within(s: seq<Item>, t: seq<Item>) {
    || s == []
    || (t != [] && ((s[0] == t[0] && Within(s[1..], t[1..])) || Within(s, t[1..])))
  }

  lemma {:induction false} WithinMembers(s: seq<Item>, t: seq<Item>, k: nat)
    requires Within(s, t) && k < |s|
    ensures s[k] in t
    decreases |t|
  {
    if s[0] == t[0] && Within(s[1..], t[1..]) {
      if k > 0 { WithinMembers(s[1..], t[1..], k - 1); }
    } else {
      WithinMembers(s, t[1..], k);
    }
  }

  lemma {:induction false} WithinIsShorter(s: seq<Item>, t: seq<Item>)
    requires Within(s, t)
    ensures |s| <= |t|
    decreases |t|
  {
    if s != [] {
      if s[0] == t[0] && Within(s[1..], t[1..]) {
        WithinIsShorter(s[1..], t[1..]);
      } else {
        WithinIsShorter(s, t[1..]);
      }
    }
  }

  /** Leaving items out only moves others forward: an item that keeps its place keeps everything
      before it. */
  lemma {:induction false} KeepsItsPlace(s: seq<Item>, t: seq<Item>, k: nat)
    requires Within(s, t) && Distinct(t) && k < |s| && k < |t| && s[k] == t[k]
    ensures s[..k + 1] == t[..k + 1]
    decreases |t|
  {
    if s[0] == t[0] && Within(s[1..], t[1..]) {
      if k > 0 {
        KeepsItsPlace(s[1..], t[1..], k - 1);
        assert s[..k + 1] == [s[0]] + s[1..][..k] && t[..k + 1] == [t[0]] + t[1..][..k];
      }
    } else {
      NotEarlier(s, t[1..], k);
    }
  }

  /** No item stands later in `s` than in `t`. */
  lemma {:induction false} NotEarlier(s: seq<Item>, t: seq<Item>, k: nat)
    requires Within(s, t) && Distinct(t) && k < |s|
    ensures forall m :: 0 <= m < k && m < |t| ==> t[m] != s[k]
    decreases |t|
  {
    if s[0] == t[0] && Within(s[1..], t[1..]) {
      if k > 0 {
        NotEarlier(s[1..], t[1..], k - 1);
        WithinMembers(s[1..], t[1..], k - 1);
        assert s[1..][k - 1] == s[k];
        forall m | 0 <= m < k && m < |t| ensures t[m] != s[k] {
          if m > 0 { assert t[1..][m - 1] == t[m]; }
        }
      }
    } else {
      NotEarlier(s, t[1..], k);
      WithinMembers(s, t[1..], k);
      forall m | 0 <= m < k && m < |t| ensures t[m] != s[k] {
        if m > 0 { assert t[1..][m - 1] == t[m]; }
      }
    }
  }

  lemma {:induction false} MergeWithin(c: seq<Item>, a: seq<Item>, n: nat, k: nat)
    requires n <= |c| && k <= |a|
    ensures Within(Merge(c[..n], a[..k]), Merge(c, a))
    decreases |c| + |a|
  {
    var part, whole := Merge(c[..n], a[..k]), Merge(c, a);
    if c == [] {
      PrefixWithin(a, k);
    } else if a == [] {
      PrefixWithin(c, n);
    } else if c[0].timestamp >= a[0].timestamp {
      if n > 0 {
        MergeWithin(c[1..], a, n - 1, k);
        assert c[..n][1..] == c[1..][..n - 1];
        if k == 0 {
          assert part == c[..n] && Merge(c[1..][..n - 1], a[..k]) == c[1..][..n - 1];
        }
      } else {
        MergeWithin(c[1..], a, 0, k);
        assert c[..0] == c[1..][..0];
      }
      assert whole[1..] == Merge(c[1..], a);
    } else {
      if k > 0 {
        MergeWithin(c, a[1..], n, k - 1);
        assert a[..k][1..] == a[1..][..k - 1];
        if n == 0 {
          assert part == a[..k] && Merge(c[..n], a[1..][..k - 1]) == a[1..][..k - 1];
        }
      } else {
        MergeWithin(c, a[1..], n, 0);
        assert a[..0] == a[1..][..0];
      }
      assert whole[1..] == Merge(c, a[1..]);
    }
  }

  lemma {:induction false} PrefixWithin(s: seq<Item>, n: nat)
    requires n <= |s|
    ensures Within(s[..n], s)
    decreases |s|
  {
    if n > 0 {
      PrefixWithin(s[1..], n - 1);
      assert s[..n][1..] == s[1..][..n - 1];
    }
  }

  // ---------------------------------------------------------------- distinct rows

  lemma {:induction false} MergeMembers(c: seq<Item>, a: seq<Item>, x: Item)
    ensures x in Merge(c, a) <==> x in c || x in a
    decreases |c| + |a|
  {
    if c != [] && a != [] {
      if c[0].timestamp >= a[0].timestamp {
        MergeMembers(c[1..], a, x);
        assert c == [c[0]] + c[1..];
      } else {
        MergeMembers(c, a[1..], x);
        assert a == [a[0]] + a[1..];
      }
    }
  }

  lemma {:induction false} MergeDistinct(c: seq<Item>, a: seq<Item>)
    requires From(c, CaseAudit) && From(a, AuthAudit) && Distinct(c) && Distinct(a)
    ensures Distinct(Merge(c, a))
    decreases |c| + |a|
  {
    if c != [] && a != [] {
      if c[0].timestamp >= a[0].timestamp {
        MergeDistinct(c[1..], a);
        MergeMembers(c[1..], a, c[0]);
      } else {
        MergeDistinct(c, a[1..]);
        MergeMembers(c, a[1..], a[0]);
      }
    }
  }

  lemma {:induction false} KeepMembers(shown: Item -> bool, a: seq<Item>, x: Item)
    ensures x in Keep(shown, a) ==> x in a
  {
    if a != [] {
      KeepMembers(shown, a[1..], x);
    }
  }

  lemma {:induction false} KeepDistinct(shown: Item -> bool, a: seq<Item>)
    requires Distinct(a)
    ensures Distinct(Keep(shown, a))
  {
    if a != [] {
      KeepDistinct(shown, a[1..]);
      KeepMembers(shown, a[1..], a[0]);
    }
  }

  // ---------------------------------------------------------------- when a page is right

  lemma FetchedWithin(c: seq<Item>, a: seq<Item>, shown: Item -> bool, n: nat)
    requires Sources(c, a) && Distinct(c) && Distinct(a)
    ensures Within(Fetched(c, a, shown, n), Feed(c, a, shown)) && Distinct(Feed(c, a, shown))
  {
    hide StableSort, Merge, Keep, Within, Distinct;
    var kept := Keep(shown, a);
    KeepSource(shown, a);
    KeepOrder(shown, a);
    KeepSource(shown, Take(a, n));
    KeepOrder(shown, Take(a, n));
    KeepPrefix(shown, a, n);
    SortIsMerge(c, kept);
    SortIsMerge(Take(c, n), Keep(shown, Take(a, n)));
    assert Take(c, n) == c[..|Take(c, n)|];
    MergeWithin(c, kept, |Take(c, n)|, |Keep(shown, Take(a, n))|);
    KeepDistinct(shown, a);
    MergeDistinct(c, kept);
  }

  lemma SliceFixesTake(s: seq<Item>, t: seq<Item>, lo: nat, hi: nat)
    requires Within(s, t) && Distinct(t) && lo < hi
    ensures Slice(s, lo, hi) == Slice(t, lo, hi) <==> |t| <= lo || Take(s, hi) == Take(t, hi)
  {
    WithinIsShorter(s, t);
    if Take(s, hi) == Take(t, hi) {
      SliceOfTake(s, t, lo, hi);
    }
    if |t| > lo && Slice(s, lo, hi) == Slice(t, lo, hi) {
      assert Slice(t, lo, hi)[0] == t[lo];
      assert |s| > lo && Slice(s, lo, hi)[0] == s[lo];
      KeepsItsPlace(s, t, lo);
      TakeThenSlice(s, lo, hi);
      TakeThenSlice(t, lo, hi);
      assert s[..lo] == s[..lo + 1][..lo] && t[..lo] == t[..lo + 1][..lo];
    }
  }

  /** When a page is the page of the complete feed, for any page, page size, cap and filter: if and
      only if the feed has ended before it, or, up to the end of the page, the feed holds no more
      case rows than were fetched and no more auth rows than were fetched and kept. */
  lemma PageExactly(c: seq<Item>, a: seq<Item>, shown: Item -> bool, page: nat, limit: nat)
    requires Sources(c, a) && Distinct(c) && Distinct(a) && page >= 1 && limit >= 1
    ensures var feed, n, lo := Feed(c, a, shown), FetchLimit(page, limit), Skip(page, limit);
      var first := Take(feed, lo + limit);
      Page(c, a, shown, page, limit) == Slice(feed, lo, lo + limit)
      <==> || |feed| <= lo
           || (CountFrom(first, CaseAudit) <= |Take(c, n)| && CountFrom(first, AuthAudit) <= |Keep(shown, Take(a, n))|)
  {
    hide Within, Distinct, Fetched, Feed, Take, Slice, CountFrom, Keep;
    var n, lo := FetchLimit(page, limit), Skip(page, limit);
    FetchedWithin(c, a, shown, n);
    SliceFixesTake(Fetched(c, a, shown, n), Feed(c, a, shown), lo, lo + limit);
    FetchExactly(c, a, shown, n, lo + limit);
  }

  // ---------------------------------------------------------------- rows of equal time

  /** Another order in which the database may return the rows of `s`: the same up to ties. */
  ghost predicate Reorders(s: seq<Item>, t: seq<Item>) {
    && multiset(s) == multiset(t) && |s| == |t|
    && forall i :: 0 <= i < |s| ==> s[i].timestamp == t[i].timestamp
  }

  predicate Tied(x: Item, y: Item) {
    x.timestamp == y.timestamp && x.source == y.source
  }

  /** Position `b` does not part two tied rows. */
  predicate CleanCut(feed: seq<Item>, b: nat) {
    0 < b < |feed| ==> !Tied(feed[b - 1], feed[b])
  }

  lemma {:induction false} SameShape(c: seq<Item>, a: seq<Item>, c': seq<Item>, a': seq<Item>)
    requires From(c, CaseAudit) && From(c', CaseAudit) && From(a, AuthAudit) && From(a', AuthAudit)
    requires |c| == |c'| && forall i :: 0 <= i < |c| ==> c[i].timestamp == c'[i].timestamp
    requires |a| == |a'| && forall i :: 0 <= i < |a| ==> a[i].timestamp == a'[i].timestamp
    ensures var m, m' := Merge(c, a), Merge(c', a');
      |m| == |m'| && forall i :: 0 <= i < |m| ==> Tied(m[i], m'[i])
    decreases |c| + |a|
  {
    if c != [] && a != [] {
      if c[0].timestamp >= a[0].timestamp {
        SameShape(c[1..], a, c'[1..], a');
      } else {
        SameShape(c, a[1..], c', a'[1..]);
      }
    }
  }

  /** Newest first, and of equal times the case rows before the auth rows. */
  predicate InFeedOrder(s: seq<Item>) {
    forall i, j :: 0 <= i < j < |s| ==>
      s[i].timestamp > s[j].timestamp
      || (s[i].timestamp == s[j].timestamp && (s[i].source.CaseAudit? || s[j].source.AuthAudit?))
  }

  lemma {:induction false} MergeInOrder(c: seq<Item>, a: seq<Item>)
    requires Sources(c, a)
    ensures InFeedOrder(Merge(c, a))
    decreases |c| + |a|
  {
    if c != [] && a != [] {
      if c[0].timestamp >= a[0].timestamp {
        MergeInOrder(c[1..], a);
        var rest := Merge(c[1..], a);
        forall j | 0 <= j < |rest| ensures c[0].timestamp >= rest[j].timestamp {
          MergeMembers(c[1..], a, rest[j]);
        }
      } else {
        MergeInOrder(c, a[1..]);
        var rest := Merge(c, a[1..]);
        forall j | 0 <= j < |rest|
          ensures a[0].timestamp > rest[j].timestamp
              || (a[0].timestamp == rest[j].timestamp && rest[j].source.AuthAudit?)
        {
          MergeMembers(c, a[1..], rest[j]);
        }
      }
    }
  }

  /** Tied rows stand together, so a row shown at `i` in another order stands on the same side of
      every clean cut. */
  lemma SameSide(feed: seq<Item>, i: nat, j: nat, b: nat)
    requires InFeedOrder(feed) && i < |feed| && j < |feed| && Tied(feed[i], feed[j]) && CleanCut(feed, b)
    ensures i < b <==> j < b
  {
  }

  /** The rows of a page, in whatever order. */
  function Rows(s: seq<Item>): set<Item> {
    set x | x in s
  }

  /** The conditions under which a page is cut from the complete feed. */
  ghost predicate Fits(c: seq<Item>, a: seq<Item>, shown: Item -> bool, page: nat, limit: nat) {
    && Sources(c, a) && Distinct(c) && Distinct(a)
    && page >= 1 && 1 <= limit <= 100 && page * limit <= 5000
    && forall i :: 0 <= i < |a| ==> shown(a[i])
  }

  lemma FitsFeed(c: seq<Item>, a: seq<Item>, shown: Item -> bool, page: nat, limit: nat)
    requires Fits(c, a, shown, page, limit)
    ensures Page(c, a, shown, page, limit) == Slice(Merge(c, a), Skip(page, limit), Skip(page, limit) + limit)
    ensures InFeedOrder(Merge(c, a)) && Distinct(Merge(c, a))
  {
    hide Distinct, InFeedOrder, Fetched, Merge, Slice, Page, Skip;
    PageIsRight(c, a, shown, page, limit);
    KeepAll(shown, a);
    SortIsMerge(c, a);
    MergeInOrder(c, a);
    MergeDistinct(c, a);
  }

  lemma ReordersFit(s: seq<Item>, t: seq<Item>, source: Source)
    requires Reorders(s, t) && From(s, source) && NewestFirst(s) && Distinct(s)
    ensures From(t, source) && NewestFirst(t) && Distinct(t)
  {
    forall i | 0 <= i < |t| ensures t[i].source == source {
      assert t[i] in multiset(s);
    }
    RearrangedDistinct(s, t);
  }

  /** A page with clean cuts at both ends shows the same rows in every order. */
  lemma CleanPage(c: seq<Item>, a: seq<Item>, c': seq<Item>, a': seq<Item>, lo: nat, hi: nat, x: Item)
    requires Sources(c, a) && Sources(c', a') && Reorders(c, c') && Reorders(a, a') && lo <= hi
    requires CleanCut(Merge(c, a), lo) && CleanCut(Merge(c, a), hi)
    requires x in Slice(Merge(c', a'), lo, hi)
    ensures x in Slice(Merge(c, a), lo, hi)
  {
    hide Merge, Slice, CleanCut, NewestFirst, InFeedOrder;
    var feed, feed' := Merge(c, a), Merge(c', a');
    SameShape(c, a, c', a');
    MergeInOrder(c, a);
    MergeMembers(c, a, x);
    MergeMembers(c', a', x);
    assert (x in multiset(c) <==> x in multiset(c')) && (x in multiset(a) <==> x in multiset(a'));
    hide Sources, Reorders;
    var i := SlicePosition(feed', lo, hi, x);
    var j :| 0 <= j < |feed| && feed[j] == x;
    assert Tied(feed[i], feed'[i]);
    SameSide(feed, i, j, lo);
    SameSide(feed, i, j, hi);
    InSlice(feed, lo, hi, j);
  }

  lemma SlicePosition(s: seq<Item>, lo: nat, hi: nat, x: Item) returns (i: nat)
    requires lo <= hi && x in Slice(s, lo, hi)
    ensures lo <= i < hi && i < |s| && s[i] == x
  {
    var k :| 0 <= k < |Slice(s, lo, hi)| && Slice(s, lo, hi)[k] == x;
    i := lo + k;
  }

  lemma InSlice(s: seq<Item>, lo: nat, hi: nat, i: nat)
    requires lo <= i < hi && i < |s|
    ensures s[i] in Slice(s, lo, hi)
  {
    assert Slice(s, lo, hi)[i - lo] == s[i];
  }

  /** `c'` and `a'` return the rows of `c` and `a` in an order that makes the feed's rows before and
      after `b` change places. */
  ghost predicate Swaps(c: seq<Item>, a: seq<Item>, c': seq<Item>, a': seq<Item>, b: nat)
    requires 0 < b < |Merge(c, a)|
  {
    && Reorders(c, c') && Reorders(a, a') && |Merge(c', a')| == |Merge(c, a)|
    && Merge(c', a')[b - 1] == Merge(c, a)[b] && Merge(c', a')[b] == Merge(c, a)[b - 1]
  }

  /** Two tied neighbours of the feed can change places by reordering their source. */
  lemma {:induction false} SwapNeighbours(c: seq<Item>, a: seq<Item>, b: nat) returns (c': seq<Item>, a': seq<Item>)
    requires Sources(c, a) && 0 < b < |Merge(c, a)| && Tied(Merge(c, a)[b - 1], Merge(c, a)[b])
    ensures Swaps(c, a, c', a', b)
    decreases |c| + |a|
  {
    if c == [] {
      c', a' := c, Swapped(a, b);
      SwappedReorders(a, b);
    } else if a == [] {
      c', a' := Swapped(c, b), a;
      SwappedReorders(c, b);
    } else if b == 1 {
      c', a' := SwapFirst(c, a);
    } else if c[0].timestamp >= a[0].timestamp {
      assert c == [c[0]] + c[1..];
      CaseFirst(c[0], c[1..], a);
      hide Swaps;
      var rest, other := SwapNeighbours(c[1..], a, b - 1);
      c', a' := [c[0]] + rest, other;
      SwapsAfterCase(c[0], c[1..], a, rest, other, b - 1);
    } else {
      assert a == [a[0]] + a[1..];
      AuthFirst(c, a[0], a[1..]);
      hide Swaps;
      var other, rest := SwapNeighbours(c, a[1..], b - 1);
      c', a' := other, [a[0]] + rest;
      SwapsAfterAuth(c, a[0], a[1..], other, rest, b - 1);
    }
  }

  lemma SwapsAfterCase(x: Item, c: seq<Item>, a: seq<Item>, c': seq<Item>, a': seq<Item>, b: nat)
    requires a != [] && x.timestamp >= a[0].timestamp && 0 < b < |Merge(c, a)| && Swaps(c, a, c', a', b)
    ensures b + 1 < |Merge([x] + c, a)| && Swaps([x] + c, a, [x] + c', a', b + 1)
  {
    assert Reorders([x] + c, [x] + c');
    CaseFirst(x, c, a);
    CaseFirst(x, c', a');
    hide Merge;
  }

  lemma SwapsAfterAuth(c: seq<Item>, x: Item, a: seq<Item>, c': seq<Item>, a': seq<Item>, b: nat)
    requires c != [] && c[0].timestamp < x.timestamp && 0 < b < |Merge(c, a)| && Swaps(c, a, c', a', b)
    ensures b + 1 < |Merge(c, [x] + a)| && Swaps(c, [x] + a, c', [x] + a', b + 1)
  {
    assert Reorders([x] + a, [x] + a');
    AuthFirst(c, x, a);
    AuthFirst(c', x, a');
    hide Merge;
  }

  lemma CaseFirst(x: Item, c: seq<Item>, a: seq<Item>)
    requires a != [] && x.timestamp >= a[0].timestamp
    ensures Merge([x] + c, a) == [x] + Merge(c, a)
  {
    assert ([x] + c)[1..] == c;
  }

  lemma AuthFirst(c: seq<Item>, x: Item, a: seq<Item>)
    requires c != [] && c[0].timestamp < x.timestamp
    ensures Merge(c, [x] + a) == [x] + Merge(c, a)
  {
    assert ([x] + a)[1..] == a;
  }

  lemma SwapFirst(c: seq<Item>, a: seq<Item>) returns (c': seq<Item>, a': seq<Item>)
    requires Sources(c, a) && c != [] && a != [] && |Merge(c, a)| > 1 && Tied(Merge(c, a)[0], Merge(c, a)[1])
    ensures Reorders(c, c') && Reorders(a, a')
    ensures |Merge(c', a')| == |Merge(c, a)|
    ensures Merge(c', a')[0] == Merge(c, a)[1] && Merge(c', a')[1] == Merge(c, a)[0]
  {
    if c[0].timestamp >= a[0].timestamp {
      assert Merge(c, a)[1] == Merge(c[1..], a)[0];
      assert |c| > 1 && c[1].timestamp == c[0].timestamp;
      var x, y, rest := c[0], c[1], c[2..];
      hide Merge, Sources;
      c', a' := [y] + ([x] + rest), a;
      assert c == [x] + ([y] + rest);
      TopSwapped(x, y, rest);
      CaseFirst(x, [y] + rest, a);
      CaseFirst(y, rest, a);
      CaseFirst(y, [x] + rest, a);
      CaseFirst(x, rest, a);
      hide Reorders;
    } else {
      assert Merge(c, a)[1] == Merge(c, a[1..])[0];
      assert |a| > 1 && a[1].timestamp == a[0].timestamp;
      var x, y, rest := a[0], a[1], a[2..];
      hide Merge, Sources;
      c', a' := c, [y] + ([x] + rest);
      assert a == [x] + ([y] + rest);
      TopSwapped(x, y, rest);
      AuthFirst(c, x, [y] + rest);
      AuthFirst(c, y, rest);
      AuthFirst(c, y, [x] + rest);
      AuthFirst(c, x, rest);
      hide Reorders;
    }
  }

  lemma TopSwapped(x: Item, y: Item, rest: seq<Item>)
    requires x.timestamp == y.timestamp
    ensures Reorders([x] + ([y] + rest), [y] + ([x] + rest))
    ensures forall s: seq<Item> :: Reorders(s, s)
  {
  }

  function Swapped(s: seq<Item>, b: nat): seq<Item>
    requires 0 < b < |s|
  {
    s[b - 1 := s[b]][b := s[b - 1]]
  }

  lemma SwappedReorders(s: seq<Item>, b: nat)
    requires 0 < b < |s| && s[b - 1].timestamp == s[b].timestamp
    ensures Reorders(s, Swapped(s, b))
  {
  }

  /** The rows of a page are the same for every order of rows of equal time. */
  ghost predicate RowsFixed(c: seq<Item>, a: seq<Item>, shown: Item -> bool, page: nat, limit: nat)
    requires page >= 1
  {
    forall c', a' | Reorders(c, c') && Reorders(a, a') ::
      Rows(Page(c', a', shown, page, limit)) == Rows(Page(c, a, shown, page, limit))
  }

  lemma OtherOrderFits(c: seq<Item>, a: seq<Item>, c': seq<Item>, a': seq<Item>, shown: Item -> bool, page: nat,
                       limit: nat)
    requires Fits(c, a, shown, page, limit) && Reorders(c, c') && Reorders(a, a')
    ensures Fits(c', a', shown, page, limit)
  {
    ReordersFit(c, c', CaseAudit);
    ReordersFit(a, a', AuthAudit);
    forall i | 0 <= i < |a'| ensures shown(a'[i]) {
      assert a'[i] in multiset(a);
    }
  }

  lemma CutsStayClean(c: seq<Item>, a: seq<Item>, c': seq<Item>, a': seq<Item>, b: nat)
    requires Sources(c, a) && Sources(c', a') && Reorders(c, c') && Reorders(a, a') && CleanCut(Merge(c, a), b)
    ensures CleanCut(Merge(c', a'), b)
  {
    hide Merge;
    SameShape(c, a, c', a');
    if 0 < b < |Merge(c, a)| {
      assert Tied(Merge(c, a)[b - 1], Merge(c', a')[b - 1]) && Tied(Merge(c, a)[b], Merge(c', a')[b]);
    }
  }

  lemma CleanPageIsFixed(c: seq<Item>, a: seq<Item>, c': seq<Item>, a': seq<Item>, shown: Item -> bool, page: nat,
                         limit: nat)
    requires Fits(c, a, shown, page, limit) && Reorders(c, c') && Reorders(a, a')
    requires CleanCut(Merge(c, a), Skip(page, limit)) && CleanCut(Merge(c, a), Skip(page, limit) + limit)
    ensures Rows(Page(c', a', shown, page, limit)) == Rows(Page(c, a, shown, page, limit))
  {
    assert Reorders(c', c) && Reorders(a', a);
    hide Merge, Slice, Page, CleanCut, Reorders, Skip;
    var lo := Skip(page, limit);
    OtherOrderFits(c, a, c', a', shown, page, limit);
    FitsFeed(c, a, shown, page, limit);
    FitsFeed(c', a', shown, page, limit);
    CutsStayClean(c, a, c', a', lo);
    CutsStayClean(c, a, c', a', lo + limit);
    var there, here := Rows(Page(c', a', shown, page, limit)), Rows(Page(c, a, shown, page, limit));
    forall x ensures x in there <==> x in here {
      if x in there { CleanPage(c, a, c', a', lo, lo + limit, x); }
      if x in here { CleanPage(c', a', c, a, lo, lo + limit, x); }
    }
  }

  lemma ElsewhereNotInSlice(s: seq<Item>, lo: nat, hi: nat, i: nat)
    requires Distinct(s) && lo <= hi && i < |s| && !(lo <= i < hi)
    ensures s[i] !in Slice(s, lo, hi)
  {
    if s[i] in Slice(s, lo, hi) {
      var j := SlicePosition(s, lo, hi, s[i]);
    }
  }

  /** A cut between tied rows, at either end of a page, lets another order change the page. */
  lemma UncleanPageVaries(c: seq<Item>, a: seq<Item>, shown: Item -> bool, page: nat, limit: nat, b: nat)
    requires Fits(c, a, shown, page, limit)
    requires (b == Skip(page, limit) || b == Skip(page, limit) + limit) && !CleanCut(Merge(c, a), b)
    ensures !RowsFixed(c, a, shown, page, limit)
  {
    hide Merge, Page, Skip, InFeedOrder, Sources;
    var feed, lo := Merge(c, a), Skip(page, limit);
    var c', a' := SwapNeighbours(c, a, b);
    OtherOrderFits(c, a, c', a', shown, page, limit);
    FitsFeed(c, a, shown, page, limit);
    FitsFeed(c', a', shown, page, limit);
    var feed' := Merge(c', a');
    var gone := if b == lo then feed[b] else feed[b - 1];
    var at := if b == lo then b else b - 1;
    InSlice(feed, lo, lo + limit, at);
    assert gone in Rows(Page(c, a, shown, page, limit));
    ElsewhereNotInSlice(feed', lo, lo + limit, if b == lo then b - 1 else b);
    assert gone !in Rows(Page(c', a', shown, page, limit));
  }

  /** The database sorts by time alone, so each query may order rows of equal time as it likes. When
      that does not matter: a page shows the same rows whatever the order if and only if neither of
      its ends parts two rows of one source with equal times. */
  lemma RowsFixedExactly(c: seq<Item>, a: seq<Item>, shown: Item -> bool, page: nat, limit: nat)
    requires Fits(c, a, shown, page, limit)
    ensures RowsFixed(c, a, shown, page, limit)
      <==> CleanCut(Merge(c, a), Skip(page, limit)) && CleanCut(Merge(c, a), Skip(page, limit) + limit)
  {
    hide Merge, Page, Skip, Reorders, CleanCut, Rows, Sources, Distinct;
    var lo := Skip(page, limit);
    if CleanCut(Merge(c, a), lo) && CleanCut(Merge(c, a), lo + limit) {
      forall c', a' | Reorders(c, c') && Reorders(a, a')
        ensures Rows(Page(c', a', shown, page, limit)) == Rows(Page(c, a, shown, page, limit))
      {
        CleanPageIsFixed(c, a, c', a', shown, page, limit);
      }
    } else {
      UncleanPageVaries(c, a, shown, page, limit, if CleanCut(Merge(c, a), lo) then lo + limit else lo);
    }
  }
}
