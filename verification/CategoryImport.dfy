/** Importing validated category rows: the writer's pass over the firm's live categories, and what
    a whole import (validate, write, validate again) guarantees. */
module CategoryImport {
  import opened Text
  import RV = RowValidation

  datatype Subcategory = Subcategory(name: string, workbasketId: string)
  datatype Category = Category(name: string, active: bool, subcategories: seq<Subcategory>)

  /** The stored form: names trimmed and present, as the schema keeps them, categories unique
      ignoring case, subcategories unique ignoring case within their category. */
  predicate WellFormed(docs: seq<Category>) {
    && (forall i :: 0 <= i < |docs| ==>
        docs[i].name != "" && Trimmed(docs[i].name) && WellFormedSubs(docs[i].subcategories))
    && (forall i, j :: 0 <= i < j < |docs| ==> Lower(docs[i].name) != Lower(docs[j].name))
  }

  predicate WellFormedSubs(subs: seq<Subcategory>) {
    && (forall i :: 0 <= i < |subs| ==> subs[i].name != "" && Trimmed(subs[i].name))
    && (forall i, j :: 0 <= i < j < |subs| ==> Lower(subs[i].name) != Lower(subs[j].name))
  }

  // ---------------------------------------------------------------- the writer

  /** The last category with this folded name, or -1. */
  function FindCategory(docs: seq<Category>, key: string, n: nat): (index: int)
    requires n <= |docs|
    ensures -1 <= index < n
    ensures index >= 0 ==> Lower(docs[index].name) == key
    ensures forall i :: index < i < n ==> Lower(docs[i].name) != key
  {
    if n == 0 then -1
    else if Lower(docs[n - 1].name) == key then n - 1
    else FindCategory(docs, key, n - 1)
  }

  predicate HasSubcategory(subs: seq<Subcategory>, key: string) {
    exists i :: 0 <= i < |subs| && Key(subs[i].name) == key
  }

  /** The category after one row: the subcategory is added unless its folded name is taken. */
  function AddSubcategory(c: Category, name: string, workbasketId: string): Category {
    if name == "" || HasSubcategory(c.subcategories, Lower(name)) then c
    else c.(subcategories := c.subcategories + [Subcategory(name, workbasketId)])
  }

  /** The store after one row: the category is created, active and empty, unless its folded name
      is taken. */
  function Put(docs: seq<Category>, category: string, subcategory: string, workbasketId: string): seq<Category> {
    var index := FindCategory(docs, Lower(category), |docs|);
    if index >= 0 then docs[index := AddSubcategory(docs[index], subcategory, workbasketId)]
    else docs + [AddSubcategory(Category(category, true, []), subcategory, workbasketId)]
  }

  function ImportRow(docs: seq<Category>, data: RV.Data): seq<Category>
    requires data.CategoryData?
  {
    Put(docs, Trim(data.category), Trim(data.subcategory), data.workbasketId)
  }

  predicate CategoryRows(rows: seq<RV.ValidRow>) {
    forall i :: 0 <= i < |rows| ==> rows[i].data.CategoryData?
  }

  function ImportRows(docs: seq<Category>, rows: seq<RV.ValidRow>, n: nat): seq<Category>
    requires n <= |rows| && CategoryRows(rows)
  {
    if n == 0 then docs else ImportRow(ImportRows(docs, rows, n - 1), rows[n - 1].data)
  }

  /** The folded category names of the rows. */
  function NamedKeys(rows: seq<RV.ValidRow>): set<string>
    requires CategoryRows(rows)
  {
    set i | 0 <= i < |rows| :: Lower(Trim(rows[i].data.category))
  }

  /** The cache knows every named category of the store's first `n`, and where it is. */
  ghost predicate Caches(cache: map<string, nat>, names: set<string>, docs: seq<Category>, n: nat)
    requires n <= |docs|
  {
    forall k :: k in names ==> FindCategory(docs, k, n) == if k in cache then cache[k] else -1
  }

  /** The firm's live categories, written to by processBulkRows. */
  class Collection {
    var docs: seq<Category>

    constructor (docs: seq<Category>)
      ensures this.docs == docs
    {
      this.docs := docs;
    }

    /** The named categories, read once before the rows are written. */
    method LoadCache(names: set<string>) returns (cache: map<string, nat>)
      ensures Caches(cache, names, docs, |docs|)
    {
      cache := map[];
      var i := 0;
      while i < |docs|
        invariant 0 <= i <= |docs|
        invariant Caches(cache, names, docs, i)
      {
        var key := Lower(docs[i].name);
        if key in names {
          cache := cache[key := i];
        }
        i := i + 1;
      }
    }

    /** One row: look the category up in the cache, create it if it is not there, and add the
        subcategory. */
    method WriteRow(cache: map<string, nat>, names: set<string>, category: string, subcategory: string,
                    workbasketId: string)
      returns (cache': map<string, nat>)
      requires Caches(cache, names, docs, |docs|) && Lower(category) in names
      modifies this
      ensures docs == Put(old(docs), category, subcategory, workbasketId)
      ensures Caches(cache', names, docs, |docs|)
    {
      var key := Lower(category);
      cache' := cache;
      if key !in cache {
        docs := docs + [Category(category, true, [])];
        cache' := cache[key := |docs| - 1];
        FindAppended(old(docs), docs[|docs| - 1]);
      }
      var at := cache'[key];
      ghost var created := docs;
      docs := docs[at := AddSubcategory(docs[at], subcategory, workbasketId)];
      FindIgnoresRest(created, docs);
    }

    /** processBulkRows for categories, every write succeeding. */
    method Import(rows: seq<RV.ValidRow>)
      requires CategoryRows(rows)
      modifies this
      ensures docs == ImportRows(old(docs), rows, |rows|)
    {
      hide Trim, Lower, Caches, Put;
      var names := NamedKeys(rows);
      var cache := LoadCache(names);
      var i := 0;
      while i < |rows|
        invariant 0 <= i <= |rows|
        invariant docs == ImportRows(old(docs), rows, i)
        invariant Caches(cache, names, docs, |docs|)
      {
        var data := rows[i].data;
        cache := WriteRow(cache, names, Trim(data.category), Trim(data.subcategory), data.workbasketId);
        i := i + 1;
      }
    }
  }

  lemma {:induction false} FindSame(a: seq<Category>, b: seq<Category>, key: string, n: nat)
    requires n <= |a| && n <= |b| && forall i :: 0 <= i < n ==> a[i].name == b[i].name
    ensures FindCategory(a, key, n) == FindCategory(b, key, n)
  {
    if n > 0 {
      FindSame(a, b, key, n - 1);
    }
  }

  /** Only names matter to the search. */
  lemma FindIgnoresRest(a: seq<Category>, b: seq<Category>)
    requires |a| == |b| && forall i :: 0 <= i < |a| ==> a[i].name == b[i].name
    ensures forall key :: FindCategory(b, key, |b|) == FindCategory(a, key, |a|)
  {
    forall key ensures FindCategory(b, key, |b|) == FindCategory(a, key, |a|) {
      FindSame(a, b, key, |a|);
    }
  }

  lemma FindAppended(docs: seq<Category>, c: Category)
    ensures var docs' := docs + [c];
      forall key :: FindCategory(docs', key, |docs'|)
                 == if key == Lower(c.name) then |docs| else FindCategory(docs, key, |docs|)
  {
    var docs' := docs + [c];
    assert docs'[|docs|] == c;
    forall key ensures FindCategory(docs', key, |docs|) == FindCategory(docs, key, |docs|) {
      FindSame(docs', docs, key, |docs|);
    }
  }

  // ---------------------------------------------------------------- what a store holds

  /** The store holds category `c` and, unless `s` is empty, subcategory `s` under it; both are
      folded names. */
  ghost predicate Holds(docs: seq<Category>, c: string, s: string) {
    exists i :: 0 <= i < |docs| && HoldsAt(docs[i], c, s)
  }

  predicate HoldsAt(doc: Category, c: string, s: string) {
    Lower(doc.name) == c && (s == "" || HasSubcategory(doc.subcategories, s))
  }

  /** Nothing is removed or renamed: the old categories stay in place, their subcategories first. */
  predicate Extends(old_: seq<Category>, new_: seq<Category>) {
    |old_| <= |new_| && forall i :: 0 <= i < |old_| ==>
      && new_[i].name == old_[i].name && new_[i].active == old_[i].active
      && old_[i].subcategories <= new_[i].subcategories
  }

  lemma KeyOfTrimmed(s: string)
    requires Trimmed(s)
    ensures Key(s) == Lower(s)
  {
    TrimIsTrimmed(s);
  }

  lemma AddKeeps(c: Category, name: string, workbasketId: string)
    requires WellFormedSubs(c.subcategories) && Trimmed(name)
    ensures var c' := AddSubcategory(c, name, workbasketId);
      && c'.name == c.name && c'.active == c.active
      && WellFormedSubs(c'.subcategories) && c.subcategories <= c'.subcategories
      && forall s :: HasSubcategory(c'.subcategories, s) <==>
           HasSubcategory(c.subcategories, s) || (name != "" && s == Lower(name))
  {
    var c' := AddSubcategory(c, name, workbasketId);
    KeyOfTrimmed(name);
    if c' != c {
      var n := |c.subcategories|;
      forall i | 0 <= i < n ensures Lower(c.subcategories[i].name) != Lower(name) {
        KeyOfTrimmed(c.subcategories[i].name);
      }
      forall s ensures HasSubcategory(c'.subcategories, s) <==> HasSubcategory(c.subcategories, s) || s == Lower(name) {
        assert c'.subcategories[n].name == name;
        if HasSubcategory(c.subcategories, s) {
          var i :| 0 <= i < n && Key(c.subcategories[i].name) == s;
          assert c'.subcategories[i] == c.subcategories[i];
        }
      }
    }
  }

  /** The category a row writes to, before the row. */
  function Target(docs: seq<Category>, category: string): (c: Category) {
    var index := FindCategory(docs, Lower(category), |docs|);
    if index >= 0 then docs[index] else Category(category, true, [])
  }

  lemma PutKeeps(docs: seq<Category>, category: string, subcategory: string, workbasketId: string)
    requires WellFormed(docs) && category != "" && Trimmed(category) && Trimmed(subcategory)
    ensures var docs' := Put(docs, category, subcategory, workbasketId);
      && WellFormed(docs') && Extends(docs, docs')
      && forall i :: |docs| <= i < |docs'| ==> docs'[i].active
  {
    var at := FindCategory(docs, Lower(category), |docs|);
    AddKeeps(Target(docs, category), subcategory, workbasketId);
    var added := AddSubcategory(Target(docs, category), subcategory, workbasketId);
    if at >= 0 {
      ReplaceKeeps(docs, at, added);
    } else {
      AppendKeeps(docs, added);
    }
    hide AddSubcategory, WellFormed, Extends, Lower;
  }

  lemma ReplaceKeeps(docs: seq<Category>, at: nat, c: Category)
    requires WellFormed(docs) && at < |docs| && WellFormedSubs(c.subcategories)
    requires c.name == docs[at].name && c.active == docs[at].active && docs[at].subcategories <= c.subcategories
    ensures WellFormed(docs[at := c]) && Extends(docs, docs[at := c])
  {
    hide WellFormedSubs, Trimmed, Lower;
  }

  lemma AppendKeeps(docs: seq<Category>, c: Category)
    requires WellFormed(docs) && WellFormedSubs(c.subcategories) && c.name != "" && Trimmed(c.name)
    requires forall i :: 0 <= i < |docs| ==> Lower(docs[i].name) != Lower(c.name)
    ensures WellFormed(docs + [c]) && Extends(docs, docs + [c])
  {
    hide WellFormedSubs, Trimmed, Lower;
  }

  lemma PutHolds(docs: seq<Category>, category: string, subcategory: string, workbasketId: string, c: string, s: string)
    requires WellFormed(docs) && category != "" && Trimmed(category) && Trimmed(subcategory)
    ensures Holds(Put(docs, category, subcategory, workbasketId), c, s)
      <==> Holds(docs, c, s) || (c == Lower(category) && (s == "" || s == Lower(subcategory)))
  {
    var docs' := Put(docs, category, subcategory, workbasketId);
    var found := FindCategory(docs, Lower(category), |docs|);
    var at := if found >= 0 then found else |docs|;
    var base := Target(docs, category);
    var added := AddSubcategory(base, subcategory, workbasketId);
    AddKeeps(base, subcategory, workbasketId);
    assert docs'[at] == added && added.name == base.name;
    assert HoldsAt(added, c, s) <==> HoldsAt(base, c, s) || (c == Lower(category) && s == Lower(subcategory) != "");
    if Holds(docs', c, s) {
      var i :| 0 <= i < |docs'| && HoldsAt(docs'[i], c, s);
      assert i != at ==> HoldsAt(docs[i], c, s);
    }
    if Holds(docs, c, s) {
      var i :| 0 <= i < |docs| && HoldsAt(docs[i], c, s);
      assert HoldsAt(docs'[i], c, s);
    }
    if c == Lower(category) && (s == "" || s == Lower(subcategory)) {
      assert HoldsAt(docs'[at], c, s);
    }
  }

  predicate NamesPresent(rows: seq<RV.ValidRow>) {
    CategoryRows(rows) && forall i :: 0 <= i < |rows| ==> Trim(rows[i].data.category) != ""
  }

  /** Row `i` asks for the pair (`c`, `s`). */
  predicate Asks(rows: seq<RV.ValidRow>, i: nat, c: string, s: string)
    requires CategoryRows(rows) && i < |rows|
  {
    c == Key(rows[i].data.category) && (s == "" || s == Key(rows[i].data.subcategory))
  }

  ghost predicate AskedFor(rows: seq<RV.ValidRow>, n: nat, c: string, s: string)
    requires CategoryRows(rows) && n <= |rows|
  {
    exists i :: 0 <= i < n && Asks(rows, i, c, s)
  }

  lemma AskedNext(rows: seq<RV.ValidRow>, n: nat, c: string, s: string)
    requires CategoryRows(rows) && n < |rows|
    ensures AskedFor(rows, n + 1, c, s) <==> AskedFor(rows, n, c, s) || Asks(rows, n, c, s)
  {
    hide Asks;
  }

  lemma ExtendsTwice(a: seq<Category>, b: seq<Category>, c: seq<Category>)
    requires Extends(a, b) && Extends(b, c)
    requires forall i :: |a| <= i < |b| ==> b[i].active
    requires forall i :: |b| <= i < |c| ==> c[i].active
    ensures Extends(a, c) && forall i :: |a| <= i < |c| ==> c[i].active
  {
  }

  lemma RowKeeps(docs: seq<Category>, data: RV.Data)
    requires WellFormed(docs) && data.CategoryData? && Trim(data.category) != ""
    ensures var docs' := ImportRow(docs, data);
      WellFormed(docs') && Extends(docs, docs') && forall i :: |docs| <= i < |docs'| ==> docs'[i].active
  {
    hide Trim, Put, WellFormed, Extends;
    TrimIsTrimmed(data.category);
    TrimIsTrimmed(data.subcategory);
    PutKeeps(docs, Trim(data.category), Trim(data.subcategory), data.workbasketId);
  }

  /** A whole import keeps uniqueness ignoring case, removes nothing, and creates only active
      categories. */
  lemma {:induction false} ImportKeeps(docs: seq<Category>, rows: seq<RV.ValidRow>, n: nat)
    requires WellFormed(docs) && NamesPresent(rows) && n <= |rows|
    ensures var docs' := ImportRows(docs, rows, n);
      WellFormed(docs') && Extends(docs, docs') && forall i :: |docs| <= i < |docs'| ==> docs'[i].active
  {
    hide Trim, WellFormed, ImportRow;
    if n > 0 {
      hide Extends;
      ImportKeeps(docs, rows, n - 1);
      var before := ImportRows(docs, rows, n - 1);
      RowKeeps(before, rows[n - 1].data);
      ExtendsTwice(docs, before, ImportRow(before, rows[n - 1].data));
    }
  }

  /** After a whole import the store holds exactly what it held plus what the rows ask for. */
  lemma {:induction false} ImportHolds(docs: seq<Category>, rows: seq<RV.ValidRow>, n: nat, c: string, s: string)
    requires WellFormed(docs) && NamesPresent(rows) && n <= |rows|
    ensures Holds(ImportRows(docs, rows, n), c, s) <==> Holds(docs, c, s) || AskedFor(rows, n, c, s)
  {
    hide Trim, Holds, Put;
    if n > 0 {
      hide AskedFor;
      ImportHolds(docs, rows, n - 1, c, s);
      ImportKeeps(docs, rows, n - 1);
      var data := rows[n - 1].data;
      TrimIsTrimmed(data.category);
      TrimIsTrimmed(data.subcategory);
      PutHolds(ImportRows(docs, rows, n - 1), Trim(data.category), Trim(data.subcategory), data.workbasketId, c, s);
      AskedNext(rows, n - 1, c, s);
    }
  }

  // ---------------------------------------------------------------- the snapshot

  /** The folded names of the categories with whether each is active, as fetchExistingLookup
      gathers them. */
  function ActiveOf(docs: seq<Category>, n: nat): map<string, bool>
    requires n <= |docs|
  {
    if n == 0 then map[]
    else
      var before := ActiveOf(docs, n - 1);
      if Key(docs[n - 1].name) == "" then before else before[Key(docs[n - 1].name) := docs[n - 1].active]
  }

  function PairsOf(docs: seq<Category>): set<string> {
    set i, j | 0 <= i < |docs| && 0 <= j < |docs[i].subcategories|
               && Key(docs[i].name) != "" && Key(docs[i].subcategories[j].name) != ""
      :: RV.PairKey(Key(docs[i].name), Key(docs[i].subcategories[j].name))
  }

  function SnapshotOf(docs: seq<Category>, byName: map<string, string>, byId: map<string, string>): RV.Snapshot {
    RV.Categories(ActiveOf(docs, |docs|), PairsOf(docs), byName, byId)
  }

  lemma {:induction false} ActiveMeans(docs: seq<Category>, n: nat, c: string)
    requires WellFormed(docs) && n <= |docs|
    ensures c in ActiveOf(docs, n) <==> exists i :: 0 <= i < n && Key(docs[i].name) == c
    ensures forall i :: 0 <= i < n && Key(docs[i].name) == c && c in ActiveOf(docs, n) ==>
        ActiveOf(docs, n)[c] == docs[i].active
  {
    if n > 0 {
      ActiveMeans(docs, n - 1, c);
      forall i | 0 <= i < n ensures Key(docs[i].name) == Lower(docs[i].name) != "" {
        KeyOfTrimmed(docs[i].name);
      }
      hide Key, Lower, Trimmed, WellFormedSubs;
    }
  }

  lemma PairPresent(docs: seq<Category>, c: string, s: string)
    requires WellFormed(docs) && s != "" && Holds(docs, c, s)
    ensures RV.PairKey(c, s) in PairsOf(docs)
  {
    var i :| 0 <= i < |docs| && HoldsAt(docs[i], c, s);
    var j :| 0 <= j < |docs[i].subcategories| && Key(docs[i].subcategories[j].name) == s;
    KeyOfTrimmed(docs[i].name);
  }

  /** The snapshot only grows with the store. */
  lemma SnapshotGrows(docs: seq<Category>, docs': seq<Category>, c: string)
    requires WellFormed(docs) && WellFormed(docs') && Extends(docs, docs')
    ensures PairsOf(docs) <= PairsOf(docs')
    ensures c in ActiveOf(docs, |docs|) ==>
      c in ActiveOf(docs', |docs'|) && ActiveOf(docs', |docs'|)[c] == ActiveOf(docs, |docs|)[c]
  {
    forall k | k in PairsOf(docs) ensures k in PairsOf(docs') {
      var i, j :| 0 <= i < |docs| && 0 <= j < |docs[i].subcategories|
        && Key(docs[i].name) != "" && Key(docs[i].subcategories[j].name) != ""
        && k == RV.PairKey(Key(docs[i].name), Key(docs[i].subcategories[j].name));
      assert docs'[i].subcategories[j] == docs[i].subcategories[j];
    }
    ActiveMeans(docs, |docs|, c);
    ActiveMeans(docs', |docs'|, c);
  }

  // ---------------------------------------------------------------- end to end

  const CATEGORY: string := "category"
  const SUBCATEGORY: string := "subcategory"

  function RowCategory(row: RV.RowObject): string { Key(RV.Get(row, CATEGORY)) }
  function RowSubcategory(row: RV.RowObject): string { Key(RV.Get(row, SUBCATEGORY)) }

  /** What an accepted category row carries. */
  lemma AcceptedRow(schema: RV.Schema, db: RV.Snapshot, mode: RV.Mode, row: RV.RowObject, seen: set<string>)
    requires db.Categories? && CATEGORY in schema.required
    requires RV.Judge(schema, db, mode, row, seen).Valid?
    ensures var data := RV.Judge(schema, db, mode, row, seen).data;
      && data.CategoryData? && Trim(data.category) != "" && RowCategory(row) != ""
      && Key(data.category) == RowCategory(row) && Key(data.subcategory) == RowSubcategory(row)
  {
    TrimIsTrimmed(RV.Get(row, CATEGORY));
    TrimIsTrimmed(RV.Get(row, SUBCATEGORY));
  }

  lemma {:induction false} AcceptedNames(schema: RV.Schema, db: RV.Snapshot, mode: RV.Mode, rows: seq<RV.NumberedRow>,
                                         n: nat)
    requires db.Categories? && CATEGORY in schema.required && n <= |rows|
    ensures NamesPresent(RV.ValidRows(rows, RV.Verdicts(schema, db, mode, rows, |rows|), n))
  {
    hide Trim, RV.Judge;
    if n > 0 {
      AcceptedNames(schema, db, mode, rows, n - 1);
      RV.VerdictAt(schema, db, mode, rows, n - 1);
      var verdicts := RV.Verdicts(schema, db, mode, rows, |rows|);
      if verdicts[n - 1].Valid? {
        AcceptedRow(schema, db, mode, rows[n - 1].row, RV.Seen(db, rows, verdicts, n - 1));
      }
    }
  }

  /** Row `i` was accepted and describes the pair (`c`, `s`). */
  predicate Describes(rows: seq<RV.NumberedRow>, verdicts: seq<RV.Verdict>, i: nat, c: string, s: string)
    requires i < |rows| && i < |verdicts|
  {
    verdicts[i].Valid? && c == RowCategory(rows[i].row) && (s == "" || s == RowSubcategory(rows[i].row))
  }

  ghost predicate Accepted(rows: seq<RV.NumberedRow>, verdicts: seq<RV.Verdict>, n: nat, c: string, s: string)
    requires n <= |rows| && n <= |verdicts|
  {
    exists i :: 0 <= i < n && Describes(rows, verdicts, i, c, s)
  }

  /** The pairs asked of the writer are those of the accepted rows. */
  lemma {:induction false} AcceptedPairs(schema: RV.Schema, db: RV.Snapshot, mode: RV.Mode, rows: seq<RV.NumberedRow>,
                                         n: nat, c: string, s: string)
    requires db.Categories? && CATEGORY in schema.required && n <= |rows|
    ensures var verdicts := RV.Verdicts(schema, db, mode, rows, |rows|);
      var valid := RV.ValidRows(rows, verdicts, n);
      NamesPresent(valid) && (AskedFor(valid, |valid|, c, s) <==> Accepted(rows, verdicts, n, c, s))
  {
    hide Trim, RV.Judge;
    AcceptedNames(schema, db, mode, rows, n);
    if n > 0 {
      AcceptedPairs(schema, db, mode, rows, n - 1, c, s);
      RV.VerdictAt(schema, db, mode, rows, n - 1);
      var verdicts := RV.Verdicts(schema, db, mode, rows, |rows|);
      if verdicts[n - 1].Valid? {
        AcceptedRow(schema, db, mode, rows[n - 1].row, RV.Seen(db, rows, verdicts, n - 1));
        AskedSnoc(RV.ValidRows(rows, verdicts, n - 1), RV.ValidRows(rows, verdicts, n), c, s);
      } else {
        assert RV.ValidRows(rows, verdicts, n) == RV.ValidRows(rows, verdicts, n - 1);
      }
      assert Accepted(rows, verdicts, n, c, s) <==>
        Accepted(rows, verdicts, n - 1, c, s) || Describes(rows, verdicts, n - 1, c, s);
    }
  }

  lemma AskedSnoc(before: seq<RV.ValidRow>, valid: seq<RV.ValidRow>, c: string, s: string)
    requires CategoryRows(valid) && |valid| == |before| + 1 && valid[..|before|] == before
    ensures CategoryRows(before)
    ensures AskedFor(valid, |valid|, c, s) <==> AskedFor(before, |before|, c, s) || Asks(valid, |valid| - 1, c, s)
  {
    hide Trim;
    forall i | 0 <= i < |before| ensures valid[i] == before[i] {
      assert valid[..|before|][i] == valid[i];
    }
    forall i | 0 <= i < |before| ensures Asks(valid, i, c, s) == Asks(before, i, c, s) {}
  }

  /** Validate a file against the firm's categories and import the rows accepted. */
  function Imported(schema: RV.Schema, docs: seq<Category>, byName: map<string, string>, byId: map<string, string>,
                    mode: RV.Mode, rows: seq<RV.NumberedRow>): seq<Category>
    requires CATEGORY in schema.required
  {
    var db := SnapshotOf(docs, byName, byId);
    var valid := RV.ValidRows(rows, RV.Verdicts(schema, db, mode, rows, |rows|), |rows|);
    AcceptedNames(schema, db, mode, rows, |rows|);
    ImportRows(docs, valid, |valid|)
  }

  /** The result of an import, exactly: categories stay unique ignoring case, and subcategories
      within them; nothing is removed or renamed; what is new is active; and a pair is held
      afterwards if and only if it was held before or an accepted row describes it. */
  lemma ImportResult(schema: RV.Schema, docs: seq<Category>, byName: map<string, string>, byId: map<string, string>,
                     mode: RV.Mode, rows: seq<RV.NumberedRow>, c: string, s: string)
    requires WellFormed(docs) && CATEGORY in schema.required
    ensures var docs' := Imported(schema, docs, byName, byId, mode, rows);
      var verdicts := RV.Verdicts(schema, SnapshotOf(docs, byName, byId), mode, rows, |rows|);
      && WellFormed(docs') && Extends(docs, docs')
      && (forall i :: |docs| <= i < |docs'| ==> docs'[i].active)
      && (Holds(docs', c, s) <==> Holds(docs, c, s) || Accepted(rows, verdicts, |rows|, c, s))
  {
    hide Trim, RV.Judge, WellFormed, Holds, Accepted, Put;
    var db := SnapshotOf(docs, byName, byId);
    var valid := RV.ValidRows(rows, RV.Verdicts(schema, db, mode, rows, |rows|), |rows|);
    AcceptedPairs(schema, db, mode, rows, |rows|, c, s);
    ImportKeeps(docs, valid, |valid|);
    ImportHolds(docs, valid, |valid|, c, s);
  }

  // ---------------------------------------------------------------- where each new entry comes from

  /** The workbasket a cell names: the non-empty entry of `byId` for the trimmed cell, or else that of
      `byName` for the folded one. */
  predicate NamesWorkbasket(byName: map<string, string>, byId: map<string, string>, cell: string, id: string) {
    var w := Trim(cell);
    if w in byId && byId[w] != "" then id == byId[w]
    else Lower(w) in byName && byName[Lower(w)] != "" && id == byName[Lower(w)]
  }

  /** Row `k` is the first accepted row describing the pair (`c`, folded `sub.name`), and the
      subcategory is as its cells say. */
  predicate Explains(rows: seq<RV.NumberedRow>, verdicts: seq<RV.Verdict>, byName: map<string, string>,
                     byId: map<string, string>, k: nat, c: string, sub: Subcategory)
    requires k < |rows| && k < |verdicts|
  {
    && Describes(rows, verdicts, k, c, Lower(sub.name))
    && (forall j :: 0 <= j < k ==> !Describes(rows, verdicts, j, c, Lower(sub.name)))
    && sub.name == Trim(RV.Get(rows[k].row, SUBCATEGORY))
    && NamesWorkbasket(byName, byId, RV.Get(rows[k].row, "workbasket"), sub.workbasketId)
  }

  ghost predicate Explained(rows: seq<RV.NumberedRow>, verdicts: seq<RV.Verdict>, byName: map<string, string>,
                            byId: map<string, string>, n: nat, c: string, sub: Subcategory)
    requires n <= |rows| && n <= |verdicts|
  {
    exists k :: 0 <= k < n && Explains(rows, verdicts, byName, byId, k, c, sub)
  }

  /** Row `k` is the first accepted row naming the category, whose name is its trimmed cell. */
  predicate Founds(rows: seq<RV.NumberedRow>, verdicts: seq<RV.Verdict>, k: nat, name: string)
    requires k < |rows| && k < |verdicts|
  {
    && Describes(rows, verdicts, k, Lower(name), "") && name == Trim(RV.Get(rows[k].row, CATEGORY))
    && forall j :: 0 <= j < k ==> !Describes(rows, verdicts, j, Lower(name), "")
  }

  ghost predicate Founded(rows: seq<RV.NumberedRow>, verdicts: seq<RV.Verdict>, n: nat, name: string)
    requires n <= |rows| && n <= |verdicts|
  {
    exists k :: 0 <= k < n && Founds(rows, verdicts, k, name)
  }

  /** Subcategory `j` of category `i` is in `docs'` and was not in `docs`. */
  predicate IsNew(docs: seq<Category>, docs': seq<Category>, i: int, j: int) {
    0 <= i < |docs'| && 0 <= j < |docs'[i].subcategories| && (i < |docs| ==> j >= |docs[i].subcategories|)
  }

  /** Every category and subcategory of `docs'` that `docs` has not is due to one of the first `n`
      rows. */
  ghost predicate AllExplained(docs: seq<Category>, docs': seq<Category>, rows: seq<RV.NumberedRow>,
                               verdicts: seq<RV.Verdict>, byName: map<string, string>, byId: map<string, string>,
                               n: nat)
    requires n <= |rows| && n <= |verdicts|
  {
    && (forall i :: |docs| <= i < |docs'| ==> Founded(rows, verdicts, n, docs'[i].name))
    && (forall i, j :: IsNew(docs, docs', i, j) ==>
          Explained(rows, verdicts, byName, byId, n, Lower(docs'[i].name), docs'[i].subcategories[j]))
  }

  lemma AddedEntry(c: Category, name: string, workbasketId: string, j: nat)
    requires |c.subcategories| <= j < |AddSubcategory(c, name, workbasketId).subcategories|
    ensures AddSubcategory(c, name, workbasketId).subcategories[j] == Subcategory(name, workbasketId)
    ensures name != "" && !HasSubcategory(c.subcategories, Lower(name))
  {
  }

  lemma NotHeld(docs: seq<Category>, category: string, s: string)
    requires WellFormed(docs) && s != "" && !HasSubcategory(Target(docs, category).subcategories, s)
    ensures !Holds(docs, Lower(category), s)
  {
    var found := FindCategory(docs, Lower(category), |docs|);
    forall i | 0 <= i < |docs| && HoldsAt(docs[i], Lower(category), s) ensures i == found {
      assert !(i < found) && !(found < i);
    }
    hide WellFormed, Lower, HasSubcategory;
  }

  /** What one row adds: at most the category it names, when the store holds none, and the subcategory
      it names, when the store holds no such pair. */
  lemma PutAdds(docs: seq<Category>, category: string, subcategory: string, workbasketId: string)
    requires WellFormed(docs) && category != "" && Trimmed(category) && Trimmed(subcategory)
    ensures var docs' := Put(docs, category, subcategory, workbasketId);
      && Extends(docs, docs')
      && (forall i :: |docs| <= i < |docs'| ==> docs'[i].name == category && !Holds(docs, Lower(category), ""))
      && (forall i, j :: IsNew(docs, docs', i, j) ==>
              && Lower(docs'[i].name) == Lower(category)
              && docs'[i].subcategories[j] == Subcategory(subcategory, workbasketId)
              && subcategory != "" && !Holds(docs, Lower(category), Lower(subcategory)))
  {
    PutKeeps(docs, category, subcategory, workbasketId);
    hide WellFormed, Extends, Lower, Trimmed, HasSubcategory;
    var docs' := Put(docs, category, subcategory, workbasketId);
    var found := FindCategory(docs, Lower(category), |docs|);
    var at := if found >= 0 then found else |docs|;
    var base := Target(docs, category);
    assert docs'[at] == AddSubcategory(base, subcategory, workbasketId) && docs'[at].name == base.name;
    forall i, j | IsNew(docs, docs', i, j)
      ensures Lower(docs'[i].name) == Lower(category)
      ensures docs'[i].subcategories[j] == Subcategory(subcategory, workbasketId)
      ensures subcategory != "" && !Holds(docs, Lower(category), Lower(subcategory))
    {
      assert i == at;
      AddedEntry(base, subcategory, workbasketId, j);
      NotHeld(docs, category, Lower(subcategory));
    }
    forall i | |docs| <= i < |docs'| ensures docs'[i].name == category && !Holds(docs, Lower(category), "") {
      assert i == at == |docs|;
      assert forall k :: 0 <= k < |docs| ==> !HoldsAt(docs[k], Lower(category), "");
    }
  }

  /** What the step from `n` rows to the next is told: the row was accepted and carries what its cells
      say, and whatever the rows before it describe is in the store. */
  ghost predicate NextRow(before: seq<Category>, data: RV.Data, rows: seq<RV.NumberedRow>, verdicts: seq<RV.Verdict>,
                          byName: map<string, string>, byId: map<string, string>, n: nat)
    requires n < |rows| && n < |verdicts|
  {
    && WellFormed(before) && verdicts[n].Valid? && verdicts[n].data == data && data.CategoryData?
    && data.category == Trim(RV.Get(rows[n].row, CATEGORY)) != ""
    && data.subcategory == Trim(RV.Get(rows[n].row, SUBCATEGORY))
    && NamesWorkbasket(byName, byId, RV.Get(rows[n].row, "workbasket"), data.workbasketId)
    && forall j, c, s :: 0 <= j < n && Describes(rows, verdicts, j, c, s) ==> Holds(before, c, s)
  }

  /** What the row adds, it is the first to ask for. */
  lemma RowExplains(before: seq<Category>, data: RV.Data, rows: seq<RV.NumberedRow>, verdicts: seq<RV.Verdict>,
                    byName: map<string, string>, byId: map<string, string>, n: nat)
    requires n < |rows| && n < |verdicts| && NextRow(before, data, rows, verdicts, byName, byId, n)
    ensures var after := ImportRow(before, data);
      && Extends(before, after)
      && (forall i :: |before| <= i < |after| ==> Founds(rows, verdicts, n, after[i].name))
      && (forall i, j :: IsNew(before, after, i, j) ==>
            Explains(rows, verdicts, byName, byId, n, Lower(after[i].name), after[i].subcategories[j]))
  {
    TrimIsTrimmed(RV.Get(rows[n].row, CATEGORY));
    TrimIsTrimmed(RV.Get(rows[n].row, SUBCATEGORY));
    PutAdds(before, data.category, data.subcategory, data.workbasketId);
    hide Put, Holds, WellFormed, NamesWorkbasket, Lower, Trim, Extends;
  }

  /** One more row explains what it adds; what was explained before it stays so. */
  lemma RowExplained(docs: seq<Category>, before: seq<Category>, data: RV.Data, rows: seq<RV.NumberedRow>,
                     verdicts: seq<RV.Verdict>, byName: map<string, string>, byId: map<string, string>, n: nat)
    requires n < |rows| && n < |verdicts| && NextRow(before, data, rows, verdicts, byName, byId, n)
    requires Extends(docs, before) && AllExplained(docs, before, rows, verdicts, byName, byId, n)
    ensures AllExplained(docs, ImportRow(before, data), rows, verdicts, byName, byId, n + 1)
  {
    RowExplains(before, data, rows, verdicts, byName, byId, n);
    hide ImportRow, NextRow, Founds, Explains, Lower;
    var after := ImportRow(before, data);
    forall i | |docs| <= i < |after| ensures Founded(rows, verdicts, n + 1, after[i].name) {
      if i < |before| {
        assert Founded(rows, verdicts, n, before[i].name);
      } else {
        assert Founds(rows, verdicts, n, after[i].name);
      }
    }
    forall i, j | IsNew(docs, after, i, j)
      ensures Explained(rows, verdicts, byName, byId, n + 1, Lower(after[i].name), after[i].subcategories[j])
    {
      if i < |before| && j < |before[i].subcategories| {
        assert IsNew(docs, before, i, j) && after[i].subcategories[j] == before[i].subcategories[j];
        assert Explained(rows, verdicts, byName, byId, n, Lower(before[i].name), before[i].subcategories[j]);
      } else {
        assert IsNew(before, after, i, j);
        assert Explains(rows, verdicts, byName, byId, n, Lower(after[i].name), after[i].subcategories[j]);
      }
    }
  }

  lemma {:induction false} ImportPrefix(docs: seq<Category>, a: seq<RV.ValidRow>, b: seq<RV.ValidRow>, n: nat)
    requires CategoryRows(a) && CategoryRows(b) && n <= |a| && n <= |b| && a[..n] == b[..n]
    ensures ImportRows(docs, a, n) == ImportRows(docs, b, n)
  {
    hide ImportRow;
    if n > 0 {
      assert a[..n][..n - 1] == a[..n - 1] && b[..n][..n - 1] == b[..n - 1];
      assert a[n - 1] == a[..n][n - 1] == b[..n][n - 1] == b[n - 1];
      ImportPrefix(docs, a, b, n - 1);
    }
  }

  lemma AcceptedCells(schema: RV.Schema, db: RV.Snapshot, mode: RV.Mode, row: RV.RowObject, seen: set<string>)
    requires db.Categories? && CATEGORY in schema.required && RV.Judge(schema, db, mode, row, seen).Valid?
    ensures var data := RV.Judge(schema, db, mode, row, seen).data;
      && data.CategoryData? && data.category == Trim(RV.Get(row, CATEGORY)) != ""
      && data.subcategory == Trim(RV.Get(row, SUBCATEGORY))
      && NamesWorkbasket(db.byName, db.byId, RV.Get(row, "workbasket"), data.workbasketId)
  {
    hide Trim, Lower, RV.Existing, RV.FileKey;
  }

  lemma ExplainedLater(docs: seq<Category>, docs': seq<Category>, rows: seq<RV.NumberedRow>, verdicts: seq<RV.Verdict>,
                       byName: map<string, string>, byId: map<string, string>, n: nat)
    requires n < |rows| && n < |verdicts| && AllExplained(docs, docs', rows, verdicts, byName, byId, n)
    ensures AllExplained(docs, docs', rows, verdicts, byName, byId, n + 1)
  {
    hide Founds, Explains, Lower;
    forall name | Founded(rows, verdicts, n, name) ensures Founded(rows, verdicts, n + 1, name) {}
    forall c, sub | Explained(rows, verdicts, byName, byId, n, c, sub)
      ensures Explained(rows, verdicts, byName, byId, n + 1, c, sub)
    {}
  }

  lemma DescribedIsHeld(schema: RV.Schema, docs: seq<Category>, byName: map<string, string>, byId: map<string, string>,
                        mode: RV.Mode, rows: seq<RV.NumberedRow>, n: nat, j: nat, c: string, s: string)
    requires WellFormed(docs) && CATEGORY in schema.required && j < n <= |rows|
    requires Describes(rows, RV.Verdicts(schema, SnapshotOf(docs, byName, byId), mode, rows, |rows|), j, c, s)
    ensures var verdicts := RV.Verdicts(schema, SnapshotOf(docs, byName, byId), mode, rows, |rows|);
      var valid := RV.ValidRows(rows, verdicts, n);
      NamesPresent(valid) && Holds(ImportRows(docs, valid, |valid|), c, s)
  {
    hide Trim, RV.Verdicts, WellFormed, Describes;
    var db := SnapshotOf(docs, byName, byId);
    AcceptedPairs(schema, db, mode, rows, n, c, s);
    var valid := RV.ValidRows(rows, RV.Verdicts(schema, db, mode, rows, |rows|), n);
    ImportHolds(docs, valid, |valid|, c, s);
  }

  /** An accepted row comes last in the list of those accepted so far, and is written last. */
  lemma LastWritten(schema: RV.Schema, docs: seq<Category>, db: RV.Snapshot, mode: RV.Mode, rows: seq<RV.NumberedRow>,
                    n: nat)
    requires db.Categories? && CATEGORY in schema.required && n < |rows|
    requires RV.Verdicts(schema, db, mode, rows, |rows|)[n].Valid?
    ensures var verdicts := RV.Verdicts(schema, db, mode, rows, |rows|);
      var earlier, valid := RV.ValidRows(rows, verdicts, n), RV.ValidRows(rows, verdicts, n + 1);
      && NamesPresent(earlier) && NamesPresent(valid) && verdicts[n].data.CategoryData?
      && ImportRows(docs, valid, |valid|) == ImportRow(ImportRows(docs, earlier, |earlier|), verdicts[n].data)
  {
    hide Trim, RV.Judge, RV.Verdicts, ImportRow;
    var verdicts := RV.Verdicts(schema, db, mode, rows, |rows|);
    var earlier, valid := RV.ValidRows(rows, verdicts, n), RV.ValidRows(rows, verdicts, n + 1);
    AcceptedNames(schema, db, mode, rows, n);
    AcceptedNames(schema, db, mode, rows, n + 1);
    assert valid[|earlier|].data == verdicts[n].data;
    assert valid[..|earlier|] == earlier == earlier[..|earlier|];
    ImportPrefix(docs, valid, earlier, |earlier|);
  }

  /** The store after the accepted ones of the first `n` rows. */
  lemma {:induction false} StoreExplained(schema: RV.Schema, docs: seq<Category>, byName: map<string, string>,
                                          byId: map<string, string>, mode: RV.Mode, rows: seq<RV.NumberedRow>, n: nat)
    requires WellFormed(docs) && CATEGORY in schema.required && n <= |rows|
    ensures var verdicts := RV.Verdicts(schema, SnapshotOf(docs, byName, byId), mode, rows, |rows|);
      var valid := RV.ValidRows(rows, verdicts, n);
      NamesPresent(valid)
      && AllExplained(docs, ImportRows(docs, valid, |valid|), rows, verdicts, byName, byId, n)
  {
    hide Trim, RV.Judge, RV.Verdicts, WellFormed, Extends, Holds, Describes, ImportRow, NamesWorkbasket;
    var db := SnapshotOf(docs, byName, byId);
    var verdicts := RV.Verdicts(schema, db, mode, rows, |rows|);
    if n == 0 {
      assert RV.ValidRows(rows, verdicts, 0) == [];
    } else {
      hide AllExplained;
      var earlier := RV.ValidRows(rows, verdicts, n - 1);
      StoreExplained(schema, docs, byName, byId, mode, rows, n - 1);
      var before := ImportRows(docs, earlier, |earlier|);
      if verdicts[n - 1].Valid? {
        LastWritten(schema, docs, db, mode, rows, n - 1);
        hide ImportRows;
        RV.VerdictAt(schema, db, mode, rows, n - 1);
        ImportKeeps(docs, earlier, |earlier|);
        AcceptedCells(schema, db, mode, rows[n - 1].row, RV.Seen(db, rows, verdicts, n - 1));
        forall j, c, s | 0 <= j < n - 1 && Describes(rows, verdicts, j, c, s) ensures Holds(before, c, s) {
          DescribedIsHeld(schema, docs, byName, byId, mode, rows, n - 1, j, c, s);
        }
        RowExplained(docs, before, verdicts[n - 1].data, rows, verdicts, byName, byId, n - 1);
      } else {
        assert RV.ValidRows(rows, verdicts, n) == earlier;
        ExplainedLater(docs, before, rows, verdicts, byName, byId, n - 1);
      }
    }
  }

  /** Where everything new comes from. After validation and import each category the store did not have
      bears the trimmed name of the first accepted row that names it; and each subcategory it did not
      have bears the trimmed name, and the workbasket, that the cells of the first accepted row asking
      for the pair give. */
  lemma NewIsExplained(schema: RV.Schema, docs: seq<Category>, byName: map<string, string>, byId: map<string, string>,
                       mode: RV.Mode, rows: seq<RV.NumberedRow>)
    requires WellFormed(docs) && CATEGORY in schema.required
    ensures AllExplained(docs, Imported(schema, docs, byName, byId, mode, rows), rows,
                         RV.Verdicts(schema, SnapshotOf(docs, byName, byId), mode, rows, |rows|), byName, byId, |rows|)
  {
    hide RV.Verdicts, WellFormed, ImportRows, AllExplained;
    StoreExplained(schema, docs, byName, byId, mode, rows, |rows|);
  }

  /** What the store holds, the validator finds. */
  lemma HeldIsExisting(docs: seq<Category>, byName: map<string, string>, byId: map<string, string>, row: RV.RowObject)
    requires WellFormed(docs) && RowCategory(row) != "" && Holds(docs, RowCategory(row), RowSubcategory(row))
    ensures RV.Existing(SnapshotOf(docs, byName, byId), row)
  {
    hide Trim;
    var c, s := RowCategory(row), RowSubcategory(row);
    if s == "" {
      var i :| 0 <= i < |docs| && HoldsAt(docs[i], c, s);
      KeyOfTrimmed(docs[i].name);
      ActiveMeans(docs, |docs|, c);
    } else {
      PairPresent(docs, c, s);
    }
  }

  /** Judged again, against a snapshot that has grown: a row already described there, or turned
      away before and not hidden, is not accepted in skip mode. */
  lemma JudgedAgain(schema: RV.Schema, db: RV.Snapshot, db': RV.Snapshot, mode: RV.Mode, row: RV.RowObject,
                    seen: set<string>, seen': set<string>)
    requires db.Categories? && db'.Categories? && db.byName == db'.byName && db.byId == db'.byId
    requires RowCategory(row) in db.active ==>
      RowCategory(row) in db'.active && db'.active[RowCategory(row)] == db.active[RowCategory(row)]
    requires var verdict := RV.Judge(schema, db, mode, row, seen);
      && (verdict.Valid? || RV.Existing(db, row) ==> RV.Existing(db', row))
      && !Hidden(db', row, verdict)
    ensures !RV.Judge(schema, db', RV.Skip, row, seen').Valid?
  {
    hide Trim, RV.Existing, RV.FileKey, RV.SchemaAccepts, RV.IsEmptyRow;
  }

  /** Every category cell is separable, so that a row's key determines its pair. */
  predicate SeparableRows(rows: seq<RV.NumberedRow>) {
    forall i :: 0 <= i < |rows| ==> RV.Separable(RowCategory(rows[i].row))
  }

  /** An accepted row's own pair is in the store afterwards, and so is the pair of any row turned
      away as its duplicate. */
  lemma AcceptedIsExisting(schema: RV.Schema, docs: seq<Category>, byName: map<string, string>,
                           byId: map<string, string>, mode: RV.Mode, rows: seq<RV.NumberedRow>, j: nat,
                           row: RV.RowObject)
    requires WellFormed(docs) && CATEGORY in schema.required && j < |rows|
    requires RV.Verdicts(schema, SnapshotOf(docs, byName, byId), mode, rows, |rows|)[j].Valid?
    requires RowCategory(rows[j].row) == RowCategory(row) && RowSubcategory(rows[j].row) == RowSubcategory(row)
    ensures RV.Existing(SnapshotOf(Imported(schema, docs, byName, byId, mode, rows), byName, byId), row)
  {
    hide Trim, RV.Judge, WellFormed, Holds, RV.Existing, Imported, Put;
    var db := SnapshotOf(docs, byName, byId);
    var verdicts := RV.Verdicts(schema, db, mode, rows, |rows|);
    var c, s := RowCategory(row), RowSubcategory(row);
    RV.VerdictAt(schema, db, mode, rows, j);
    AcceptedRow(schema, db, mode, rows[j].row, RV.Seen(db, rows, verdicts, j));
    assert Describes(rows, verdicts, j, c, s);
    ImportResult(schema, docs, byName, byId, mode, rows, c, s);
    HeldIsExisting(Imported(schema, docs, byName, byId, mode, rows), byName, byId, row);
  }

  /** Turned away as a duplicate of the file, although the database, as the import leaves it, holds
      no such pair and the category is not inactive. */
  predicate Hidden(db': RV.Snapshot, row: RV.RowObject, verdict: RV.Verdict)
    requires db'.Categories?
  {
    && verdict == RV.Invalid(RV.FileDuplicate)
    && !RV.Existing(db', row)
    && (RowCategory(row) in db'.active ==> db'.active[RowCategory(row)])
  }

  /** Row `i`, validated again: not accepted unless it was hidden. */
  lemma AcceptedAgainWasHidden(schema: RV.Schema, docs: seq<Category>, byName: map<string, string>,
                               byId: map<string, string>, mode: RV.Mode, rows: seq<RV.NumberedRow>, i: nat)
    requires WellFormed(docs) && CATEGORY in schema.required && i < |rows|
    requires var db' := SnapshotOf(Imported(schema, docs, byName, byId, mode, rows), byName, byId);
      !Hidden(db', rows[i].row, RV.Verdicts(schema, SnapshotOf(docs, byName, byId), mode, rows, |rows|)[i])
    ensures var db' := SnapshotOf(Imported(schema, docs, byName, byId, mode, rows), byName, byId);
      !RV.Verdicts(schema, db', RV.Skip, rows, |rows|)[i].Valid?
  {
    hide Trim, RV.Judge, WellFormed, Holds, RV.Existing, Imported, Put;
    var db := SnapshotOf(docs, byName, byId);
    var docs' := Imported(schema, docs, byName, byId, mode, rows);
    var db' := SnapshotOf(docs', byName, byId);
    var verdicts := RV.Verdicts(schema, db, mode, rows, |rows|);
    var again := RV.Verdicts(schema, db', RV.Skip, rows, |rows|);
    var row := rows[i].row;
    RV.VerdictAt(schema, db, mode, rows, i);
    RV.VerdictAt(schema, db', RV.Skip, rows, i);
    ImportResult(schema, docs, byName, byId, mode, rows, "", "");
    SnapshotGrows(docs, docs', RowCategory(row));
    if verdicts[i].Valid? {
      AcceptedIsExisting(schema, docs, byName, byId, mode, rows, i, row);
    }
    ExistingGrows(db, db', row);
    JudgedAgain(schema, db, db', mode, row, RV.Seen(db, rows, verdicts, i), RV.Seen(db', rows, again, i));
  }

  /** A hidden row is accepted as soon as no row before it is. */
  lemma HiddenIsAccepted(schema: RV.Schema, db: RV.Snapshot, db': RV.Snapshot, mode: RV.Mode, row: RV.RowObject,
                         seen: set<string>)
    requires db.Categories? && db'.Categories? && db.byName == db'.byName && db.byId == db'.byId
    requires Hidden(db', row, RV.Judge(schema, db, mode, row, seen))
    ensures RV.Judge(schema, db', RV.Skip, row, {}).Valid?
  {
    hide Trim, RV.Existing, RV.FileKey, RV.SchemaAccepts, RV.IsEmptyRow;
  }

  ghost predicate AcceptsNone(schema: RV.Schema, db: RV.Snapshot, rows: seq<RV.NumberedRow>) {
    forall i :: 0 <= i < |rows| ==> !RV.Verdicts(schema, db, RV.Skip, rows, |rows|)[i].Valid?
  }

  lemma FinalUnlessHidden(schema: RV.Schema, docs: seq<Category>, byName: map<string, string>,
                          byId: map<string, string>, mode: RV.Mode, rows: seq<RV.NumberedRow>)
    requires WellFormed(docs) && CATEGORY in schema.required
    ensures var db' := SnapshotOf(Imported(schema, docs, byName, byId, mode, rows), byName, byId);
      var verdicts := RV.Verdicts(schema, SnapshotOf(docs, byName, byId), mode, rows, |rows|);
      AcceptsNone(schema, db', rows) <==> forall i :: 0 <= i < |rows| ==> !Hidden(db', rows[i].row, verdicts[i])
  {
    hide Trim, RV.Judge, WellFormed, RV.Existing, Imported, Hidden, RV.FileKey;
    var db := SnapshotOf(docs, byName, byId);
    var db' := SnapshotOf(Imported(schema, docs, byName, byId, mode, rows), byName, byId);
    var verdicts := RV.Verdicts(schema, db, mode, rows, |rows|);
    var again := RV.Verdicts(schema, db', RV.Skip, rows, |rows|);
    forall i | 0 <= i < |rows| && !Hidden(db', rows[i].row, verdicts[i]) ensures !again[i].Valid? {
      AcceptedAgainWasHidden(schema, docs, byName, byId, mode, rows, i);
    }
    if AcceptsNone(schema, db', rows) {
      forall i | 0 <= i < |rows| ensures !Hidden(db', rows[i].row, verdicts[i]) {
        RV.VerdictAt(schema, db, mode, rows, i);
        RV.VerdictAt(schema, db', RV.Skip, rows, i);
        assert RV.Seen(db', rows, again, i) == {};
        if Hidden(db', rows[i].row, verdicts[i]) {
          HiddenIsAccepted(schema, db, db', mode, rows[i].row, RV.Seen(db, rows, verdicts, i));
        }
      }
    }
  }

  // ---------------------------------------------------------------- the condition, before the import

  /** A leading row before `i` whose key is that of row `i`. */
  predicate Shadows(schema: RV.Schema, db: RV.Snapshot, mode: RV.Mode, rows: seq<RV.NumberedRow>, j: nat, i: nat)
    requires j < |rows| && i < |rows| && db.Categories?
  {
    j < i && RV.Leads(schema, db, mode, rows, j) && RV.FileKey(db, rows[j].row) == RV.FileKey(db, rows[i].row)
  }

  predicate Named(schema: RV.Schema, db: RV.Snapshot, mode: RV.Mode, rows: seq<RV.NumberedRow>, c: string)
    requires db.Categories?
  {
    exists k :: 0 <= k < |rows| && RV.Leads(schema, db, mode, rows, k) && RowCategory(rows[k].row) == c
  }

  predicate PairNamed(schema: RV.Schema, db: RV.Snapshot, mode: RV.Mode, rows: seq<RV.NumberedRow>, key: string)
    requires db.Categories?
  {
    exists k :: 0 <= k < |rows| && RV.Leads(schema, db, mode, rows, k)
                && RowSubcategory(rows[k].row) != "" && RV.FileKey(db, rows[k].row) == key
  }

  /** The import will not create what row `i` asks for, although the row in front of it has its key:
      that row names no subcategory while this one does, and the pair is new; or this one names none,
      and its category is new and named by no accepted row. */
  predicate Missed(schema: RV.Schema, db: RV.Snapshot, mode: RV.Mode, rows: seq<RV.NumberedRow>, j: nat, i: nat)
    requires j < |rows| && i < |rows| && db.Categories?
  {
    if RowSubcategory(rows[i].row) != ""
    then RowSubcategory(rows[j].row) == "" && RV.FileKey(db, rows[i].row) !in db.pairs
    else RowCategory(rows[i].row) !in db.active && !Named(schema, db, mode, rows, RowCategory(rows[i].row))
  }

  /** Row `i` is importable but for the row in front of it. */
  predicate Lost(schema: RV.Schema, db: RV.Snapshot, mode: RV.Mode, rows: seq<RV.NumberedRow>, i: nat)
    requires i < |rows| && db.Categories?
  {
    var row := rows[i].row;
    && !RV.IsEmptyRow(row) && RV.SchemaAccepts(schema, row) && RV.WorkbasketId(db, row) != ""
    && (RowCategory(row) in db.active ==> db.active[RowCategory(row)])
    && exists j :: 0 <= j < i && Shadows(schema, db, mode, rows, j, i) && Missed(schema, db, mode, rows, j, i)
  }

  lemma PairOrigin(docs: seq<Category>, key: string) returns (c: string, s: string)
    requires WellFormed(docs) && key in PairsOf(docs)
    ensures s != "" && Holds(docs, c, s) && RV.PairKey(c, s) == key
  {
    var i, j :| 0 <= i < |docs| && 0 <= j < |docs[i].subcategories|
      && Key(docs[i].name) != "" && Key(docs[i].subcategories[j].name) != ""
      && RV.PairKey(Key(docs[i].name), Key(docs[i].subcategories[j].name)) == key;
    c, s := Key(docs[i].name), Key(docs[i].subcategories[j].name);
    KeyOfTrimmed(docs[i].name);
    assert HoldsAt(docs[i], c, s);
  }

  lemma ActiveIsHeld(docs: seq<Category>, c: string)
    requires WellFormed(docs)
    ensures c in ActiveOf(docs, |docs|) <==> Holds(docs, c, "")
  {
    ActiveMeans(docs, |docs|, c);
    forall i | 0 <= i < |docs| ensures HoldsAt(docs[i], c, "") <==> Key(docs[i].name) == c {
      KeyOfTrimmed(docs[i].name);
    }
  }

  /** The category names found after the import: those found before and those of accepted rows. */
  lemma ActiveAfter(schema: RV.Schema, docs: seq<Category>, byName: map<string, string>, byId: map<string, string>,
                    mode: RV.Mode, rows: seq<RV.NumberedRow>, c: string)
    requires WellFormed(docs) && CATEGORY in schema.required
    ensures var db := SnapshotOf(docs, byName, byId);
      var db' := SnapshotOf(Imported(schema, docs, byName, byId, mode, rows), byName, byId);
      && (c in db'.active <==> c in db.active || Named(schema, db, mode, rows, c))
      && (c in db.active ==> c in db'.active && db'.active[c] == db.active[c])
      && (c in db'.active && c !in db.active ==> db'.active[c])
  {
    hide Trim, RV.Judge, RV.Leads, RV.Verdicts, WellFormed, Holds, Imported, Put;
    var db := SnapshotOf(docs, byName, byId);
    var docs' := Imported(schema, docs, byName, byId, mode, rows);
    ImportResult(schema, docs, byName, byId, mode, rows, c, "");
    SnapshotGrows(docs, docs', c);
    ActiveIsHeld(docs, c);
    ActiveIsHeld(docs', c);
    NamedIsAccepted(schema, db, mode, rows, c);
    NewIsActive(docs, docs', c);
  }

  lemma NamedIsAccepted(schema: RV.Schema, db: RV.Snapshot, mode: RV.Mode, rows: seq<RV.NumberedRow>, c: string)
    requires db.Categories?
    ensures Named(schema, db, mode, rows, c)
        <==> Accepted(rows, RV.Verdicts(schema, db, mode, rows, |rows|), |rows|, c, "")
  {
    hide RV.Verdicts, RV.Leads;
    var verdicts := RV.Verdicts(schema, db, mode, rows, |rows|);
    if Named(schema, db, mode, rows, c) {
      var k :| 0 <= k < |rows| && RV.Leads(schema, db, mode, rows, k) && RowCategory(rows[k].row) == c;
      RV.AcceptedLead(schema, db, mode, rows, k);
      assert Describes(rows, verdicts, k, c, "");
    }
    if Accepted(rows, verdicts, |rows|, c, "") {
      var k :| 0 <= k < |rows| && Describes(rows, verdicts, k, c, "");
      RV.AcceptedLead(schema, db, mode, rows, k);
    }
  }

  lemma NewIsActive(docs: seq<Category>, docs': seq<Category>, c: string)
    requires WellFormed(docs) && WellFormed(docs') && Extends(docs, docs')
    requires forall i :: |docs| <= i < |docs'| ==> docs'[i].active
    ensures c in ActiveOf(docs', |docs'|) && c !in ActiveOf(docs, |docs|) ==> ActiveOf(docs', |docs'|)[c]
  {
    ActiveMeans(docs, |docs|, c);
    ActiveMeans(docs', |docs'|, c);
    if c in ActiveOf(docs', |docs'|) && c !in ActiveOf(docs, |docs|) {
      var i :| 0 <= i < |docs'| && Key(docs'[i].name) == c;
      assert i < |docs| ==> Key(docs[i].name) == c;
    }
  }

  /** The pair keys found after the import: those found before and those of accepted rows with a
      subcategory. */
  lemma PairsAfter(schema: RV.Schema, docs: seq<Category>, byName: map<string, string>, byId: map<string, string>,
                   mode: RV.Mode, rows: seq<RV.NumberedRow>, key: string)
    requires WellFormed(docs) && CATEGORY in schema.required
    ensures var db := SnapshotOf(docs, byName, byId);
      var db' := SnapshotOf(Imported(schema, docs, byName, byId, mode, rows), byName, byId);
      key in db'.pairs <==> key in db.pairs || PairNamed(schema, db, mode, rows, key)
  {
    hide Trim, RV.Judge, RV.Leads, RV.Verdicts, WellFormed, Holds, Imported, Put;
    var db := SnapshotOf(docs, byName, byId);
    var docs' := Imported(schema, docs, byName, byId, mode, rows);
    var verdicts := RV.Verdicts(schema, db, mode, rows, |rows|);
    ImportResult(schema, docs, byName, byId, mode, rows, "", "");
    SnapshotGrows(docs, docs', "");
    if key in PairsOf(docs') {
      var c, s := PairOrigin(docs', key);
      ImportResult(schema, docs, byName, byId, mode, rows, c, s);
      if Holds(docs, c, s) {
        PairPresent(docs, c, s);
      } else {
        var k :| 0 <= k < |rows| && Describes(rows, verdicts, k, c, s);
        RV.AcceptedLead(schema, db, mode, rows, k);
      }
    }
    if PairNamed(schema, db, mode, rows, key) {
      var k :| 0 <= k < |rows| && RV.Leads(schema, db, mode, rows, k)
        && RowSubcategory(rows[k].row) != "" && RV.FileKey(db, rows[k].row) == key;
      var c, s := RowCategory(rows[k].row), RowSubcategory(rows[k].row);
      RV.AcceptedLead(schema, db, mode, rows, k);
      assert Describes(rows, verdicts, k, c, s);
      ImportResult(schema, docs, byName, byId, mode, rows, c, s);
      PairPresent(docs', c, s);
    }
  }

  predicate Shadowed(schema: RV.Schema, db: RV.Snapshot, mode: RV.Mode, rows: seq<RV.NumberedRow>, i: nat)
    requires i < |rows| && db.Categories?
  {
    exists j :: 0 <= j < i && Shadows(schema, db, mode, rows, j, i)
  }

  lemma SeenIsShadowed(schema: RV.Schema, db: RV.Snapshot, mode: RV.Mode, rows: seq<RV.NumberedRow>, i: nat)
    requires i < |rows| && db.Categories?
    ensures RV.FileKey(db, rows[i].row) in RV.Seen(db, rows, RV.Verdicts(schema, db, mode, rows, |rows|), i)
      <==> Shadowed(schema, db, mode, rows, i)
  {
    hide RV.Verdicts, RV.Leads, RV.FileKey;
    var verdicts := RV.Verdicts(schema, db, mode, rows, |rows|);
    if RV.FileKey(db, rows[i].row) in RV.Seen(db, rows, verdicts, i) {
      var j :| 0 <= j < i && verdicts[j].Valid? && RV.FileKey(db, rows[j].row) == RV.FileKey(db, rows[i].row);
      RV.AcceptedLead(schema, db, mode, rows, j);
      assert Shadows(schema, db, mode, rows, j, i);
    }
    if Shadowed(schema, db, mode, rows, i) {
      var j :| 0 <= j < i && Shadows(schema, db, mode, rows, j, i);
      RV.AcceptedLead(schema, db, mode, rows, j);
    }
  }

  /** A row is hidden by the import exactly when it is lost, which the file and the snapshot tell. */
  lemma HiddenIsLost(schema: RV.Schema, docs: seq<Category>, byName: map<string, string>, byId: map<string, string>,
                     mode: RV.Mode, rows: seq<RV.NumberedRow>, i: nat)
    requires WellFormed(docs) && CATEGORY in schema.required && i < |rows|
    ensures var db := SnapshotOf(docs, byName, byId);
      var db' := SnapshotOf(Imported(schema, docs, byName, byId, mode, rows), byName, byId);
      Hidden(db', rows[i].row, RV.Verdicts(schema, db, mode, rows, |rows|)[i]) <==> Lost(schema, db, mode, rows, i)
  {
    hide Trim, RV.Judge, RV.Leads, RV.Verdicts, WellFormed, Imported, RV.SchemaAccepts, RV.IsEmptyRow, RV.WorkbasketId;
    var db := SnapshotOf(docs, byName, byId);
    var db' := SnapshotOf(Imported(schema, docs, byName, byId, mode, rows), byName, byId);
    var verdicts := RV.Verdicts(schema, db, mode, rows, |rows|);
    var row := rows[i].row;
    var key := RV.FileKey(db, row);
    RV.VerdictAt(schema, db, mode, rows, i);
    RV.DuplicateExactly(schema, db, mode, row, RV.Seen(db, rows, verdicts, i));
    ActiveAfter(schema, docs, byName, byId, mode, rows, RowCategory(row));
    PairsAfter(schema, docs, byName, byId, mode, rows, key);
    SeenIsShadowed(schema, db, mode, rows, i);
    forall j: nat, k: nat | j < |rows| && k < |rows| && RV.Leads(schema, db, mode, rows, j)
        && RV.Leads(schema, db, mode, rows, k)
      && RV.FileKey(db, rows[j].row) == RV.FileKey(db, rows[k].row) ensures j == k
    {
      LeadsDiffer(schema, db, mode, rows, j, k);
    }
  }

  lemma LeadsDiffer(schema: RV.Schema, db: RV.Snapshot, mode: RV.Mode, rows: seq<RV.NumberedRow>, j: nat, k: nat)
    requires j < |rows| && k < |rows| && RV.Leads(schema, db, mode, rows, j) && RV.Leads(schema, db, mode, rows, k)
    requires RV.FileKey(db, rows[j].row) == RV.FileKey(db, rows[k].row)
    ensures j == k
  {
    hide RV.Judge, RV.FileKey;
    assert !(j < k) && !(k < j);
  }

  /** When importing is final, told from the file and the snapshot alone: validating the same file
      again in skip mode accepts no row if and only if no row is lost to one in front of it. */
  lemma ImportIsFinalExactly(schema: RV.Schema, docs: seq<Category>, byName: map<string, string>,
                             byId: map<string, string>, mode: RV.Mode, rows: seq<RV.NumberedRow>)
    requires WellFormed(docs) && CATEGORY in schema.required
    ensures AcceptsNone(schema, SnapshotOf(Imported(schema, docs, byName, byId, mode, rows), byName, byId), rows)
      <==> forall i :: 0 <= i < |rows| ==> !Lost(schema, SnapshotOf(docs, byName, byId), mode, rows, i)
  {
    hide Trim, RV.Judge, WellFormed, Imported, Hidden, Lost, RV.Verdicts;
    FinalUnlessHidden(schema, docs, byName, byId, mode, rows);
    forall i: nat | i < |rows|
      ensures var db' := SnapshotOf(Imported(schema, docs, byName, byId, mode, rows), byName, byId);
        Hidden(db', rows[i].row, RV.Verdicts(schema, SnapshotOf(docs, byName, byId), mode, rows, |rows|)[i])
        <==> Lost(schema, SnapshotOf(docs, byName, byId), mode, rows, i)
    {
      HiddenIsLost(schema, docs, byName, byId, mode, rows, i);
    }
  }

  lemma ExistingGrows(db: RV.Snapshot, db': RV.Snapshot, row: RV.RowObject)
    requires db.Categories? && db'.Categories? && db.pairs <= db'.pairs
    requires RowCategory(row) in db.active ==> RowCategory(row) in db'.active
    ensures RV.Existing(db, row) ==> RV.Existing(db', row)
  {
    hide Trim;
  }

  /** With separable category cells no row is lost, so importing is final. */
  lemma NothingLeftToImport(schema: RV.Schema, docs: seq<Category>, byName: map<string, string>,
                            byId: map<string, string>, mode: RV.Mode, rows: seq<RV.NumberedRow>)
    requires WellFormed(docs) && CATEGORY in schema.required && SeparableRows(rows)
    ensures AcceptsNone(schema, SnapshotOf(Imported(schema, docs, byName, byId, mode, rows), byName, byId), rows)
  {
    hide Trim, RV.Leads, WellFormed, Imported, RV.SchemaAccepts, RV.IsEmptyRow, RV.WorkbasketId;
    var db := SnapshotOf(docs, byName, byId);
    forall i, j: nat | 0 <= i < |rows| && j < i && Shadows(schema, db, mode, rows, j, i)
      ensures !Missed(schema, db, mode, rows, j, i)
    {
      RV.PairKeyInjective(RowCategory(rows[j].row), RowSubcategory(rows[j].row), RowCategory(rows[i].row),
          RowSubcategory(rows[i].row));
    }
    hide Shadows, Missed;
    ImportIsFinalExactly(schema, docs, byName, byId, mode, rows);
  }

  const COLON_ROW: RV.RowObject := map["category" := "a::b", "workbasket" := "w"]
  const HIDDEN_ROW: RV.RowObject := map["category" := "a", "subcategory" := "b::", "workbasket" := "w"]
  const WORKBASKETS: map<string, string> := map["w" := "1"]

  lemma FoldedLiterals()
    ensures Key("a::b") == "a::b" && Key("a") == "a" && Key("b::") == "b::" && Key("") == "" && Trim("w") == "w"
        && Trim("a::b") == "a::b" && Trim("") == "" && Lower("w") == "w"
  {
    TrimIsTrimmed("a::b");
    TrimIsTrimmed("a");
    TrimIsTrimmed("b::");
    TrimIsTrimmed("w");
    assert Lower("a::b") == "a::b" && Lower("a") == "a" && Lower("b::") == "b::" && Lower("w") == "w";
  }

  lemma ImportsOne(row: RV.ValidRow)
    requires row.data == RV.CategoryData("a::b", "", "1", "w")
    ensures ImportRows([], [row], 1) == [Category("a::b", true, [])]
  {
    hide Lower;
    FoldedLiterals();
    assert ImportRows([], [row], 0) == [];
    assert ImportRow([], row.data) == [Category("a::b", true, [])];
  }

  lemma SnapshotOfOne()
    ensures var db := SnapshotOf([Category("a::b", true, [])], WORKBASKETS, map[]);
      db.active == map["a::b" := true] && db.pairs == {}
  {
    hide Trim, Lower;
    FoldedLiterals();
    var docs := [Category("a::b", true, [])];
    assert ActiveOf(docs, 0) == map[];
  }

  ghost predicate Lenient(schema: RV.Schema) {
    schema.required == [CATEGORY] && forall f, v :: schema.check(f, v)
  }

  lemma Keys(db: RV.Snapshot)
    requires db.Categories?
    ensures RV.FileKey(db, COLON_ROW) == "a::b::" == RV.FileKey(db, HIDDEN_ROW)
  {
    hide Trim, Lower;
    FoldedLiterals();
  }

  lemma Readable(schema: RV.Schema)
    requires Lenient(schema)
    ensures RV.SchemaAccepts(schema, COLON_ROW) && !RV.IsEmptyRow(COLON_ROW)
    ensures RV.SchemaAccepts(schema, HIDDEN_ROW) && !RV.IsEmptyRow(HIDDEN_ROW)
  {
    hide Trim, Lower;
    FoldedLiterals();
    TrimIsTrimmed("a");
    assert Trim(COLON_ROW[CATEGORY]) == "a::b" && Trim(HIDDEN_ROW[CATEGORY]) == "a";
  }

  lemma FirstVerdicts(schema: RV.Schema, db: RV.Snapshot)
    requires Lenient(schema) && db == SnapshotOf([], WORKBASKETS, map[])
    ensures RV.Judge(schema, db, RV.Skip, COLON_ROW, {})
        == RV.Valid(RV.CategoryData("a::b", "", "1", "w"), "a::b", RV.CreateCategory)
    ensures RV.Judge(schema, db, RV.Skip, HIDDEN_ROW, {"a::b::"}) == RV.Invalid(RV.FileDuplicate)
  {
    hide Trim, Lower, RV.SchemaAccepts, RV.IsEmptyRow, RV.FileKey;
    FoldedLiterals();
    Keys(db);
    Readable(schema);
    assert db.active == map[] && db.pairs == {};
  }

  lemma FirstRun(schema: RV.Schema, rows: seq<RV.NumberedRow>)
    requires Lenient(schema)
    requires rows == [RV.NumberedRow(2, COLON_ROW), RV.NumberedRow(3, HIDDEN_ROW)]
    ensures var verdicts := RV.Verdicts(schema, SnapshotOf([], WORKBASKETS, map[]), RV.Skip, rows, 2);
      && verdicts[0] == RV.Valid(RV.CategoryData("a::b", "", "1", "w"), "a::b", RV.CreateCategory)
      && verdicts[1] == RV.Invalid(RV.FileDuplicate)
  {
    hide RV.Judge, RV.FileKey, RV.Verdicts;
    var db := SnapshotOf([], WORKBASKETS, map[]);
    var verdicts := RV.Verdicts(schema, db, RV.Skip, rows, 2);
    FirstVerdicts(schema, db);
    RV.VerdictAt(schema, db, RV.Skip, rows, 0);
    RV.VerdictAt(schema, db, RV.Skip, rows, 1);
    Keys(db);
    assert RV.Seen(db, rows, verdicts, 0) == {};
    assert RV.Seen(db, rows, verdicts, 1) == {"a::b::"};
  }

  lemma SecondVerdicts(schema: RV.Schema, db: RV.Snapshot)
    requires Lenient(schema) && db == SnapshotOf([Category("a::b", true, [])], WORKBASKETS, map[])
    ensures RV.Judge(schema, db, RV.Skip, COLON_ROW, {}).Skipped?
    ensures RV.Judge(schema, db, RV.Skip, HIDDEN_ROW, {}).Valid?
  {
    hide Trim, Lower, ActiveOf, PairsOf, RV.SchemaAccepts, RV.IsEmptyRow, RV.FileKey;
    FoldedLiterals();
    SnapshotOfOne();
    Keys(db);
    Readable(schema);
    assert RV.Existing(db, COLON_ROW);
    assert |"a"| != |"a::b"|;
    assert !RV.Existing(db, HIDDEN_ROW);
  }

  lemma SecondRun(schema: RV.Schema, rows: seq<RV.NumberedRow>)
    requires Lenient(schema)
    requires rows == [RV.NumberedRow(2, COLON_ROW), RV.NumberedRow(3, HIDDEN_ROW)]
    ensures var db := SnapshotOf([Category("a::b", true, [])], WORKBASKETS, map[]);
      RV.Verdicts(schema, db, RV.Skip, rows, 2)[1].Valid?
  {
    hide RV.Judge, RV.FileKey, RV.Verdicts;
    var db := SnapshotOf([Category("a::b", true, [])], WORKBASKETS, map[]);
    var verdicts := RV.Verdicts(schema, db, RV.Skip, rows, 2);
    SecondVerdicts(schema, db);
    RV.VerdictAt(schema, db, RV.Skip, rows, 0);
    RV.VerdictAt(schema, db, RV.Skip, rows, 1);
    assert RV.Seen(db, rows, verdicts, 0) == {};
    assert RV.Seen(db, rows, verdicts, 1) == {};
  }

  /** With colons in category names a row can hide behind another's key: of these two, the first
      import takes only the first, and the second import then takes the other. */
  lemma ColonsHideARow(schema: RV.Schema)
    requires Lenient(schema)
    ensures var rows := [RV.NumberedRow(2, COLON_ROW), RV.NumberedRow(3, HIDDEN_ROW)];
      var docs' := Imported(schema, [], WORKBASKETS, map[], RV.Skip, rows);
      && RV.Verdicts(schema, SnapshotOf([], WORKBASKETS, map[]), RV.Skip, rows, 2)[1] == RV.Invalid(RV.FileDuplicate)
      && RV.Verdicts(schema, SnapshotOf(docs', WORKBASKETS, map[]), RV.Skip, rows, 2)[1].Valid?
  {
    hide Trim, Lower, RV.Judge, RV.Verdicts, SnapshotOf;
    var rows := [RV.NumberedRow(2, COLON_ROW), RV.NumberedRow(3, HIDDEN_ROW)];
    FirstRun(schema, rows);
    SecondRun(schema, rows);
    var verdicts := RV.Verdicts(schema, SnapshotOf([], WORKBASKETS, map[]), RV.Skip, rows, 2);
    var valid := RV.ValidRows(rows, verdicts, 2);
    assert RV.ValidRows(rows, verdicts, 0) == [];
    assert RV.ValidRows(rows, verdicts, 1)
        == [RV.ValidRow(2, RV.CategoryData("a::b", "", "1", "w"), "a::b", RV.CreateCategory)];
    assert valid == [RV.ValidRow(2, RV.CategoryData("a::b", "", "1", "w"), "a::b", RV.CreateCategory)];
    ImportsOne(valid[0]);
  }
}
