/** Matching the columns of an uploaded file to the fields of an upload type. `norm` stands for the
    header normalisation (lower case, letters and digits only); every result holds for any such
    function and any alias table. */
module HeaderMatching {
  import opened Sequences
  import opened Text

  type FieldMap = map<string, nat>

  datatype Config = Config(headers: seq<string>, required: seq<string>, aliases: map<string, seq<string>>)

  /** An entry of the caller's own mapping: a source header and the field it feeds. */
  datatype Manual = Manual(source: string, target: string)

  /** The columns handed out so far, and the field each feeds. */
  datatype Matching = Matching(used: set<nat>, fields: FieldMap)

  // ---------------------------------------------------------------- specification

  function Names(cfg: Config, field: string): seq<string> {
    [field] + if field in cfg.aliases then cfg.aliases[field] else []
  }

  predicate Matches(cfg: Config, norm: string -> string, field: string, header: string) {
    exists i :: 0 <= i < |Names(cfg, field)| && norm(Names(cfg, field)[i]) == norm(header)
  }

  function IndexOf(received: seq<string>, header: string, from: nat): (index: int)
    requires from <= |received|
    ensures -1 <= index < |received|
    ensures index >= 0 ==> from <= index && received[index] == header && header !in received[from..index]
    ensures index == -1 ==> header !in received[from..]
    decreases |received| - from
  {
    if from == |received| then -1
    else if received[from] == header then from
    else
      var index := IndexOf(received, header, from + 1);
      assert received[from..] == [received[from]] + received[from + 1..];
      assert index >= 0 ==> received[from..index] == [received[from]] + received[from + 1..index];
      index
  }

  function ManualStep(cfg: Config, received: seq<string>, m: Matching, entry: Manual): Matching {
    var index := IndexOf(received, entry.source, 0);
    if entry.target in cfg.headers && index >= 0 && index !in m.used
    then Matching(m.used + {index}, m.fields[entry.target := index])
    else m
  }

  function ManualFold(cfg: Config, received: seq<string>, entries: seq<Manual>): Matching {
    if entries == [] then Matching({}, map[])
    else ManualStep(cfg, received, ManualFold(cfg, received, entries[..|entries| - 1]), entries[|entries| - 1])
  }

  predicate Free(cfg: Config, norm: string -> string, received: seq<string>, used: set<nat>, field: string, i: nat)
    requires i < |received|
  {
    i !in used && Matches(cfg, norm, field, received[i])
  }

  /** The first free column that matches `field`. */
  function FirstFree(cfg: Config, norm: string -> string, received: seq<string>, used: set<nat>, field: string,
                     from: nat): (index: int)
    requires from <= |received|
    ensures index == -1 || from <= index < |received|
    ensures index >= 0 ==> Free(cfg, norm, received, used, field, index)
    ensures index >= 0 ==> forall i :: from <= i < index ==> !Free(cfg, norm, received, used, field, i)
    ensures index == -1 ==> forall i :: from <= i < |received| ==> !Free(cfg, norm, received, used, field, i)
    decreases |received| - from
  {
    if from == |received| then -1
    else if Free(cfg, norm, received, used, field, from) then from
    else FirstFree(cfg, norm, received, used, field, from + 1)
  }

  function AutoStep(cfg: Config, norm: string -> string, received: seq<string>, m: Matching, field: string): Matching {
    if field in m.fields then m
    else
      var index := FirstFree(cfg, norm, received, m.used, field, 0);
      if index >= 0 then Matching(m.used + {index}, m.fields[field := index]) else m
  }

  function AutoFold(cfg: Config, norm: string -> string, received: seq<string>, start: Matching,
                    fields: seq<string>): Matching {
    if fields == [] then start
    else AutoStep(cfg, norm, received, AutoFold(cfg, norm, received, start, fields[..|fields| - 1]),
        fields[|fields| - 1])
  }

  function FieldMapOf(cfg: Config, norm: string -> string, received: seq<string>, manual: seq<Manual>): FieldMap {
    AutoFold(cfg, norm, received, ManualFold(cfg, received, manual), cfg.headers).fields
  }

  function Missing(required: seq<string>, fields: FieldMap): (missing: seq<string>)
    ensures forall f :: f in missing <==> f in required && f !in fields
  {
    if required == [] then []
    else (if required[0] in fields then [] else [required[0]]) + Missing(required[1..], fields)
  }

  /** mapHeaders: first the caller's entries in order, then every field still open in order. */
  method MapHeaders(cfg: Config, norm: string -> string, received: seq<string>, manual: seq<Manual>)
    returns (fields: FieldMap, missing: seq<string>)
    ensures fields == FieldMapOf(cfg, norm, received, manual)
    ensures missing == Missing(cfg.required, fields)
  {
    var used: set<nat> := {};
    fields := map[];
    var i := 0;
    while i < |manual|
      invariant 0 <= i <= |manual|
      invariant Matching(used, fields) == ManualFold(cfg, received, manual[..i])
    {
      assert manual[..i + 1][..i] == manual[..i];
      var entry := manual[i];
      if entry.target in cfg.headers {
        var index := IndexOf(received, entry.source, 0);
        if index >= 0 && index !in used {
          used := used + {index};
          fields := fields[entry.target := index];
        }
      }
      i := i + 1;
    }
    assert manual[..i] == manual;
    ghost var start := Matching(used, fields);
    i := 0;
    while i < |cfg.headers|
      invariant 0 <= i <= |cfg.headers|
      invariant Matching(used, fields) == AutoFold(cfg, norm, received, start, cfg.headers[..i])
    {
      assert cfg.headers[..i + 1][..i] == cfg.headers[..i];
      var field := cfg.headers[i];
      if field !in fields {
        var index := FirstFree(cfg, norm, received, used, field, 0);
        if index >= 0 {
          used := used + {index};
          fields := fields[field := index];
        }
      }
      i := i + 1;
    }
    assert cfg.headers[..i] == cfg.headers;
    missing := Missing(cfg.required, fields);
  }

  // ---------------------------------------------------------------- soundness of any matching

  /** Every field has its own column, inside the file, and is a field of the type. */
  ghost predicate Sound(cfg: Config, received: seq<string>, m: Matching) {
    && (forall f :: f in m.fields ==> f in cfg.headers && m.fields[f] < |received| && m.fields[f] in m.used)
    && (forall f, g :: f in m.fields && g in m.fields && f != g ==> m.fields[f] != m.fields[g])
  }

  lemma {:induction false} ManualSound(cfg: Config, received: seq<string>, entries: seq<Manual>)
    ensures Sound(cfg, received, ManualFold(cfg, received, entries))
    decreases |entries|
  {
    if entries != [] {
      ManualSound(cfg, received, entries[..|entries| - 1]);
    }
  }

  lemma {:induction false} AutoSound(cfg: Config, norm: string -> string, received: seq<string>, start: Matching,
                                     fields: seq<string>)
    requires Sound(cfg, received, start) && forall f :: f in fields ==> f in cfg.headers
    ensures Sound(cfg, received, AutoFold(cfg, norm, received, start, fields))
    decreases |fields|
  {
    if fields != [] {
      AutoSound(cfg, norm, received, start, fields[..|fields| - 1]);
    }
  }

  /** Matching is greedy and never gives up too early: a field stays open only when every matching
      column has been handed out, and later steps never take a match back. */
  lemma {:induction false} AutoComplete(cfg: Config, norm: string -> string, received: seq<string>, start: Matching,
                                        fields: seq<string>)
    ensures var m := AutoFold(cfg, norm, received, start, fields);
      && start.used <= m.used
      && (forall f :: f in start.fields ==> f in m.fields && m.fields[f] == start.fields[f])
      && (forall f :: f in fields && f !in m.fields ==>
            forall i :: 0 <= i < |received| ==> !Free(cfg, norm, received, m.used, f, i))
    decreases |fields|
  {
    if fields != [] {
      var n := |fields| - 1;
      AutoComplete(cfg, norm, received, start, fields[..n]);
      assert fields == fields[..n] + [fields[n]];
      var before := AutoFold(cfg, norm, received, start, fields[..n]);
      var m := AutoFold(cfg, norm, received, start, fields);
      forall f, i | f in fields && f !in m.fields && 0 <= i < |received|
        ensures !Free(cfg, norm, received, m.used, f, i)
      {
        if f in fields[..n] {
          assert !Free(cfg, norm, received, before.used, f, i);
        }
      }
    }
  }

  /** A field mapped automatically has a column that matches it. */
  lemma {:induction false} AutoMatches(cfg: Config, norm: string -> string, received: seq<string>, start: Matching,
                                       fields: seq<string>)
    requires forall f :: f in start.fields ==> start.fields[f] < |received|
    ensures var m := AutoFold(cfg, norm, received, start, fields);
      forall f :: f in m.fields && f !in start.fields ==>
        m.fields[f] < |received| && Matches(cfg, norm, f, received[m.fields[f]])
    decreases |fields|
  {
    if fields != [] {
      hide Matches;
      AutoMatches(cfg, norm, received, start, fields[..|fields| - 1]);
    }
  }

  /** A header fits a field when it normalises as the field's own name or as one of its aliases. */
  predicate Fits(cfg: Config, norm: string -> string, field: string, header: string) {
    || norm(header) == norm(field)
    || (field in cfg.aliases
        && exists i :: 0 <= i < |cfg.aliases[field]| && norm(header) == norm(cfg.aliases[field][i]))
  }

  lemma MatchesExactly(cfg: Config, norm: string -> string, field: string, header: string)
    ensures Matches(cfg, norm, field, header) <==> Fits(cfg, norm, field, header)
  {
    var names := Names(cfg, field);
    assert names[0] == field;
    if field in cfg.aliases {
      assert forall i :: 0 <= i < |cfg.aliases[field]| ==> names[i + 1] == cfg.aliases[field][i];
    }
  }

  /** Whatever the file, the aliases and the caller's mapping: columns exist and are shared by no two
      fields; a field the caller did not map has a column that matches it, or, if it is left open,
      there is no unused column that does. */
  lemma MatchingIsSound(cfg: Config, norm: string -> string, received: seq<string>, manual: seq<Manual>)
    ensures var start := ManualFold(cfg, received, manual);
      var m := AutoFold(cfg, norm, received, start, cfg.headers);
      && FieldMapOf(cfg, norm, received, manual) == m.fields
      && (forall f :: f in m.fields ==> f in cfg.headers && m.fields[f] < |received|)
      && (forall f, g :: f in m.fields && g in m.fields && f != g ==> m.fields[f] != m.fields[g])
      && (forall f :: f in m.fields && f !in start.fields ==> Fits(cfg, norm, f, received[m.fields[f]]))
      && (forall f, i :: f in cfg.headers && f !in m.fields && 0 <= i < |received| && i !in m.used ==>
            !Fits(cfg, norm, f, received[i]))
  {
    var start := ManualFold(cfg, received, manual);
    ManualSound(cfg, received, manual);
    AutoMatches(cfg, norm, received, start, cfg.headers);
    AutoSound(cfg, norm, received, start, cfg.headers);
    AutoComplete(cfg, norm, received, start, cfg.headers);
    var m := AutoFold(cfg, norm, received, start, cfg.headers);
    forall f, i | f in cfg.headers && f !in m.fields && 0 <= i < |received| && i !in m.used
      ensures !Fits(cfg, norm, f, received[i])
    {
      assert !Free(cfg, norm, received, m.used, f, i);
      MatchesExactly(cfg, norm, f, received[i]);
    }
    forall f | f in m.fields && f !in start.fields ensures Fits(cfg, norm, f, received[m.fields[f]]) {
      MatchesExactly(cfg, norm, f, received[m.fields[f]]);
    }
  }

  /** Entry `k` of the caller's mapping counts: its target is a field of the type, its source a header
      of the file, and no earlier entry with such a target has the same source. */
  predicate Counts(cfg: Config, received: seq<string>, manual: seq<Manual>, k: nat)
    requires k < |manual|
  {
    && manual[k].target in cfg.headers && manual[k].source in received
    && forall j :: 0 <= j < k && manual[j].target in cfg.headers ==> manual[j].source != manual[k].source
  }

  /** Column `i` is the first with this header. */
  predicate FirstOf(received: seq<string>, i: nat, header: string) {
    i < |received| && received[i] == header && forall j :: 0 <= j < i ==> received[j] != header
  }

  lemma IndexIsFirst(received: seq<string>, header: string, i: nat)
    ensures FirstOf(received, i, header) <==> IndexOf(received, header, 0) == i
    ensures IndexOf(received, header, 0) >= 0 <==> header in received
  {
    assert received[0..] == received;
    var index := IndexOf(received, header, 0);
    if index >= 0 {
      assert forall j :: 0 <= j < index ==> received[0..index][j] == received[j];
    }
  }

  /** The columns handed out by the caller's entries: the first of each source named for a field. */
  lemma {:induction false} ManualUsed(cfg: Config, received: seq<string>, manual: seq<Manual>, i: nat)
    ensures i in ManualFold(cfg, received, manual).used <==>
      exists k :: 0 <= k < |manual| && manual[k].target in cfg.headers && FirstOf(received, i, manual[k].source)
    decreases |manual|
  {
    hide FirstOf;
    if manual != [] {
      var n := |manual| - 1;
      ManualUsed(cfg, received, manual[..n], i);
      assert forall k :: 0 <= k < n ==> manual[..n][k] == manual[k];
      IndexIsFirst(received, manual[n].source, i);
    }
  }

  /** The last of the first `n` entries for a field that counts. */
  predicate Decides(cfg: Config, received: seq<string>, manual: seq<Manual>, n: nat, k: nat, f: string)
    requires k < n <= |manual|
  {
    && manual[k].target == f && Counts(cfg, received, manual, k)
    && forall j :: k < j < n && manual[j].target == f ==> !Counts(cfg, received, manual, j)
  }

  /** Whether the next entry counts is whether its column exists and is free. */
  lemma CountsExactly(cfg: Config, received: seq<string>, manual: seq<Manual>, n: nat)
    requires n < |manual|
    ensures var index := IndexOf(received, manual[n].source, 0);
      Counts(cfg, received, manual, n)
      <==> manual[n].target in cfg.headers && index >= 0 && index !in ManualFold(cfg, received, manual[..n]).used
  {
    var index := IndexOf(received, manual[n].source, 0);
    IndexIsFirst(received, manual[n].source, if index >= 0 then index else 0);
    if index >= 0 {
      ManualUsed(cfg, received, manual[..n], index);
      assert forall k :: 0 <= k < n ==> manual[..n][k] == manual[k];
    }
  }

  lemma {:induction false} ManualDecides(cfg: Config, received: seq<string>, manual: seq<Manual>, n: nat, f: string)
    requires n <= |manual|
    ensures var fields := ManualFold(cfg, received, manual[..n]).fields;
      && (f in fields ==> exists k :: 0 <= k < n && Decides(cfg, received, manual, n, k, f)
                                      && FirstOf(received, fields[f], manual[k].source))
      && (f !in fields ==> forall k :: 0 <= k < n && manual[k].target == f ==> !Counts(cfg, received, manual, k))
  {
    if n > 0 {
      ManualDecides(cfg, received, manual, n - 1, f);
      CountsExactly(cfg, received, manual, n - 1);
      assert manual[..n][..n - 1] == manual[..n - 1];
      var index := IndexOf(received, manual[n - 1].source, 0);
      IndexIsFirst(received, manual[n - 1].source, if index >= 0 then index else 0);
      hide Counts, FirstOf;
      var fields := ManualFold(cfg, received, manual[..n]).fields;
      if f in fields && !(manual[n - 1].target == f && Counts(cfg, received, manual, n - 1)) {
        var k :| 0 <= k < n - 1 && Decides(cfg, received, manual, n - 1, k, f)
            && FirstOf(received, fields[f], manual[k].source);
        assert Decides(cfg, received, manual, n, k, f);
      } else if f in fields {
        assert Decides(cfg, received, manual, n, n - 1, f);
      }
    }
  }

  /** The caller's mapping is honoured exactly: a field has the first column of the source named by the
      last entry for it that counts; and a field without such an entry is left to the automatic pass. */
  lemma ManualIsHonoured(cfg: Config, norm: string -> string, received: seq<string>, manual: seq<Manual>, f: string)
    ensures var fields := FieldMapOf(cfg, norm, received, manual);
      && ((exists k :: 0 <= k < |manual| && manual[k].target == f && Counts(cfg, received, manual, k)) ==>
            f in fields && exists k :: 0 <= k < |manual| && Decides(cfg, received, manual, |manual|, k, f)
                                       && FirstOf(received, fields[f], manual[k].source))
      && ((forall k :: 0 <= k < |manual| && manual[k].target == f ==> !Counts(cfg, received, manual, k)) ==>
            f !in ManualFold(cfg, received, manual).fields)
  {
    hide Counts, FirstOf;
    AutoComplete(cfg, norm, received, ManualFold(cfg, received, manual), cfg.headers);
    ManualDecides(cfg, received, manual, |manual|, f);
    assert manual[..|manual|] == manual;
    if f in ManualFold(cfg, received, manual).fields {
      var k :| 0 <= k < |manual| && Decides(cfg, received, manual, |manual|, k, f)
          && FirstOf(received, ManualFold(cfg, received, manual).fields[f], manual[k].source);
      assert manual[k].target == f && Counts(cfg, received, manual, k);
    }
  }

  /** A field the caller has mapped stays mapped to a column the caller named for it. */
  lemma ManualIsKept(cfg: Config, norm: string -> string, received: seq<string>, manual: seq<Manual>, f: string)
    requires f in ManualFold(cfg, received, manual).fields
    ensures var fields := FieldMapOf(cfg, norm, received, manual);
      && f in fields && fields[f] < |received|
      && exists k :: 0 <= k < |manual| && manual[k].target == f && received[fields[f]] == manual[k].source
  {
    AutoComplete(cfg, norm, received, ManualFold(cfg, received, manual), cfg.headers);
    ManualOrigin(cfg, received, manual, f);
  }

  lemma {:induction false} ManualOrigin(cfg: Config, received: seq<string>, manual: seq<Manual>, f: string)
    requires f in ManualFold(cfg, received, manual).fields
    ensures var index := ManualFold(cfg, received, manual).fields[f];
      index < |received|
      && exists k :: 0 <= k < |manual| && manual[k].target == f && received[index] == manual[k].source
    decreases |manual|
  {
    ManualSound(cfg, received, manual);
    var n := |manual| - 1;
    var before := ManualFold(cfg, received, manual[..n]);
    var now := ManualFold(cfg, received, manual);
    if f in before.fields && before.fields[f] == now.fields[f] {
      ManualOrigin(cfg, received, manual[..n], f);
      var k :| 0 <= k < n && manual[..n][k].target == f && received[now.fields[f]] == manual[..n][k].source;
      assert manual[k].target == f;
    } else {
      assert manual[n].target == f;
    }
  }

  // ---------------------------------------------------------------- column order

  /** No column could feed two fields, and no field could be fed by two columns. */
  ghost predicate Unambiguous(cfg: Config, norm: string -> string, received: seq<string>) {
    && (forall f, g, i | f in cfg.headers && g in cfg.headers && 0 <= i < |received| ::
          Matches(cfg, norm, f, received[i]) && Matches(cfg, norm, g, received[i]) ==> f == g)
    && (forall f, i, j | f in cfg.headers && 0 <= i < |received| && 0 <= j < |received| ::
          Matches(cfg, norm, f, received[i]) && Matches(cfg, norm, f, received[j]) ==> i == j)
  }

  ghost predicate Exact(cfg: Config, norm: string -> string, received: seq<string>, m: Matching, fields: seq<string>) {
    && (forall f :: f in m.fields ==>
        f in fields && m.fields[f] < |received| && Matches(cfg, norm, f, received[m.fields[f]]))
    && (forall i :: i in m.used ==> exists f :: f in m.fields && m.fields[f] == i)
  }

  lemma {:induction false} AutoExact(cfg: Config, norm: string -> string, received: seq<string>, fields: seq<string>)
    ensures Exact(cfg, norm, received, AutoFold(cfg, norm, received, Matching({}, map[]), fields), fields)
    decreases |fields|
  {
    if fields != [] {
      var n := |fields| - 1;
      AutoExact(cfg, norm, received, fields[..n]);
      assert fields == fields[..n] + [fields[n]];
      var before := AutoFold(cfg, norm, received, Matching({}, map[]), fields[..n]);
      var m := AutoFold(cfg, norm, received, Matching({}, map[]), fields);
      forall i | i in m.used ensures exists f :: f in m.fields && m.fields[f] == i {
        if i in before.used {
          var f :| f in before.fields && before.fields[f] == i;
          assert m.fields[f] == i;
        } else {
          assert m.fields[fields[n]] == i;
        }
      }
    }
  }

  /** Without ambiguity, greed is harmless: a field gets a column exactly when that column matches. */
  lemma UnambiguousMap(cfg: Config, norm: string -> string, received: seq<string>, f: string, i: nat)
    requires Unambiguous(cfg, norm, received) && f in cfg.headers && i < |received|
    ensures var fields := FieldMapOf(cfg, norm, received, []);
      (f in fields && fields[f] == i) <==> Matches(cfg, norm, f, received[i])
  {
    var m := AutoFold(cfg, norm, received, Matching({}, map[]), cfg.headers);
    AutoExact(cfg, norm, received, cfg.headers);
    AutoComplete(cfg, norm, received, Matching({}, map[]), cfg.headers);
    if Matches(cfg, norm, f, received[i]) {
      assert f in m.fields by {
        assert f !in m.fields ==> !Free(cfg, norm, received, m.used, f, i);
      }
    }
  }

  function At(values: seq<string>, index: nat): string {
    if index < |values| then values[index] else ""
  }

  /** buildRowObject: the trimmed cell of each mapped field; absent cells read as empty. */
  function BuildRow(fields: FieldMap, values: seq<string>): map<string, string> {
    map f | f in fields :: Trim(At(values, fields[f]))
  }

  /** `order` lists every column of a file of width `n` once. */
  ghost predicate Permutation(order: seq<nat>, n: nat) {
    && |order| == n
    && (forall i :: 0 <= i < n ==> order[i] < n)
    && (forall i, j :: 0 <= i < n && 0 <= j < n && i != j ==> order[i] != order[j])
    && (forall k: nat :: k < n ==> k in order)
  }

  ghost function Reorder(cells: seq<string>, order: seq<nat>): (r: seq<string>)
    requires forall i :: 0 <= i < |order| ==> order[i] < |cells|
    ensures |r| == |order| && forall i :: 0 <= i < |order| ==> r[i] == cells[order[i]]
  {
    seq(|order|, i requires 0 <= i < |order| => cells[order[i]])
  }

  /** A field follows its column. */
  lemma ColumnMoves(cfg: Config, norm: string -> string, received: seq<string>, order: seq<nat>, f: string)
    requires Unambiguous(cfg, norm, received) && Permutation(order, |received|)
    ensures var a := FieldMapOf(cfg, norm, received, []);
      var b := FieldMapOf(cfg, norm, Reorder(received, order), []);
      && (f in a <==> f in b)
      && (f in a ==> b[f] < |order| && a[f] == order[b[f]])
  {
    var moved := Reorder(received, order);
    assert Unambiguous(cfg, norm, moved) by {
      forall f, i, j | f in cfg.headers && 0 <= i < |moved| && 0 <= j < |moved|
        && Matches(cfg, norm, f, moved[i]) && Matches(cfg, norm, f, moved[j])
        ensures i == j
      {
        assert Matches(cfg, norm, f, received[order[i]]) && Matches(cfg, norm, f, received[order[j]]);
      }
    }
    MatchingIsSound(cfg, norm, received, []);
    MatchingIsSound(cfg, norm, moved, []);
    var a := FieldMapOf(cfg, norm, received, []);
    var b := FieldMapOf(cfg, norm, moved, []);
    if f in b {
      UnambiguousMap(cfg, norm, moved, f, b[f]);
      UnambiguousMap(cfg, norm, received, f, order[b[f]]);
    }
    if f in a {
      UnambiguousMap(cfg, norm, received, f, a[f]);
      assert a[f] in order;
      var i :| 0 <= i < |order| && order[i] == a[f];
      UnambiguousMap(cfg, norm, moved, f, i);
    }
  }

  /** Moving the columns of a file, headers and cells together, changes no row object. */
  lemma ColumnOrderIsIrrelevant(cfg: Config, norm: string -> string, received: seq<string>, values: seq<string>,
                                order: seq<nat>)
    requires Unambiguous(cfg, norm, received) && Permutation(order, |received|) && |values| == |received|
    ensures BuildRow(FieldMapOf(cfg, norm, Reorder(received, order), []), Reorder(values, order))
         == BuildRow(FieldMapOf(cfg, norm, received, []), values)
  {
    var a := FieldMapOf(cfg, norm, received, []);
    var b := FieldMapOf(cfg, norm, Reorder(received, order), []);
    forall f ensures (f in a <==> f in b) && (f in a ==> At(values, a[f]) == At(Reorder(values, order), b[f])) {
      ColumnMoves(cfg, norm, received, order, f);
    }
  }

  // ---------------------------------------------------------------- disjoint alias tables

  /** No two fields share a name after normalisation. */
  ghost predicate DisjointAliases(cfg: Config, norm: string -> string) {
    forall f, g, i, j | f in cfg.headers && g in cfg.headers && f != g
                        && 0 <= i < |Names(cfg, f)| && 0 <= j < |Names(cfg, g)| ::
      norm(Names(cfg, f)[i]) != norm(Names(cfg, g)[j])
  }

  /** The canonical columns in any order: with disjoint aliases every field is found, and the row
      object holds for each field the trimmed cell under its own header. */
  lemma CanonicalColumns(cfg: Config, norm: string -> string, received: seq<string>, values: seq<string>)
    requires DisjointAliases(cfg, norm) && Distinct(received)
    requires forall h :: h in received <==> h in cfg.headers
    ensures var row := BuildRow(FieldMapOf(cfg, norm, received, []), values);
      && Unambiguous(cfg, norm, received)
      && (forall f :: f in row <==> f in cfg.headers)
      && (forall i :: 0 <= i < |received| ==>
            received[i] in row && row[received[i]] == if i < |values| then Trim(values[i]) else "")
  {
    forall f, i | f in cfg.headers && 0 <= i < |received|
      ensures Matches(cfg, norm, f, received[i]) <==> f == received[i]
    {
      var g := received[i];
      assert Names(cfg, g)[0] == g;
    }
    assert Unambiguous(cfg, norm, received);
    var fields := FieldMapOf(cfg, norm, received, []);
    MatchingIsSound(cfg, norm, received, []);
    forall i | 0 <= i < |received| ensures received[i] in fields && fields[received[i]] == i {
      UnambiguousMap(cfg, norm, received, received[i], i);
    }
    forall f | f in cfg.headers ensures f in fields {
      var i :| 0 <= i < |received| && received[i] == f;
    }
  }

  // ---------------------------------------------------------------- required fields

  /** A required field that is no header of the type is reported missing for every file and every
      mapping. */
  lemma UnlistedRequiredIsMissing(cfg: Config, norm: string -> string, received: seq<string>, manual: seq<Manual>,
                                  f: string)
    requires f in cfg.required && f !in cfg.headers
    ensures f in Missing(cfg.required, FieldMapOf(cfg, norm, received, manual))
  {
    MatchingIsSound(cfg, norm, received, manual);
  }

  lemma {:induction false} NothingMissing(required: seq<string>, fields: FieldMap)
    requires forall f :: f in required ==> f in fields
    ensures Missing(required, fields) == []
    decreases |required|
  {
    if required != [] {
      assert required[0] in fields;
      NothingMissing(required[1..], fields);
    }
  }

  ghost predicate Accepted(cfg: Config, norm: string -> string, received: seq<string>, manual: seq<Manual>) {
    Missing(cfg.required, FieldMapOf(cfg, norm, received, manual)) == []
  }

  /** Some file can be accepted if and only if every required field is a header: the condition a
      type's tables must meet. */
  lemma AcceptableTables(cfg: Config, norm: string -> string)
    requires DisjointAliases(cfg, norm) && Distinct(cfg.headers)
    ensures (exists received, manual :: Accepted(cfg, norm, received, manual))
      <==> (forall f :: f in cfg.required ==> f in cfg.headers)
  {
    if forall f :: f in cfg.required ==> f in cfg.headers {
      // The canonical columns themselves make an acceptable file.
      var fields := FieldMapOf(cfg, norm, cfg.headers, []);
      CanonicalColumns(cfg, norm, cfg.headers, []);
      assert forall f :: f in cfg.headers ==> f in BuildRow(fields, []);
      NothingMissing(cfg.required, fields);
      assert Accepted(cfg, norm, cfg.headers, []);
    } else {
      var f :| f in cfg.required && f !in cfg.headers;
      forall received, manual ensures !Accepted(cfg, norm, received, manual) {
        UnlistedRequiredIsMissing(cfg, norm, received, manual, f);
      }
    }
  }

  const CLIENT_HEADERS: seq<string> := ["businessName", "businessEmail", "primaryContactNumber", "businessAddress",
    "PAN", "CIN", "TAN", "GST", "contactPersonName"]

  const CLIENT_REQUIRED: seq<string> := ["businessName", "businessEmail", "primaryContactNumber", "businessAddress",
    "city", "state", "pincode", "contactPersonName", "contactPersonEmail", "contactPersonPhone"]

  /** As the tables stand, no client file is ever accepted. */
  lemma ClientFilesAreAlwaysRejected(aliases: map<string, seq<string>>, norm: string -> string, received: seq<string>,
                                     manual: seq<Manual>)
    ensures var cfg := Config(CLIENT_HEADERS, CLIENT_REQUIRED, aliases);
      "city" in Missing(cfg.required, FieldMapOf(cfg, norm, received, manual))
  {
    var cfg := Config(CLIENT_HEADERS, CLIENT_REQUIRED, aliases);
    assert CLIENT_REQUIRED[4] == "city";
    assert forall i :: 0 <= i < |CLIENT_HEADERS| ==> |CLIENT_HEADERS[i]| != |"city"|;
    UnlistedRequiredIsMissing(cfg, norm, received, manual, "city");
  }
}
