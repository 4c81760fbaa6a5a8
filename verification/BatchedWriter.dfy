/** The batching writer of the bulk importer for clients and team members: rows become operations,
    operations are written in batches, and every row is accounted for. A row may fail while its
    operation is prepared, and a bulk write may succeed, report write errors, or fail as a whole. */
module BatchedWriter {

  datatype Action = Create | Update
  datatype Row = Row(rowNumber: nat, action: Action)

  datatype Status = Done(action: Action) | Failed
  datatype Entry = Entry(rowNumber: nat, status: Status)

  /** What a bulk write reports: the number of documents changed, a number of write errors, or
      nothing but an exception. */
  datatype Outcome = Written(changed: nat) | WriteErrors(errors: nat) | Rejected

  /** The running totals of processBulkRows. `flushed` records the batches sent so far. */
  datatype Totals = Totals(success: nat, failure: nat, results: seq<Entry>, pending: seq<Row>,
                           flushed: seq<seq<Row>>, created: seq<Row>)

  // ---------------------------------------------------------------- one batch

  function Entries(batch: seq<Row>, good: int): (entries: seq<Entry>)
    ensures |entries| == |batch|
  {
    seq(|batch|, i requires 0 <= i < |batch| =>
      Entry(batch[i].rowNumber, if i < good then Done(batch[i].action) else Failed))
  }

  function Creates(batch: seq<Row>): seq<Row> {
    if batch == [] then []
    else
      var rest := Creates(batch[1..]);
      if batch[0].action.Create? then [batch[0]] + rest else rest
  }

  /** How many leading operations of a batch are reported as done; negative when more errors are
      reported than there were operations. */
  function Good(size: nat, outcome: Outcome): int {
    match outcome case Written(_) => size case WriteErrors(errors) => size - errors case Rejected => 0
  }

  function Successes(size: nat, outcome: Outcome): nat {
    match outcome
    case Written(changed) => changed
    case WriteErrors(errors) => if size > errors then size - errors else 0
    case Rejected => 0
  }

  function Failures(size: nat, outcome: Outcome): nat {
    match outcome case Written(_) => 0 case WriteErrors(errors) => errors case Rejected => size
  }

  function Created(batch: seq<Row>, outcome: Outcome): seq<Row> {
    if outcome.Written? then Creates(batch) else []
  }

  function Flush(t: Totals, outcome: Outcome): Totals {
    var size := |t.pending|;
    Totals(t.success + Successes(size, outcome), t.failure + Failures(size, outcome),
           t.results + Entries(t.pending, Good(size, outcome)), [], t.flushed + [t.pending],
           t.created + Created(t.pending, outcome))
  }

  // ---------------------------------------------------------------- all rows

  /** One row: its operation is queued, or its failure recorded. */
  function Take(t: Totals, row: Row, fails: bool): Totals {
    if fails then t.(failure := t.failure + 1, results := t.results + [Entry(row.rowNumber, Failed)])
    else t.(pending := t.pending + [row])
  }

  function FlushIfFull(t: Totals, batchSize: nat, outcomes: nat -> Outcome): Totals {
    if |t.pending| >= batchSize then Flush(t, outcomes(|t.flushed|)) else t
  }

  /** The totals after the first `n` rows. */
  function Run(rows: seq<Row>, fails: seq<bool>, batchSize: nat, outcomes: nat -> Outcome, n: nat): Totals
    requires n <= |rows| == |fails|
  {
    if n == 0 then Totals(0, 0, [], [], [], [])
    else FlushIfFull(Take(Run(rows, fails, batchSize, outcomes, n - 1), rows[n - 1], fails[n - 1]), batchSize, outcomes)
  }

  function Process(rows: seq<Row>, fails: seq<bool>, batchSize: nat, outcomes: nat -> Outcome): Totals
    requires |rows| == |fails|
  {
    var t := Run(rows, fails, batchSize, outcomes, |rows|);
    if t.pending != [] then Flush(t, outcomes(|t.flushed|)) else t
  }

  const BATCH_SIZE: nat := 500

  /** processBulkRows for clients and team members. */
  method ProcessBulkRows(rows: seq<Row>, fails: seq<bool>, outcomes: nat -> Outcome)
    returns (success: nat, failure: nat, results: seq<Entry>, created: seq<Row>, ghost flushed: seq<seq<Row>>)
    requires |rows| == |fails|
    ensures success == Process(rows, fails, BATCH_SIZE, outcomes).success
    ensures failure == Process(rows, fails, BATCH_SIZE, outcomes).failure
    ensures results == Process(rows, fails, BATCH_SIZE, outcomes).results
    ensures created == Process(rows, fails, BATCH_SIZE, outcomes).created
    ensures flushed == Process(rows, fails, BATCH_SIZE, outcomes).flushed
  {
    success, failure, results, created, flushed := 0, 0, [], [], [];
    var ops: seq<Row> := [];
    var writes := 0;
    var index := 0;
    while index < |rows|
      invariant 0 <= index <= |rows| && writes == |flushed|
      invariant Totals(success, failure, results, ops, flushed, created)
          == Run(rows, fails, BATCH_SIZE, outcomes, index)
    {
      var row := rows[index];
      if fails[index] {
        failure := failure + 1;
        results := results + [Entry(row.rowNumber, Failed)];
      } else {
        ops := ops + [row];
      }
      if |ops| >= BATCH_SIZE {
        var s, f, entries, made := WriteBatch(ops, outcomes(writes));
        success, failure, results, created := success + s, failure + f, results + entries, created + made;
        flushed := flushed + [ops];
        writes := writes + 1;
        ops := [];
      }
      index := index + 1;
    }
    if |ops| > 0 {
      var s, f, entries, made := WriteBatch(ops, outcomes(writes));
      success, failure, results, created := success + s, failure + f, results + entries, created + made;
      flushed := flushed + [ops];
    }
  }

  /** One bulk write and its bookkeeping: which entries are recorded for which rows. */
  method WriteBatch(ops: seq<Row>, outcome: Outcome)
    returns (success: nat, failure: nat, entries: seq<Entry>, created: seq<Row>)
    ensures success == Successes(|ops|, outcome) && failure == Failures(|ops|, outcome)
    ensures entries == Entries(ops, Good(|ops|, outcome)) && created == Created(ops, outcome)
  {
    entries, created := [], [];
    var good := Good(|ops|, outcome);
    match outcome {
      case Written(changed) => success, failure := changed, 0;
      case WriteErrors(errors) => success, failure := if good > 0 then good else 0, errors;
      case Rejected => success, failure := 0, |ops|;
    }
    var i := 0;
    while i < |ops|
      invariant 0 <= i <= |ops|
      invariant entries == Entries(ops, good)[..i]
      invariant created + Created(ops[i..], outcome) == Created(ops, outcome)
    {
      var item := ops[i];
      entries := entries + [Entry(item.rowNumber, if i < good then Done(item.action) else Failed)];
      if outcome.Written? && item.action.Create? {
        created := created + [item];
      }
      i := i + 1;
    }
  }

  // ---------------------------------------------------------------- what is written

  /** The rows whose operation could be prepared, in order: the unbatched operation sequence. */
  function Prepared(rows: seq<Row>, fails: seq<bool>, n: nat): seq<Row>
    requires n <= |rows| == |fails|
  {
    if n == 0 then []
    else
      var before := Prepared(rows, fails, n - 1);
      if fails[n - 1] then before else before + [rows[n - 1]]
  }

  function Concat(batches: seq<seq<Row>>): seq<Row> {
    if batches == [] then [] else Concat(batches[..|batches| - 1]) + batches[|batches| - 1]
  }

  lemma ConcatOneMore(batches: seq<seq<Row>>, batch: seq<Row>)
    ensures Concat(batches + [batch]) == Concat(batches) + batch
  {
    assert (batches + [batch])[..|batches|] == batches;
  }

  /** What holds of the batches between rows. */
  predicate InBatches(t: Totals, batchSize: nat, prepared: seq<Row>) {
    && Concat(t.flushed) + t.pending == prepared
    && forall k :: 0 <= k < |t.flushed| ==> |t.flushed[k]| == batchSize
  }

  lemma FlushBatches(t: Totals, batchSize: nat, prepared: seq<Row>, outcome: Outcome)
    requires InBatches(t, batchSize, prepared)
    ensures |t.pending| == batchSize ==> InBatches(Flush(t, outcome), batchSize, prepared)
    ensures Flush(t, outcome).pending == []
  {
    ConcatOneMore(t.flushed, t.pending);
  }

  lemma {:induction false} RunBatches(rows: seq<Row>, fails: seq<bool>, batchSize: nat, outcomes: nat -> Outcome,
                                      n: nat)
    requires n <= |rows| == |fails| && batchSize > 0
    ensures var t := Run(rows, fails, batchSize, outcomes, n);
      InBatches(t, batchSize, Prepared(rows, fails, n)) && |t.pending| < batchSize
  {
    if n > 0 {
      var before := Run(rows, fails, batchSize, outcomes, n - 1);
      assert Run(rows, fails, batchSize, outcomes, n)
          == FlushIfFull(Take(before, rows[n - 1], fails[n - 1]), batchSize, outcomes);
      hide Run;
      RunBatches(rows, fails, batchSize, outcomes, n - 1);
      var t := Take(before, rows[n - 1], fails[n - 1]);
      assert InBatches(t, batchSize, Prepared(rows, fails, n)) && |t.pending| <= batchSize;
      FlushBatches(t, batchSize, Prepared(rows, fails, n), outcomes(|t.flushed|));
      hide Flush, Take, InBatches;
    }
  }

  /** The batches, put back together, are the unbatched operations in order; all are full except
      perhaps the last, and none is empty. */
  lemma BatchesAreTheOperations(rows: seq<Row>, fails: seq<bool>, batchSize: nat, outcomes: nat -> Outcome)
    requires |rows| == |fails| && batchSize > 0
    ensures var t := Process(rows, fails, batchSize, outcomes);
      && t.pending == []
      && Concat(t.flushed) == Prepared(rows, fails, |rows|)
      && (forall k :: 0 <= k < |t.flushed| - 1 ==> |t.flushed[k]| == batchSize)
      && (forall k :: 0 <= k < |t.flushed| ==> 0 < |t.flushed[k]| <= batchSize)
  {
    var t := Run(rows, fails, batchSize, outcomes, |rows|);
    RunBatches(rows, fails, batchSize, outcomes, |rows|);
    ConcatOneMore(t.flushed, t.pending);
  }

  // ---------------------------------------------------------------- one result a row

  /** How often a row number is reported. */
  function Reports(results: seq<Entry>, number: nat): nat {
    if results == [] then 0
    else Reports(results[..|results| - 1], number) + (if results[|results| - 1].rowNumber == number then 1 else 0)
  }

  function Occurrences(rows: seq<Row>, number: nat): nat {
    if rows == [] then 0
    else Occurrences(rows[..|rows| - 1], number) + (if rows[|rows| - 1].rowNumber == number then 1 else 0)
  }

  lemma {:induction false} ReportsAppend(a: seq<Entry>, b: seq<Entry>, number: nat)
    ensures Reports(a + b, number) == Reports(a, number) + Reports(b, number)
    decreases |b|
  {
    if b == [] {
      assert a + b == a;
    } else {
      assert (a + b)[..|a + b| - 1] == a + b[..|b| - 1];
      ReportsAppend(a, b[..|b| - 1], number);
    }
  }

  lemma {:induction false} ReportsOfBatch(batch: seq<Row>, good: int, number: nat)
    ensures Reports(Entries(batch, good), number) == Occurrences(batch, number)
    decreases |batch|
  {
    if batch != [] {
      var n := |batch| - 1;
      ReportsOfBatch(batch[..n], good, number);
      assert Entries(batch, good)[..n] == Entries(batch[..n], good);
    }
  }

  lemma FlushReports(t: Totals, outcome: Outcome, number: nat)
    ensures Reports(Flush(t, outcome).results, number) == Reports(t.results, number) + Occurrences(t.pending, number)
  {
    var good := Good(|t.pending|, outcome);
    ReportsAppend(t.results, Entries(t.pending, good), number);
    ReportsOfBatch(t.pending, good, number);
  }

  lemma OccurrencesNext(rows: seq<Row>, n: nat, number: nat)
    requires 0 < n <= |rows|
    ensures Occurrences(rows[..n], number)
         == Occurrences(rows[..n - 1], number) + if rows[n - 1].rowNumber == number then 1 else 0
  {
    assert rows[..n][..n - 1] == rows[..n - 1];
  }

  lemma StepReports(t: Totals, row: Row, fails: bool, batchSize: nat, outcomes: nat -> Outcome, number: nat)
    ensures var t' := FlushIfFull(Take(t, row, fails), batchSize, outcomes);
      Reports(t'.results, number) + Occurrences(t'.pending, number)
      == Reports(t.results, number) + Occurrences(t.pending, number) + if row.rowNumber == number then 1 else 0
  {
    assert (t.results + [Entry(row.rowNumber, Failed)])[..|t.results|] == t.results;
    assert (t.pending + [row])[..|t.pending|] == t.pending;
    var taken := Take(t, row, fails);
    FlushReports(taken, outcomes(|taken.flushed|), number);
    assert Flush(taken, outcomes(|taken.flushed|)).pending == [];
    hide Flush, Reports;
  }

  lemma {:induction false} RunReports(rows: seq<Row>, fails: seq<bool>, batchSize: nat, outcomes: nat -> Outcome,
                                      n: nat, number: nat)
    requires n <= |rows| == |fails|
    ensures var t := Run(rows, fails, batchSize, outcomes, n);
      Reports(t.results, number) + Occurrences(t.pending, number) == Occurrences(rows[..n], number)
  {
    if n == 0 {
      assert rows[..0] == [];
    } else {
      hide Take, FlushIfFull, Reports, Occurrences;
      var before := Run(rows, fails, batchSize, outcomes, n - 1);
      assert Run(rows, fails, batchSize, outcomes, n)
          == FlushIfFull(Take(before, rows[n - 1], fails[n - 1]), batchSize, outcomes);
      hide Run;
      RunReports(rows, fails, batchSize, outcomes, n - 1, number);
      StepReports(before, rows[n - 1], fails[n - 1], batchSize, outcomes, number);
      OccurrencesNext(rows, n, number);
    }
  }

  /** Every row gets exactly one result, whatever fails: each row number is reported exactly as
      often as it occurs in the input. */
  lemma OneResultPerRow(rows: seq<Row>, fails: seq<bool>, batchSize: nat, outcomes: nat -> Outcome, number: nat)
    requires |rows| == |fails|
    ensures Reports(Process(rows, fails, batchSize, outcomes).results, number) == Occurrences(rows, number)
  {
    RunReports(rows, fails, batchSize, outcomes, |rows|, number);
    assert rows[..|rows|] == rows;
    var t := Run(rows, fails, batchSize, outcomes, |rows|);
    FlushReports(t, outcomes(|t.flushed|), number);
  }

  // ---------------------------------------------------------------- the two counters

  function FailedIn(results: seq<Entry>): nat {
    if results == [] then 0
    else FailedIn(results[..|results| - 1]) + (if results[|results| - 1].status.Failed? then 1 else 0)
  }

  lemma {:induction false} FailedAppend(a: seq<Entry>, b: seq<Entry>)
    ensures FailedIn(a + b) == FailedIn(a) + FailedIn(b)
    decreases |b|
  {
    if b == [] {
      assert a + b == a;
    } else {
      assert (a + b)[..|a + b| - 1] == a + b[..|b| - 1];
      FailedAppend(a, b[..|b| - 1]);
    }
  }

  lemma {:induction false} FailedInBatch(batch: seq<Row>, good: int)
    ensures FailedIn(Entries(batch, good))
         == if good >= |batch| then 0 else if good <= 0 then |batch| else |batch| - good
    decreases |batch|
  {
    if batch != [] {
      var n := |batch| - 1;
      FailedInBatch(batch[..n], good);
      assert Entries(batch, good)[..n] == Entries(batch[..n], good);
    }
  }

  /** Write errors reported beyond the size of the batch. */
  function Excess(batch: seq<Row>, outcome: Outcome): nat {
    if outcome.WriteErrors? && outcome.errors > |batch| then outcome.errors - |batch| else 0
  }

  /** Changes reported beyond, or short of, one per operation. */
  function Drift(batch: seq<Row>, outcome: Outcome): int {
    if outcome.Written? then outcome.changed - |batch| else 0
  }

  function TotalExcess(flushed: seq<seq<Row>>, outcomes: nat -> Outcome): nat {
    if flushed == [] then 0
    else var n := |flushed| - 1; TotalExcess(flushed[..n], outcomes) + Excess(flushed[n], outcomes(n))
  }

  function TotalDrift(flushed: seq<seq<Row>>, outcomes: nat -> Outcome): int {
    if flushed == [] then 0
    else var n := |flushed| - 1; TotalDrift(flushed[..n], outcomes) + Drift(flushed[n], outcomes(n))
  }

  /** The books: failures are the failed results plus any excess, and successes and failures make
      up the rows taken so far up to excess and drift. */
  predicate Balanced(t: Totals, outcomes: nat -> Outcome, n: nat) {
    && t.failure == FailedIn(t.results) + TotalExcess(t.flushed, outcomes)
    && t.success + t.failure + |t.pending| == n + TotalExcess(t.flushed, outcomes) + TotalDrift(t.flushed, outcomes)
  }

  /** One batch: its failures are its failed results and its excess, and its counters make up its
      size, its excess and its drift. */
  lemma BatchBalanced(batch: seq<Row>, outcome: Outcome)
    ensures Failures(|batch|, outcome) == FailedIn(Entries(batch, Good(|batch|, outcome))) + Excess(batch, outcome)
    ensures Successes(|batch|, outcome) + Failures(|batch|, outcome)
        == |batch| + Excess(batch, outcome) + Drift(batch, outcome)
  {
    FailedInBatch(batch, Good(|batch|, outcome));
  }

  lemma TotalsNext(flushed: seq<seq<Row>>, batch: seq<Row>, outcomes: nat -> Outcome)
    ensures TotalExcess(flushed + [batch], outcomes)
        == TotalExcess(flushed, outcomes) + Excess(batch, outcomes(|flushed|))
    ensures TotalDrift(flushed + [batch], outcomes) == TotalDrift(flushed, outcomes) + Drift(batch, outcomes(|flushed|))
  {
    assert (flushed + [batch])[..|flushed|] == flushed;
  }

  lemma FlushBalanced(t: Totals, outcomes: nat -> Outcome, n: nat)
    requires Balanced(t, outcomes, n)
    ensures Balanced(Flush(t, outcomes(|t.flushed|)), outcomes, n)
  {
    hide FailedIn, TotalExcess, TotalDrift, Excess, Drift, Successes, Failures, Good, Creates;
    var outcome := outcomes(|t.flushed|);
    FailedAppend(t.results, Entries(t.pending, Good(|t.pending|, outcome)));
    BatchBalanced(t.pending, outcome);
    TotalsNext(t.flushed, t.pending, outcomes);
  }

  lemma {:induction false} RunBalanced(rows: seq<Row>, fails: seq<bool>, batchSize: nat, outcomes: nat -> Outcome,
                                       n: nat)
    requires n <= |rows| == |fails|
    ensures Balanced(Run(rows, fails, batchSize, outcomes, n), outcomes, n)
  {
    if n > 0 {
      RunBalanced(rows, fails, batchSize, outcomes, n - 1);
      var t := Run(rows, fails, batchSize, outcomes, n - 1);
      var t' := Take(t, rows[n - 1], fails[n - 1]);
      assert (t.results + [Entry(rows[n - 1].rowNumber, Failed)])[..|t.results|] == t.results;
      assert Balanced(t', outcomes, n);
      FlushBalanced(t', outcomes, n);
    }
  }

  lemma ProcessBalanced(rows: seq<Row>, fails: seq<bool>, batchSize: nat, outcomes: nat -> Outcome)
    requires |rows| == |fails| && batchSize > 0
    ensures var t := Process(rows, fails, batchSize, outcomes); Balanced(t, outcomes, |rows|) && t.pending == []
  {
    RunBalanced(rows, fails, batchSize, outcomes, |rows|);
    FlushBalanced(Run(rows, fails, batchSize, outcomes, |rows|), outcomes, |rows|);
    BatchesAreTheOperations(rows, fails, batchSize, outcomes);
  }

  lemma {:induction false} NoExcess(flushed: seq<seq<Row>>, outcomes: nat -> Outcome)
    ensures TotalExcess(flushed, outcomes) == 0
        <==> forall k :: 0 <= k < |flushed| ==> Excess(flushed[k], outcomes(k)) == 0
    decreases |flushed|
  {
    if flushed != [] {
      NoExcess(flushed[..|flushed| - 1], outcomes);
    }
  }

  /** The failure counter is the number of failed results if and only if no bulk write reports more
      errors than it had operations. */
  lemma FailureCountIsExact(rows: seq<Row>, fails: seq<bool>, batchSize: nat, outcomes: nat -> Outcome)
    requires |rows| == |fails| && batchSize > 0
    ensures var t := Process(rows, fails, batchSize, outcomes);
      t.failure == FailedIn(t.results)
      <==> forall k :: 0 <= k < |t.flushed| ==> Excess(t.flushed[k], outcomes(k)) == 0
  {
    ProcessBalanced(rows, fails, batchSize, outcomes);
    NoExcess(Process(rows, fails, batchSize, outcomes).flushed, outcomes);
  }

  /** A driver that counts sensibly: never more changes, nor more errors, than operations. */
  ghost predicate Sensible(flushed: seq<seq<Row>>, outcomes: nat -> Outcome) {
    forall k :: 0 <= k < |flushed| ==> Excess(flushed[k], outcomes(k)) == 0 && Drift(flushed[k], outcomes(k)) <= 0
  }

  lemma {:induction false} DriftDown(flushed: seq<seq<Row>>, outcomes: nat -> Outcome)
    requires Sensible(flushed, outcomes)
    ensures TotalDrift(flushed, outcomes) <= 0
    ensures TotalDrift(flushed, outcomes) == 0
        <==> forall k :: 0 <= k < |flushed| ==> Drift(flushed[k], outcomes(k)) == 0
    decreases |flushed|
  {
    if flushed != [] {
      DriftDown(flushed[..|flushed| - 1], outcomes);
    }
  }

  /** With a sensible driver successes and failures never exceed the rows, and they add up to the
      rows exactly when every successful bulk write reports one change per operation. */
  lemma CountersAddUp(rows: seq<Row>, fails: seq<bool>, batchSize: nat, outcomes: nat -> Outcome)
    requires |rows| == |fails| && batchSize > 0
    requires Sensible(Process(rows, fails, batchSize, outcomes).flushed, outcomes)
    ensures var t := Process(rows, fails, batchSize, outcomes);
      && t.failure == FailedIn(t.results)
      && t.success + t.failure <= |rows|
      && (t.success + t.failure == |rows|
          <==> forall k :: 0 <= k < |t.flushed| ==> Drift(t.flushed[k], outcomes(k)) == 0)
  {
    var t := Process(rows, fails, batchSize, outcomes);
    ProcessBalanced(rows, fails, batchSize, outcomes);
    NoExcess(t.flushed, outcomes);
    DriftDown(t.flushed, outcomes);
  }

  // ---------------------------------------------------------------- what each row is told

  /** The operation at position `i` of a batch of `size` is reported as done: the write succeeded, or
      its errors, counted from the end of the batch, do not reach that far. */
  predicate Completed(i: nat, size: nat, outcome: Outcome) {
    match outcome case Written(_) => true case WriteErrors(errors) => i + errors < size case Rejected => false
  }

  predicate Reported(results: seq<Entry>, row: Row, done: bool) {
    Entry(row.rowNumber, if done then Done(row.action) else Failed) in results
  }

  /** A successful write took the row, and it was one to create. */
  predicate CreatedIn(flushed: seq<seq<Row>>, outcomes: nat -> Outcome, row: Row) {
    row.action.Create? && exists k :: 0 <= k < |flushed| && outcomes(k).Written? && row in flushed[k]
  }

  ghost predicate Accounted(t: Totals, rows: seq<Row>, fails: seq<bool>, outcomes: nat -> Outcome, n: nat)
    requires n <= |rows| == |fails|
  {
    && (forall k, i | 0 <= k < |t.flushed| && 0 <= i < |t.flushed[k]| ::
          Reported(t.results, t.flushed[k][i], Completed(i, |t.flushed[k]|, outcomes(k))))
    && (forall r :: 0 <= r < n && fails[r] ==> Reported(t.results, rows[r], false))
    && (forall row :: row in t.created <==> CreatedIn(t.flushed, outcomes, row))
  }

  lemma {:induction false} CreatesHas(batch: seq<Row>, row: Row)
    ensures row in Creates(batch) <==> row in batch && row.action.Create?
  {
    if batch != [] {
      CreatesHas(batch[1..], row);
      assert batch == [batch[0]] + batch[1..];
    }
  }

  lemma BatchReported(results: seq<Entry>, batch: seq<Row>, outcome: Outcome, i: nat)
    requires i < |batch|
    ensures Reported(results + Entries(batch, Good(|batch|, outcome)), batch[i], Completed(i, |batch|, outcome))
  {
    var entries := Entries(batch, Good(|batch|, outcome));
    assert entries[i] in entries;
  }

  lemma FlushAccounted(t: Totals, rows: seq<Row>, fails: seq<bool>, outcomes: nat -> Outcome, n: nat)
    requires n <= |rows| == |fails| && Accounted(t, rows, fails, outcomes, n)
    ensures Accounted(Flush(t, outcomes(|t.flushed|)), rows, fails, outcomes, n)
  {
    hide Entries, Creates, Good, Completed;
    var m := |t.flushed|;
    var t' := Flush(t, outcomes(m));
    forall k, i | 0 <= k < |t'.flushed| && 0 <= i < |t'.flushed[k]|
      ensures Reported(t'.results, t'.flushed[k][i], Completed(i, |t'.flushed[k]|, outcomes(k)))
    {
      if k < m {
        assert t'.flushed[k] == t.flushed[k];
        assert Reported(t.results, t.flushed[k][i], Completed(i, |t.flushed[k]|, outcomes(k)));
      } else {
        BatchReported(t.results, t.pending, outcomes(m), i);
      }
    }
    forall row ensures row in t'.created <==> CreatedIn(t'.flushed, outcomes, row) {
      CreatesHas(t.pending, row);
      assert t'.flushed[m] == t.pending && forall k :: 0 <= k < m ==> t'.flushed[k] == t.flushed[k];
    }
  }

  lemma TakeAccounted(t: Totals, rows: seq<Row>, fails: seq<bool>, outcomes: nat -> Outcome, n: nat)
    requires n < |rows| == |fails| && Accounted(t, rows, fails, outcomes, n)
    ensures Accounted(Take(t, rows[n], fails[n]), rows, fails, outcomes, n + 1)
  {
    hide Completed;
  }

  lemma {:induction false} RunAccounted(rows: seq<Row>, fails: seq<bool>, batchSize: nat, outcomes: nat -> Outcome,
                                        n: nat)
    requires n <= |rows| == |fails|
    ensures Accounted(Run(rows, fails, batchSize, outcomes, n), rows, fails, outcomes, n)
  {
    hide Accounted, Flush, Take;
    if n > 0 {
      var before := Run(rows, fails, batchSize, outcomes, n - 1);
      RunAccounted(rows, fails, batchSize, outcomes, n - 1);
      TakeAccounted(before, rows, fails, outcomes, n - 1);
      FlushAccounted(Take(before, rows[n - 1], fails[n - 1]), rows, fails, outcomes, n);
    } else {
      NothingYet(rows, fails, outcomes);
    }
  }

  lemma NothingYet(rows: seq<Row>, fails: seq<bool>, outcomes: nat -> Outcome)
    requires |rows| == |fails|
    ensures Accounted(Totals(0, 0, [], [], [], []), rows, fails, outcomes, 0)
  {
  }

  /** What is reported of each row, with its own action: failed, if its operation could not be
      prepared; and otherwise done or failed as the bulk write that took it turned out. And the rows
      handed on as created are those to create that a successful write took. */
  lemma RowsAreTold(rows: seq<Row>, fails: seq<bool>, batchSize: nat, outcomes: nat -> Outcome)
    requires |rows| == |fails|
    ensures var t := Process(rows, fails, batchSize, outcomes);
      && (forall r :: 0 <= r < |rows| && fails[r] ==> Reported(t.results, rows[r], false))
      && (forall k, i | 0 <= k < |t.flushed| && 0 <= i < |t.flushed[k]| ::
            Reported(t.results, t.flushed[k][i], Completed(i, |t.flushed[k]|, outcomes(k))))
      && (forall row :: row in t.created <==> CreatedIn(t.flushed, outcomes, row))
  {
    var t := Run(rows, fails, batchSize, outcomes, |rows|);
    RunAccounted(rows, fails, batchSize, outcomes, |rows|);
    FlushAccounted(t, rows, fails, outcomes, |rows|);
    hide Run, Flush, Completed, Reported;
  }

  /** The importer writes in batches of five hundred. */
  lemma FiveHundredEach(rows: seq<Row>, fails: seq<bool>, outcomes: nat -> Outcome)
    requires |rows| == |fails|
    ensures var t := Process(rows, fails, BATCH_SIZE, outcomes);
      && Concat(t.flushed) == Prepared(rows, fails, |rows|)
      && (forall k :: 0 <= k < |t.flushed| - 1 ==> |t.flushed[k]| == 500)
      && (forall k :: 0 <= k < |t.flushed| ==> 0 < |t.flushed[k]| <= 500)
  {
    BatchesAreTheOperations(rows, fails, BATCH_SIZE, outcomes);
  }
}
