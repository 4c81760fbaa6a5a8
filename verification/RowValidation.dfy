/** The row validator of the bulk importer: one verdict per row, from the row, a snapshot of what
    the database already holds, and the keys of the rows accepted so far. */
module RowValidation {
  import Sequences
  import opened Text

  type RowObject = map<string, string>

  datatype NumberedRow = NumberedRow(rowNumber: nat, row: RowObject)

  datatype Mode = Skip | Update | Fail

  /** What fetchExistingLookup reads before validation starts. */
  datatype Snapshot =
    | Clients(emails: set<string>)
    | Categories(active: map<string, bool>, pairs: set<string>, byName: map<string, string>, byId: map<string, string>)
    | Team(emails: set<string>, byName: map<string, string>, byId: map<string, string>,
           clientById: map<string, string>, clientByEmail: map<string, string>)

  /** The schema of an upload type: required fields and an arbitrary check on the others. */
  datatype Schema = Schema(required: seq<string>, check: (string, string) -> bool)

  datatype Data =
    | ClientData(row: RowObject)
    | CategoryData(category: string, subcategory: string, workbasketId: string, workbasket: string)
    | TeamData(row: RowObject, teamIds: seq<string>, clientIds: seq<string>)

  datatype Action = Create | UpdateExisting | CreateCategory | AddSubcategory

  datatype Problem = SchemaProblem | BadRole | BadWorkbasket | BadClients | InactiveCategory | MissingKey
                   | FileDuplicate | AlreadyExists

  datatype Verdict =
    | Blank
    | Valid(data: Data, dedupeKey: string, action: Action)
    | Invalid(problem: Problem)
    | Skipped

  datatype ValidRow = ValidRow(rowNumber: nat, data: Data, dedupeKey: string, action: Action)
  datatype InvalidRow = InvalidRow(rowNumber: nat, problem: Problem)

  // ---------------------------------------------------------------- pieces

  /** resolveEffectiveDuplicateMode: categories are never updated. */
  function EffectiveMode(categories: bool, requested: Mode): Mode {
    if categories && requested.Update? then Skip else requested
  }

  function Get(m: map<string, string>, k: string): string {
    if k in m then m[k] else ""
  }

  /** `a.get(x) || b.get(y)`: an absent or empty entry falls through. */
  function OrElse(a: string, b: string): string {
    if a != "" then a else b
  }

  predicate IsEmptyRow(row: RowObject) {
    forall f :: f in row ==> Trim(row[f]) == ""
  }

  predicate SchemaAccepts(schema: Schema, row: RowObject) {
    && (forall i :: 0 <= i < |schema.required| ==> Trim(Get(row, schema.required[i])) != "")
    && (forall f :: f in row && Trim(row[f]) != "" ==> schema.check(f, Trim(row[f])))
  }

  /** normalizeTeamRole: the stored role, or nothing when the role may not be imported. */
  function TeamRole(role: string): string {
    if Key(role) == "admin" then "Admin" else if Key(role) == "user" then "Employee" else ""
  }

  function Distinct(entries: seq<string>): seq<string> {
    if entries == [] then []
    else
      var before := Distinct(entries[..|entries| - 1]);
      var last := Trim(entries[|entries| - 1]);
      if last == "" || last in before then before else before + [last]
  }

  /** parsePipeList: the distinct non-empty entries of a `|`-separated list, in order. */
  function PipeList(value: string): seq<string> {
    Distinct(Split(value, '|'))
  }

  function Resolve(entries: seq<string>, first: map<string, string>, folded: map<string, string>,
                   foldFirst: bool): seq<string> {
    seq(|entries|, i requires 0 <= i < |entries| =>
      OrElse(Get(first, if foldFirst then Lower(entries[i]) else entries[i]), Get(folded, Lower(entries[i]))))
  }

  /** The key of a category row: `category::subcategory`, both folded. */
  function PairKey(category: string, subcategory: string): string {
    category + "::" + subcategory
  }

  /** The key by which a row is compared with earlier rows of the file. */
  function FileKey(db: Snapshot, row: RowObject): string {
    match db
    case Categories(_, _, _, _) => PairKey(Key(Get(row, "category")), Key(Get(row, "subcategory")))
    case Clients(_) => Key(Get(row, "businessEmail"))
    case Team(_, _, _, _, _) => Key(Get(row, "email"))
  }

  /** Whether the database already holds what the row describes. */
  predicate Existing(db: Snapshot, row: RowObject) {
    match db
    case Categories(active, pairs, _, _) =>
      var subcategory := Key(Get(row, "subcategory"));
      (Key(Get(row, "category")) in active && subcategory == "") || (subcategory != "" && FileKey(db, row) in pairs)
    case Clients(emails) => FileKey(db, row) in emails
    case Team(emails, _, _, _, _) => FileKey(db, row) in emails
  }

  // ---------------------------------------------------------------- one row

  /** The workbasket a category row names, by id or by name; empty when there is none. */
  function WorkbasketId(db: Snapshot, row: RowObject): string
    requires db.Categories?
  {
    var workbasket := Trim(Get(row, "workbasket"));
    OrElse(Get(db.byId, workbasket), Get(db.byName, Lower(workbasket)))
  }

  function JudgeCategory(db: Snapshot, mode: Mode, row: RowObject, seen: set<string>): (verdict: Verdict)
    requires db.Categories?
    ensures !verdict.Blank?
    ensures verdict.Valid? || verdict.Skipped? ==> FileKey(db, row) !in seen
    ensures verdict == Invalid(FileDuplicate) ==> FileKey(db, row) in seen
    ensures verdict.Valid? && Existing(db, row) ==> mode.Update?
  {
    var category := Key(Get(row, "category"));
    var workbasketId := WorkbasketId(db, row);
    if workbasketId == "" then Invalid(BadWorkbasket)
    else if FileKey(db, row) in seen then Invalid(FileDuplicate)
    else if category in db.active && !db.active[category] then Invalid(InactiveCategory)
    else if Existing(db, row) && mode.Fail? then Invalid(AlreadyExists)
    else if Existing(db, row) && mode.Skip? then Skipped
    else Valid(CategoryData(Trim(Get(row, "category")), Trim(Get(row, "subcategory")), workbasketId,
                            Trim(Get(row, "workbasket"))),
               category, if category in db.active then AddSubcategory else CreateCategory)
  }

  function JudgeKeyed(db: Snapshot, mode: Mode, row: RowObject, data: Data, seen: set<string>): (verdict: Verdict)
    ensures !verdict.Blank?
    ensures verdict.Valid? || verdict.Skipped? ==> FileKey(db, row) !in seen
    ensures verdict == Invalid(FileDuplicate) ==> FileKey(db, row) in seen
    ensures verdict.Valid? && Existing(db, row) ==> mode.Update?
  {
    var key := FileKey(db, row);
    if key == "" then Invalid(MissingKey)
    else if key in seen then Invalid(FileDuplicate)
    else if Existing(db, row) && mode.Fail? then Invalid(AlreadyExists)
    else if Existing(db, row) && mode.Skip? then Skipped
    else Valid(data, key, if Existing(db, row) then UpdateExisting else Create)
  }

  function JudgeTeam(db: Snapshot, mode: Mode, row: RowObject, seen: set<string>): (verdict: Verdict)
    requires db.Team?
    ensures !verdict.Blank?
    ensures verdict.Valid? || verdict.Skipped? ==> FileKey(db, row) !in seen
    ensures verdict == Invalid(FileDuplicate) ==> FileKey(db, row) in seen
    ensures verdict.Valid? && Existing(db, row) ==> mode.Update?
  {
    if TeamRole(Get(row, "role")) == "" then Invalid(BadRole) else
    var teamIds := Resolve(PipeList(Get(row, "workbaskets")), db.byId, db.byName, false);
    if teamIds == [] || "" in teamIds then Invalid(BadWorkbasket) else
    var clientIds := Resolve(PipeList(Get(row, "clients")), db.clientById, db.clientByEmail, true);
    if "" in clientIds then Invalid(BadClients) else
    JudgeKeyed(db, mode, row, TeamData(row["role" := TeamRole(Get(row, "role"))], teamIds, clientIds), seen)
  }

  function Judge(schema: Schema, db: Snapshot, mode: Mode, row: RowObject, seen: set<string>): (verdict: Verdict)
    ensures verdict.Blank? <==> IsEmptyRow(row)
    ensures verdict.Valid? || verdict.Skipped? ==> FileKey(db, row) !in seen
    ensures verdict == Invalid(FileDuplicate) ==> FileKey(db, row) in seen
    ensures verdict.Valid? && Existing(db, row) ==> mode.Update?
  {
    if IsEmptyRow(row) then Blank
    else if !SchemaAccepts(schema, row) then Invalid(SchemaProblem)
    else match db
      case Clients(_) => JudgeKeyed(db, mode, row, ClientData(row), seen)
      case Categories(_, _, _, _) => JudgeCategory(db, mode, row, seen)
      case Team(_, _, _, _, _) => JudgeTeam(db, mode, row, seen)
  }

  // ---------------------------------------------------------------- a file

  /** The verdicts on the first `n` rows. */
  function Verdicts(schema: Schema, db: Snapshot, mode: Mode, rows: seq<NumberedRow>, n: nat): (verdicts: seq<Verdict>)
    requires n <= |rows|
    ensures |verdicts| == n
  {
    if n == 0 then []
    else
      var before := Verdicts(schema, db, mode, rows, n - 1);
      before + [Judge(schema, db, mode, rows[n - 1].row, Seen(db, rows, before, n - 1))]
  }

  /** The keys of the first `n` rows that were judged valid. */
  function Seen(db: Snapshot, rows: seq<NumberedRow>, verdicts: seq<Verdict>, n: nat): (seen: set<string>)
    requires n <= |rows| && n <= |verdicts|
  {
    set i | 0 <= i < n && verdicts[i].Valid? :: FileKey(db, rows[i].row)
  }

  function AsValid(row: NumberedRow, verdict: Verdict): ValidRow
    requires verdict.Valid?
  {
    ValidRow(row.rowNumber, verdict.data, verdict.dedupeKey, verdict.action)
  }

  function ValidRows(rows: seq<NumberedRow>, verdicts: seq<Verdict>, n: nat): seq<ValidRow>
    requires n <= |rows| && n <= |verdicts|
  {
    if n == 0 then []
    else
      var before := ValidRows(rows, verdicts, n - 1);
      if verdicts[n - 1].Valid? then before + [AsValid(rows[n - 1], verdicts[n - 1])] else before
  }

  function InvalidRows(rows: seq<NumberedRow>, verdicts: seq<Verdict>, n: nat): seq<InvalidRow>
    requires n <= |rows| && n <= |verdicts|
  {
    if n == 0 then []
    else
      var before := InvalidRows(rows, verdicts, n - 1);
      if verdicts[n - 1].Invalid? then before + [InvalidRow(rows[n - 1].rowNumber, verdicts[n - 1].problem)] else before
  }

  datatype Kind = IsBlank | IsValid | IsInvalid | IsSkipped

  function KindOf(verdict: Verdict): Kind {
    match verdict
    case Blank => IsBlank
    case Valid(_, _, _) => IsValid
    case Invalid(_) => IsInvalid
    case Skipped => IsSkipped
  }

  /** The numbers of the first `n` rows with verdicts of one kind, in file order. */
  function Pick(rows: seq<NumberedRow>, verdicts: seq<Verdict>, kind: Kind, n: nat): seq<nat>
    requires n <= |rows| && n <= |verdicts|
  {
    if n == 0 then []
    else
      var before := Pick(rows, verdicts, kind, n - 1);
      if KindOf(verdicts[n - 1]) == kind then before + [rows[n - 1].rowNumber] else before
  }

  /** What the validator has gathered after `n` rows. */
  ghost predicate Gathered(db: Snapshot, rows: seq<NumberedRow>, verdicts: seq<Verdict>, n: nat,
                           valid: seq<ValidRow>, invalid: seq<InvalidRow>, skipped: seq<nat>, seen: set<string>)
    requires n <= |rows| && n <= |verdicts|
  {
    && valid == ValidRows(rows, verdicts, n) && invalid == InvalidRows(rows, verdicts, n)
    && skipped == Pick(rows, verdicts, IsSkipped, n) && seen == Seen(db, rows, verdicts, n)
  }

  lemma GatherNext(schema: Schema, db: Snapshot, mode: Mode, rows: seq<NumberedRow>, n: nat,
                   valid: seq<ValidRow>, invalid: seq<InvalidRow>, skipped: seq<nat>, seen: set<string>)
    requires n < |rows|
    requires Gathered(db, rows, Verdicts(schema, db, mode, rows, |rows|), n, valid, invalid, skipped, seen)
    ensures var verdicts := Verdicts(schema, db, mode, rows, |rows|);
      var row, verdict := rows[n], verdicts[n];
      verdict == Judge(schema, db, mode, row.row, seen) && Gathered(db, rows, verdicts, n + 1,
        if verdict.Valid? then valid + [AsValid(row, verdict)] else valid,
        if verdict.Invalid? then invalid + [InvalidRow(row.rowNumber, verdict.problem)] else invalid,
        if verdict.Skipped? then skipped + [row.rowNumber] else skipped,
        if verdict.Valid? then seen + {FileKey(db, row.row)} else seen)
  {
    hide FileKey, AsValid, Judge, Verdicts;
    VerdictAt(schema, db, mode, rows, n);
  }

  /** validateRows: one pass, appending to three lists and to the set of keys seen. */
  method ValidateRows(schema: Schema, db: Snapshot, mode: Mode, rows: seq<NumberedRow>)
    returns (valid: seq<ValidRow>, invalid: seq<InvalidRow>, skipped: seq<nat>)
    ensures var verdicts := Verdicts(schema, db, mode, rows, |rows|);
      && valid == ValidRows(rows, verdicts, |rows|)
      && invalid == InvalidRows(rows, verdicts, |rows|)
      && skipped == Pick(rows, verdicts, IsSkipped, |rows|)
  {
    hide Judge, FileKey, Verdicts, AsValid;
    valid, invalid, skipped := [], [], [];
    var seen: set<string> := {};
    ghost var verdicts := Verdicts(schema, db, mode, rows, |rows|);
    assert Gathered(db, rows, verdicts, 0, valid, invalid, skipped, seen);
    var i := 0;
    while i < |rows|
      invariant 0 <= i <= |rows|
      invariant Gathered(db, rows, verdicts, i, valid, invalid, skipped, seen)
    {
      hide Gathered;
      var row := rows[i];
      var verdict := Judge(schema, db, mode, row.row, seen);
      GatherNext(schema, db, mode, rows, i, valid, invalid, skipped, seen);
      if verdict.Valid? {
        seen := seen + {FileKey(db, row.row)};
        valid := valid + [AsValid(row, verdict)];
      } else if verdict.Invalid? {
        invalid := invalid + [InvalidRow(row.rowNumber, verdict.problem)];
      } else if verdict.Skipped? {
        skipped := skipped + [row.rowNumber];
      }
      i := i + 1;
    }
  }

  // ---------------------------------------------------------------- verdicts

  lemma {:induction false} VerdictsPrefix(schema: Schema, db: Snapshot, mode: Mode, rows: seq<NumberedRow>, n: nat,
                                          m: nat)
    requires m <= n <= |rows|
    ensures Verdicts(schema, db, mode, rows, n)[..m] == Verdicts(schema, db, mode, rows, m)
    decreases n
  {
    hide Judge, FileKey, Seen;
    if m < n {
      VerdictsPrefix(schema, db, mode, rows, n - 1, m);
      assert Verdicts(schema, db, mode, rows, n)[..m] == Verdicts(schema, db, mode, rows, n - 1)[..m];
    }
  }

  lemma SeenPrefix(db: Snapshot, rows: seq<NumberedRow>, verdicts: seq<Verdict>, n: nat)
    requires n <= |rows| && n <= |verdicts|
    ensures Seen(db, rows, verdicts[..n], n) == Seen(db, rows, verdicts, n)
  {
    assert forall i :: 0 <= i < n ==> verdicts[..n][i] == verdicts[i];
  }

  /** The verdict on a row depends only on the row and the keys accepted before it. */
  lemma VerdictAt(schema: Schema, db: Snapshot, mode: Mode, rows: seq<NumberedRow>, i: nat)
    requires i < |rows|
    ensures var verdicts := Verdicts(schema, db, mode, rows, |rows|);
      verdicts[i] == Judge(schema, db, mode, rows[i].row, Seen(db, rows, verdicts, i))
  {
    hide Judge, FileKey, Seen;
    var before := Verdicts(schema, db, mode, rows, i);
    assert Verdicts(schema, db, mode, rows, i + 1)[i]
        == Judge(schema, db, mode, rows[i].row, Seen(db, rows, before, i));
    hide Verdicts;
    var verdicts := Verdicts(schema, db, mode, rows, |rows|);
    VerdictsPrefix(schema, db, mode, rows, |rows|, i);
    VerdictsPrefix(schema, db, mode, rows, |rows|, i + 1);
    SeenPrefix(db, rows, verdicts, i);
    assert verdicts[i] == verdicts[..i + 1][i];
  }

  /** Accepted rows have pairwise distinct keys. */
  lemma ValidKeysDistinct(schema: Schema, db: Snapshot, mode: Mode, rows: seq<NumberedRow>, i: nat, j: nat)
    requires i < j < |rows|
    requires var verdicts := Verdicts(schema, db, mode, rows, |rows|); verdicts[i].Valid? && verdicts[j].Valid?
    ensures FileKey(db, rows[i].row) != FileKey(db, rows[j].row)
  {
    VerdictAt(schema, db, mode, rows, j);
  }

  /** What may become of a row the database already holds: each mode has its own answer. */
  predicate ByMode(verdict: Verdict, mode: Mode) {
    && (verdict.Valid? ==> mode.Update?)
    && (verdict.Skipped? ==> mode.Skip?)
    && (verdict == Invalid(AlreadyExists) ==> mode.Fail?)
  }

  lemma JudgedByMode(schema: Schema, db: Snapshot, mode: Mode, row: RowObject, seen: set<string>)
    ensures var verdict := Judge(schema, db, mode, row, seen);
      && (Existing(db, row) ==> ByMode(verdict, mode))
      && (!Existing(db, row) ==> !verdict.Skipped? && verdict != Invalid(AlreadyExists))
      && (verdict.Valid? && !db.Categories? ==> verdict.action == if Existing(db, row) then UpdateExisting else Create)
      && (verdict.Valid? && db.Categories? ==>
          (verdict.action.AddSubcategory? <==> Key(Get(row, "category")) in db.active))
  {
    hide Trim, Existing, FileKey, Resolve, PipeList, SchemaAccepts, IsEmptyRow, TeamRole, PairKey, OrElse, Get;
  }

  /** The duplicate mode alone decides about rows the database already holds, and about no others:
      such a row is accepted only in update mode, skipped only in skip mode and turned away as
      existing only in fail mode; and an accepted row is an update exactly when it exists. */
  lemma ModeDecides(schema: Schema, db: Snapshot, mode: Mode, rows: seq<NumberedRow>, i: nat)
    requires i < |rows|
    ensures var verdict := Verdicts(schema, db, mode, rows, |rows|)[i];
      && (Existing(db, rows[i].row) ==> ByMode(verdict, mode))
      && (!Existing(db, rows[i].row) ==> !verdict.Skipped? && verdict != Invalid(AlreadyExists))
      && (verdict.Valid? && !db.Categories? ==>
          verdict.action == if Existing(db, rows[i].row) then UpdateExisting else Create)
      && (verdict.Valid? && db.Categories? ==>
            (verdict.action.AddSubcategory? <==> Key(Get(rows[i].row, "category")) in db.active))
  {
    VerdictAt(schema, db, mode, rows, i);
    JudgedByMode(schema, db, mode, rows[i].row, Seen(db, rows, Verdicts(schema, db, mode, rows, |rows|), i));
    hide *;
  }

  /** What the database already holds is accepted in update mode only, and for categories never. */
  lemma ExistingNeverValid(schema: Schema, db: Snapshot, requested: Mode, rows: seq<NumberedRow>, i: nat)
    requires i < |rows| && Existing(db, rows[i].row)
    requires !requested.Update? || db.Categories?
    ensures !Verdicts(schema, db, EffectiveMode(db.Categories?, requested), rows, |rows|)[i].Valid?
  {
    VerdictAt(schema, db, EffectiveMode(db.Categories?, requested), rows, i);
  }

  /** Some earlier row of the same key was accepted. */
  ghost predicate AcceptedBefore(db: Snapshot, rows: seq<NumberedRow>, verdicts: seq<Verdict>, i: nat)
    requires i < |rows| == |verdicts|
  {
    exists j :: 0 <= j < i && verdicts[j].Valid? && FileKey(db, rows[j].row) == FileKey(db, rows[i].row)
  }

  /** A row is turned away as a duplicate of the file only if an earlier row with its key was
      accepted, and then it is neither accepted nor skipped. */
  lemma FileDuplicates(schema: Schema, db: Snapshot, mode: Mode, rows: seq<NumberedRow>, i: nat)
    requires i < |rows|
    ensures var verdicts := Verdicts(schema, db, mode, rows, |rows|);
      && (verdicts[i] == Invalid(FileDuplicate) ==> AcceptedBefore(db, rows, verdicts, i))
      && (AcceptedBefore(db, rows, verdicts, i) ==> !verdicts[i].Valid? && !verdicts[i].Skipped?)
  {
    VerdictAt(schema, db, mode, rows, i);
  }

  // ---------------------------------------------------------------- which rows are accepted

  /** Row `i` would be accepted in a file of its own. */
  predicate Acceptable(schema: Schema, db: Snapshot, mode: Mode, rows: seq<NumberedRow>, i: nat)
    requires i < |rows|
  {
    Judge(schema, db, mode, rows[i].row, {}).Valid?
  }

  /** Row `i` is the first of its key that would be accepted in a file of its own. */
  predicate Leads(schema: Schema, db: Snapshot, mode: Mode, rows: seq<NumberedRow>, i: nat)
    requires i < |rows|
  {
    && Acceptable(schema, db, mode, rows, i)
    && forall k :: 0 <= k < i && Acceptable(schema, db, mode, rows, k) ==>
        FileKey(db, rows[k].row) != FileKey(db, rows[i].row)
  }

  /** The keys accepted before a row matter in one way only. */
  lemma SeenOnlyBlocks(schema: Schema, db: Snapshot, mode: Mode, row: RowObject, seen: set<string>)
    ensures Judge(schema, db, mode, row, seen).Valid?
      <==> Judge(schema, db, mode, row, {}).Valid? && FileKey(db, row) !in seen
  {
    hide Trim, Existing, FileKey, Resolve, PipeList, SchemaAccepts, IsEmptyRow, TeamRole, OrElse, Get;
  }

  lemma {:induction false} FirstOfKey(schema: Schema, db: Snapshot, mode: Mode, rows: seq<NumberedRow>, i: nat)
    returns (k: nat)
    requires i < |rows| && Acceptable(schema, db, mode, rows, i)
    ensures k <= i && Leads(schema, db, mode, rows, k) && FileKey(db, rows[k].row) == FileKey(db, rows[i].row)
    decreases i
  {
    hide Judge, FileKey;
    if Leads(schema, db, mode, rows, i) {
      k := i;
    } else {
      var j :| 0 <= j < i && Acceptable(schema, db, mode, rows, j)
          && FileKey(db, rows[j].row) == FileKey(db, rows[i].row);
      k := FirstOfKey(schema, db, mode, rows, j);
    }
  }

  /** Read off the file and the snapshot: the accepted rows are exactly those that lead. */
  lemma {:induction false} AcceptedLead(schema: Schema, db: Snapshot, mode: Mode, rows: seq<NumberedRow>, i: nat)
    requires i < |rows|
    ensures Verdicts(schema, db, mode, rows, |rows|)[i].Valid? <==> Leads(schema, db, mode, rows, i)
    decreases i
  {
    hide Judge, FileKey, Verdicts;
    var verdicts := Verdicts(schema, db, mode, rows, |rows|);
    var seen := Seen(db, rows, verdicts, i);
    VerdictAt(schema, db, mode, rows, i);
    SeenOnlyBlocks(schema, db, mode, rows[i].row, seen);
    forall k: nat | k < i ensures verdicts[k].Valid? <==> Leads(schema, db, mode, rows, k) {
      AcceptedLead(schema, db, mode, rows, k);
    }
    forall k: nat | k < i && Acceptable(schema, db, mode, rows, k) ensures FileKey(db, rows[k].row) in seen {
      var first := FirstOfKey(schema, db, mode, rows, k);
      assert verdicts[first].Valid?;
    }
  }

  /** A category row is a duplicate of the file exactly when nothing before that check stops it and
      its key has been accepted. */
  lemma DuplicateExactly(schema: Schema, db: Snapshot, mode: Mode, row: RowObject, seen: set<string>)
    requires db.Categories?
    ensures Judge(schema, db, mode, row, seen) == Invalid(FileDuplicate)
      <==> !IsEmptyRow(row) && SchemaAccepts(schema, row) && WorkbasketId(db, row) != "" && FileKey(db, row) in seen
  {
    hide Trim, Existing, FileKey, SchemaAccepts, IsEmptyRow, OrElse, Get, WorkbasketId;
  }

  // ---------------------------------------------------------------- verdicts, read off the cells

  /** An earlier row was accepted, and `key` of it is `value`. */
  predicate Taken(rows: seq<NumberedRow>, verdicts: seq<Verdict>, i: nat, key: RowObject -> string, value: string)
    requires i <= |rows| && i <= |verdicts|
  {
    exists j :: 0 <= j < i && verdicts[j].Valid? && key(rows[j].row) == value
  }

  /** What becomes of a row that nothing before stops: the duplicate mode decides when the database
      holds it, and otherwise it is accepted as new. */
  function Outcome(held: bool, mode: Mode, data: Data, dedupeKey: string, whenHeld: Action, whenNew: Action): Verdict {
    if !held then Valid(data, dedupeKey, whenNew)
    else
      match mode
      case Skip => Skipped
      case Fail => Invalid(AlreadyExists)
      case Update => Valid(data, dedupeKey, whenHeld)
  }

  /** The first checks, the same for every type: a row is blank when all its cells are, and fails the
      schema when a required field is blank or a cell that is not fails its check. */
  lemma FirstChecks(schema: Schema, db: Snapshot, mode: Mode, rows: seq<NumberedRow>, i: nat)
    requires i < |rows|
    ensures var row, verdict := rows[i].row, Verdicts(schema, db, mode, rows, |rows|)[i];
      var blank := forall f :: f in row ==> Trim(row[f]) == "";
      && (verdict == Blank <==> blank)
      && (verdict == Invalid(SchemaProblem) <==>
          (!blank && ((exists k :: 0 <= k < |schema.required| && Trim(Get(row, schema.required[k])) == "")
                      || (exists f :: f in row && Trim(row[f]) != "" && !schema.check(f, Trim(row[f]))))))
  {
    hide Trim, Verdicts, FileKey, Existing, Resolve, PipeList, TeamRole, PairKey, OrElse, Get;
    VerdictAt(schema, db, mode, rows, i);
  }

  /** Client rows, by their e-mail address: a missing one; one that an accepted row of the file has;
      and otherwise as the mode has it, by the addresses the firm's clients have. */
  lemma ClientVerdict(schema: Schema, emails: set<string>, mode: Mode, rows: seq<NumberedRow>, i: nat)
    requires i < |rows| && !IsEmptyRow(rows[i].row) && SchemaAccepts(schema, rows[i].row)
    ensures var verdicts := Verdicts(schema, Clients(emails), mode, rows, |rows|);
      var email := (row: RowObject) => Lower(Trim(Get(row, "businessEmail")));
      var mine := email(rows[i].row);
      verdicts[i] ==
        if mine == "" then Invalid(MissingKey)
        else if Taken(rows, verdicts, i, email, mine) then Invalid(FileDuplicate)
        else Outcome(mine in emails, mode, ClientData(rows[i].row), mine, UpdateExisting, Create)
  {
    hide Trim, Lower, Verdicts, IsEmptyRow, SchemaAccepts;
    VerdictAt(schema, Clients(emails), mode, rows, i);
  }

  /** Category rows: the workbasket; a pair that an accepted row of the file has; a category switched
      off; and otherwise as the mode has it, by whether the firm has the category, or, when the row
      names a subcategory, the pair. */
  lemma CategoryVerdict(schema: Schema, db: Snapshot, mode: Mode, rows: seq<NumberedRow>, i: nat)
    requires i < |rows| && db.Categories? && !IsEmptyRow(rows[i].row) && SchemaAccepts(schema, rows[i].row)
    ensures var row, verdicts := rows[i].row, Verdicts(schema, db, mode, rows, |rows|);
      var pair := (r: RowObject) => Lower(Trim(Get(r, "category"))) + "::" + Lower(Trim(Get(r, "subcategory")));
      var category, subcategory := Lower(Trim(Get(row, "category"))), Lower(Trim(Get(row, "subcategory")));
      var basket := Trim(Get(row, "workbasket"));
      var id := ResolvedId(db.byId, basket, db.byName, Lower(basket));
      var action := if category in db.active then AddSubcategory else CreateCategory;
      verdicts[i] ==
        if id == "" then Invalid(BadWorkbasket)
        else if Taken(rows, verdicts, i, pair, pair(row)) then Invalid(FileDuplicate)
        else if category in db.active && db.active[category] == false then Invalid(InactiveCategory)
        else Outcome(if subcategory == "" then category in db.active else pair(row) in db.pairs, mode,
               CategoryData(Trim(Get(row, "category")), Trim(Get(row, "subcategory")), id, basket),
               category, action, action)
  {
    hide Trim, Lower, Verdicts, IsEmptyRow, SchemaAccepts;
    VerdictAt(schema, db, mode, rows, i);
  }

  /** The first of two entries that is there and not empty; empty when neither is. */
  function ResolvedId(first: map<string, string>, k: string, second: map<string, string>, l: string): (id: string)
    ensures id != "" ==> (k in first && id == first[k]) || (l in second && id == second[l])
    ensures k in first && first[k] != "" ==> id == first[k]
    ensures !(k in first && first[k] != "") && l in second ==> id == second[l]
  {
    if k in first && first[k] != "" then first[k] else if l in second then second[l] else ""
  }

  /** `e` is a trimmed, non-empty part of a `|`-separated list. */
  predicate Lists(value: string, e: string) {
    e != "" && exists k :: 0 <= k < |Split(value, '|')| && Trim(Split(value, '|')[k]) == e
  }

  lemma {:induction false} DistinctHas(entries: seq<string>, e: string)
    ensures e in Distinct(entries) <==> e != "" && exists k :: 0 <= k < |entries| && Trim(entries[k]) == e
    decreases |entries|
  {
    hide Trim;
    if entries != [] {
      var n := |entries| - 1;
      DistinctHas(entries[..n], e);
      assert forall k :: 0 <= k < n ==> entries[..n][k] == entries[k];
    }
  }

  lemma {:induction false} DistinctOnce(entries: seq<string>)
    ensures Sequences.Distinct(Distinct(entries))
    decreases |entries|
  {
    hide Trim;
    if entries != [] {
      DistinctOnce(entries[..|entries| - 1]);
      var before := Distinct(entries[..|entries| - 1]);
      assert forall a :: 0 <= a < |before| ==> before[a] in before;
    }
  }

  /** `e` has been mentioned when `later` has not yet. */
  predicate MentionedBefore(entries: seq<string>, e: string, later: string) {
    exists p :: 0 <= p < |entries| && Trim(entries[p]) == e && forall q :: 0 <= q <= p ==> Trim(entries[q]) != later
  }

  lemma {:induction false} DistinctInOrder(entries: seq<string>, a: nat, b: nat)
    requires a < b < |Distinct(entries)|
    ensures MentionedBefore(entries, Distinct(entries)[a], Distinct(entries)[b])
    decreases |entries|
  {
    hide Trim;
    var n := |entries| - 1;
    var before := Distinct(entries[..n]);
    var e, later := Distinct(entries)[a], Distinct(entries)[b];
    if b < |before| {
      DistinctInOrder(entries[..n], a, b);
      var p :| 0 <= p < n && Trim(entries[..n][p]) == e && forall q :: 0 <= q <= p ==> Trim(entries[..n][q]) != later;
      assert Trim(entries[p]) == e && forall q :: 0 <= q <= p ==> entries[..n][q] == entries[q];
    } else {
      DistinctHas(entries[..n], e);
      DistinctHas(entries[..n], later);
      assert e == before[a];
      var p :| 0 <= p < n && Trim(entries[..n][p]) == e;
      assert Trim(entries[p]) == e;
      assert forall q :: 0 <= q < n ==> entries[..n][q] == entries[q];
    }
  }

  /** A list of names holds its trimmed, non-empty parts, each once, in the order of first mention. */
  lemma PipeListExactly(value: string)
    ensures forall e :: e in PipeList(value) <==> Lists(value, e)
    ensures Sequences.Distinct(PipeList(value))
    ensures forall a, b :: 0 <= a < b < |PipeList(value)| ==>
        MentionedBefore(Split(value, '|'), PipeList(value)[a], PipeList(value)[b])
  {
    hide Trim, Split, Distinct, MentionedBefore;
    DistinctOnce(Split(value, '|'));
    forall e ensures e in PipeList(value) <==> Lists(value, e) {
      DistinctHas(Split(value, '|'), e);
    }
    forall a, b | 0 <= a < b < |PipeList(value)|
      ensures MentionedBefore(Split(value, '|'), PipeList(value)[a], PipeList(value)[b])
    {
      DistinctInOrder(Split(value, '|'), a, b);
    }
  }

  /** The workbasket with this id, or else of this name; the client with this id, or else address. */
  function BasketId(db: Snapshot, e: string): string
    requires db.Team?
  {
    ResolvedId(db.byId, e, db.byName, Lower(e))
  }

  function ClientId(db: Snapshot, e: string): string
    requires db.Team?
  {
    ResolvedId(db.clientById, Lower(e), db.clientByEmail, Lower(e))
  }

  predicate AllBaskets(db: Snapshot, names: seq<string>)
    requires db.Team?
  {
    names != [] && forall k :: 0 <= k < |names| ==> BasketId(db, names[k]) != ""
  }

  predicate AllClients(db: Snapshot, names: seq<string>)
    requires db.Team?
  {
    forall k :: 0 <= k < |names| ==> ClientId(db, names[k]) != ""
  }

  /** What an accepted team row carries: the stored role, and the ids of both lists in order. */
  predicate CarriesTeam(db: Snapshot, row: RowObject, data: Data)
    requires db.Team?
  {
    var baskets, clients := PipeList(Get(row, "workbaskets")), PipeList(Get(row, "clients"));
    && data.TeamData? && |data.teamIds| == |baskets| && |data.clientIds| == |clients|
    && data.row == row["role" := if Lower(Trim(Get(row, "role"))) == "admin" then "Admin" else "Employee"]
    && (forall k :: 0 <= k < |baskets| ==> data.teamIds[k] == BasketId(db, baskets[k]))
    && (forall k :: 0 <= k < |clients| ==> data.clientIds[k] == ClientId(db, clients[k]))
  }

  lemma TeamLists(db: Snapshot, row: RowObject)
    requires db.Team?
    ensures var baskets, clients := PipeList(Get(row, "workbaskets")), PipeList(Get(row, "clients"));
      var teamIds := Resolve(baskets, db.byId, db.byName, false);
      var clientIds := Resolve(clients, db.clientById, db.clientByEmail, true);
      && (teamIds != [] && "" !in teamIds <==> AllBaskets(db, baskets))
      && ("" !in clientIds <==> AllClients(db, clients))
      && (TeamRole(Get(row, "role")) != "" ==>
            CarriesTeam(db, row, TeamData(row["role" := TeamRole(Get(row, "role"))], teamIds, clientIds)))
  {
    hide Trim, Lower, PipeList;
    var baskets, clients := PipeList(Get(row, "workbaskets")), PipeList(Get(row, "clients"));
    var teamIds, clientIds := Resolve(baskets, db.byId, db.byName, false),
        Resolve(clients, db.clientById, db.clientByEmail, true);
    forall k | 0 <= k < |baskets| ensures teamIds[k] == BasketId(db, baskets[k]) {}
    forall k | 0 <= k < |clients| ensures clientIds[k] == ClientId(db, clients[k]) {}
  }

  ghost predicate AcceptsTeam(verdict: Verdict, db: Snapshot, mode: Mode, row: RowObject, email: string)
    requires db.Team?
  {
    exists data :: CarriesTeam(db, row, data)
      && verdict == Outcome(email in db.emails, mode, data, email, UpdateExisting, Create)
  }

  lemma JudgedTeam(schema: Schema, db: Snapshot, mode: Mode, row: RowObject, seen: set<string>)
    requires db.Team? && !IsEmptyRow(row) && SchemaAccepts(schema, row)
    ensures var verdict := Judge(schema, db, mode, row, seen);
      var role, email := Lower(Trim(Get(row, "role"))), Lower(Trim(Get(row, "email")));
      if role != "admin" && role != "user" then verdict == Invalid(BadRole)
      else if !AllBaskets(db, PipeList(Get(row, "workbaskets"))) then verdict == Invalid(BadWorkbasket)
      else if !AllClients(db, PipeList(Get(row, "clients"))) then verdict == Invalid(BadClients)
      else if email == "" then verdict == Invalid(MissingKey)
      else if email in seen then verdict == Invalid(FileDuplicate)
      else AcceptsTeam(verdict, db, mode, row, email)
  {
    hide Trim, Lower, IsEmptyRow, SchemaAccepts, PipeList, Resolve, AllBaskets, AllClients, CarriesTeam;
    TeamLists(db, row);
  }

  /** Team rows: the role, `admin` or `user`; the workbaskets, at least one, each known by id or by
      name; the clients, each known by id or by address; and then, by their e-mail address, as client
      rows. What is accepted carries the stored role and the ids of both lists in order. */
  lemma TeamVerdict(schema: Schema, db: Snapshot, mode: Mode, rows: seq<NumberedRow>, i: nat)
    requires i < |rows| && db.Team? && !IsEmptyRow(rows[i].row) && SchemaAccepts(schema, rows[i].row)
    ensures var row, verdicts := rows[i].row, Verdicts(schema, db, mode, rows, |rows|);
      var email := (r: RowObject) => Lower(Trim(Get(r, "email")));
      var role, mine := Lower(Trim(Get(row, "role"))), email(row);
      if role != "admin" && role != "user" then verdicts[i] == Invalid(BadRole)
      else if !AllBaskets(db, PipeList(Get(row, "workbaskets"))) then verdicts[i] == Invalid(BadWorkbasket)
      else if !AllClients(db, PipeList(Get(row, "clients"))) then verdicts[i] == Invalid(BadClients)
      else if mine == "" then verdicts[i] == Invalid(MissingKey)
      else if Taken(rows, verdicts, i, email, mine) then verdicts[i] == Invalid(FileDuplicate)
      else AcceptsTeam(verdicts[i], db, mode, row, mine)
  {
    hide Trim, Lower, Verdicts, Judge, PipeList, AllBaskets, AllClients, AcceptsTeam;
    VerdictAt(schema, db, mode, rows, i);
    JudgedTeam(schema, db, mode, rows[i].row, Seen(db, rows, Verdicts(schema, db, mode, rows, |rows|), i));
  }

  // ---------------------------------------------------------------- the partition

  function Numbers(valid: seq<ValidRow>): (r: seq<nat>)
    ensures |r| == |valid| && forall i :: 0 <= i < |valid| ==> r[i] == valid[i].rowNumber
  {
    seq(|valid|, i requires 0 <= i < |valid| => valid[i].rowNumber)
  }

  function InvalidNumbers(invalid: seq<InvalidRow>): (r: seq<nat>)
    ensures |r| == |invalid| && forall i :: 0 <= i < |invalid| ==> r[i] == invalid[i].rowNumber
  {
    seq(|invalid|, i requires 0 <= i < |invalid| => invalid[i].rowNumber)
  }

  lemma {:induction false} ValidArePicks(rows: seq<NumberedRow>, verdicts: seq<Verdict>, n: nat)
    requires n <= |rows| && n <= |verdicts|
    ensures Numbers(ValidRows(rows, verdicts, n)) == Pick(rows, verdicts, IsValid, n)
  {
    if n > 0 {
      ValidArePicks(rows, verdicts, n - 1);
    }
  }

  lemma {:induction false} InvalidArePicks(rows: seq<NumberedRow>, verdicts: seq<Verdict>, n: nat)
    requires n <= |rows| && n <= |verdicts|
    ensures InvalidNumbers(InvalidRows(rows, verdicts, n)) == Pick(rows, verdicts, IsInvalid, n)
  {
    if n > 0 {
      InvalidArePicks(rows, verdicts, n - 1);
    }
  }

  predicate Increasing(s: seq<nat>) {
    forall i, j :: 0 <= i < j < |s| ==> s[i] < s[j]
  }

  predicate NumberedInOrder(rows: seq<NumberedRow>) {
    forall i, j :: 0 <= i < j < |rows| ==> rows[i].rowNumber < rows[j].rowNumber
  }

  lemma {:induction false} PickInOrder(rows: seq<NumberedRow>, verdicts: seq<Verdict>, kind: Kind, n: nat)
    requires n <= |rows| && n <= |verdicts| && NumberedInOrder(rows)
    ensures var picked := Pick(rows, verdicts, kind, n);
      Increasing(picked) && forall i, j :: 0 <= i < |picked| && n <= j < |rows| ==> picked[i] < rows[j].rowNumber
  {
    if n > 0 {
      PickInOrder(rows, verdicts, kind, n - 1);
    }
  }

  lemma {:induction false} PickMembers(rows: seq<NumberedRow>, verdicts: seq<Verdict>, kind: Kind, n: nat, number: nat)
    requires n <= |rows| && n <= |verdicts|
    ensures number in Pick(rows, verdicts, kind, n)
      <==> exists i :: 0 <= i < n && rows[i].rowNumber == number && KindOf(verdicts[i]) == kind
  {
    if n > 0 {
      PickMembers(rows, verdicts, kind, n - 1, number);
    }
  }

  lemma PickedHere(rows: seq<NumberedRow>, verdicts: seq<Verdict>, kind: Kind, i: nat)
    requires NumberedInOrder(rows) && i < |rows| == |verdicts|
    ensures rows[i].rowNumber in Pick(rows, verdicts, kind, |rows|) <==> KindOf(verdicts[i]) == kind
  {
    PickMembers(rows, verdicts, kind, |rows|, rows[i].rowNumber);
    forall j | 0 <= j < |rows| && rows[j].rowNumber == rows[i].rowNumber ensures j == i {
      assert !(j < i) && !(i < j);
    }
  }

  /** The partition: each list keeps the file's order without repetition, a non-empty row is in
      exactly one of the three, the one its verdict names, and an empty row in none. */
  lemma Partition(schema: Schema, db: Snapshot, mode: Mode, rows: seq<NumberedRow>)
    requires NumberedInOrder(rows)
    ensures var verdicts := Verdicts(schema, db, mode, rows, |rows|);
      var valid := Numbers(ValidRows(rows, verdicts, |rows|));
      var invalid := InvalidNumbers(InvalidRows(rows, verdicts, |rows|));
      var skipped := Pick(rows, verdicts, IsSkipped, |rows|);
      && Increasing(valid) && Increasing(invalid) && Increasing(skipped)
      && forall i :: 0 <= i < |rows| ==>
           && (rows[i].rowNumber in valid <==> verdicts[i].Valid?)
           && (rows[i].rowNumber in invalid <==> verdicts[i].Invalid?)
           && (rows[i].rowNumber in skipped <==> verdicts[i].Skipped?)
           && (verdicts[i].Blank? <==> IsEmptyRow(rows[i].row))
  {
    var verdicts := Verdicts(schema, db, mode, rows, |rows|);
    ValidArePicks(rows, verdicts, |rows|);
    InvalidArePicks(rows, verdicts, |rows|);
    PickInOrder(rows, verdicts, IsValid, |rows|);
    PickInOrder(rows, verdicts, IsInvalid, |rows|);
    PickInOrder(rows, verdicts, IsSkipped, |rows|);
    forall i | 0 <= i < |rows|
      ensures rows[i].rowNumber in Pick(rows, verdicts, IsValid, |rows|) <==> verdicts[i].Valid?
      ensures rows[i].rowNumber in Pick(rows, verdicts, IsInvalid, |rows|) <==> verdicts[i].Invalid?
      ensures rows[i].rowNumber in Pick(rows, verdicts, IsSkipped, |rows|) <==> verdicts[i].Skipped?
      ensures verdicts[i].Blank? <==> IsEmptyRow(rows[i].row)
    {
      PickedHere(rows, verdicts, IsValid, i);
      PickedHere(rows, verdicts, IsInvalid, i);
      PickedHere(rows, verdicts, IsSkipped, i);
      VerdictAt(schema, db, mode, rows, i);
    }
  }

  // ---------------------------------------------------------------- the concatenated key

  /** The first `::` of a key with this category is the separator. */
  predicate Separable(category: string) {
    forall i :: 0 <= i < |category| ==> !(category[i] == ':' && (i + 1 == |category| || category[i + 1] == ':'))
  }

  /** Keys of separable categories identify pairs. */
  lemma PairKeyInjective(c: string, s: string, c': string, s': string)
    requires Separable(c) && Separable(c')
    ensures PairKey(c, s) == PairKey(c', s') <==> c == c' && s == s'
  {
    if PairKey(c, s) == PairKey(c', s') {
      var key := PairKey(c, s);
      SeparatorIsFirst(c, s);
      SeparatorIsFirst(c', s');
      assert |c| == |c'|;
      assert key[..|c|] == c && key[..|c'|] == c';
      assert key[|c| + 2..] == s && key[|c'| + 2..] == s';
    }
  }

  predicate SeparatorAt(key: string, i: nat) {
    i + 1 < |key| && key[i] == ':' && key[i + 1] == ':'
  }

  lemma SeparatorIsFirst(c: string, s: string)
    requires Separable(c)
    ensures SeparatorAt(PairKey(c, s), |c|) && forall i: nat :: i < |c| ==> !SeparatorAt(PairKey(c, s), i)
  {
    var key := PairKey(c, s);
    assert forall i :: 0 <= i < |c| ==> key[i] == c[i];
  }

  /** No other categories are safe: the `::` is not escaped, so every key of a category that is not
      separable is also the key of a pair under a shorter category. */
  lemma PairKeyCollides(c: string, s: string) returns (c': string, s': string)
    requires !Separable(c)
    ensures c' != c && PairKey(c', s') == PairKey(c, s)
  {
    var i :| 0 <= i < |c| && c[i] == ':' && (i + 1 == |c| || c[i + 1] == ':');
    var key := PairKey(c, s);
    assert key[i] == ':' && key[i + 1] == ':';
    c', s' := key[..i], key[i + 2..];
    assert PairKey(c', s') == key;
  }
}
