/**
 The resource envelope of one run and the provider usage recorded against it (`budget.py`, lines
 106-306, and `model_usage.py`, lines 218-388). Times are seconds as reals; each ledger write is
 atomic, so a death of the process falls between two operations.
 */
module RunBudget {
  import opened Wrappers

  datatype Budget = Budget(maxWall: nat, maxAttempts: nat, maxTokens: nat)

  datatype Row = Row(startedAt: real, attempts: nat, tokens: nat)

  /** The ledger file: absent, unreadable or of another run, or sound. */
  datatype LedgerFile = Absent | Damaged | Holds(row: Row)

  datatype Refusal = BadRequest | IntegrityError | BudgetExceeded | UsageIntegrityError

  datatype Grant = Grant(attempt: nat, requested: nat, total: nat, timeout: int)

  /** Time used so far; a clock behind the start counts as no time. */
  function Elapsed(row: Row, now: real): real {
    if now < row.startedAt then 0.0 else now - row.startedAt
  }

  /** `_status`: whether the envelope is used up already. */
  predicate Exhausted(budget: Budget, row: Row, now: real) {
    Elapsed(row, now) >= budget.maxWall as real || row.attempts >= budget.maxAttempts || row.tokens >= budget.maxTokens
  }

  /** So many more seconds stay within the wall time; a clock behind the start counts as the start. */
  predicate WholeSecondsFit(budget: Budget, row: Row, now: real, seconds: int) {
    seconds <= budget.maxWall && now + seconds as real <= row.startedAt + budget.maxWall as real
  }

  /** A further attempt fits: a full second remains, an attempt is left and the request fits the
      tokens, of which some must be left even for an empty request. */
  ghost predicate Fits(budget: Budget, row: Row, requested: nat, now: real) {
    && WholeSecondsFit(budget, row, now, 1)
    && row.attempts < budget.maxAttempts
    && row.tokens < budget.maxTokens && row.tokens + requested <= budget.maxTokens
  }

  /** Starting the ledger: existing consumption is never reset. */
  ghost predicate InitializeStep(startedAt: real, file: LedgerFile, file': LedgerFile, r: Result<Row, Refusal>) {
    && file' == (if file.Absent? then Holds(Row(startedAt, 0, 0)) else file)
    && r == (if file'.Holds? then Success(file'.row) else Failure(IntegrityError))
  }

  /** Reserving: granted exactly when the request fits, with the next attempt number and the largest
      whole number of seconds that still fits the wall time. */
  ghost predicate ReserveStep(budget: Budget, input: int, output: int, now: real, file: LedgerFile, file': LedgerFile,
      r: Result<Grant, Refusal>) {
    && (r.Success? <==> file.Holds? && input >= 0 && output >= 0 && Fits(budget, file.row, input + output, now))
    && (r == Failure(BudgetExceeded) <==>
          file.Holds? && input >= 0 && output >= 0 && !Fits(budget, file.row, input + output, now))
    && (r.Failure? ==> file' == file)
    && (r.Success? ==>
          && file' == Holds(Row(file.row.startedAt, file.row.attempts + 1, file.row.tokens + input + output))
          && r.value == Grant(file.row.attempts + 1, input + output, file.row.tokens + input + output, r.value.timeout)
          && r.value.timeout >= 1
          && WholeSecondsFit(budget, file.row, now, r.value.timeout)
          && !WholeSecondsFit(budget, file.row, now, r.value.timeout + 1))
  }

  // ----- usage records -----

  datatype Usage = Usage(steps: nat, input: nat, output: nat, reasoning: nat, cacheRead: nat, cacheWrite: nat,
      cost: real)

  /** One attempt's record; `envelope` stands for the remaining compared fields. */
  datatype Record = Record(attempt: nat, role: string, model: Option<string>, envelope: string, usage: Option<Usage>)

  /** Recording: only a reserved attempt, once, and the same again at will. */
  ghost predicate RecordStep(record: Record, file: LedgerFile, records: map<nat, Record>, records': map<nat, Record>,
      r: Result<Record, Refusal>) {
    && (r.Success? <==>
          && record.attempt >= 1 && file.Holds? && record.attempt <= file.row.attempts
          && (record.attempt in records ==> records[record.attempt] == record))
    && records' == (if r.Success? then records[record.attempt := record] else records)
    && (r.Success? ==> r.value == record)
  }

  datatype Totals = Totals(attempts: nat, reported: nat, usage: Usage)

  const NoUsage := Usage(0, 0, 0, 0, 0, 0, 0.0)
  const NoTotals := Totals(0, 0, NoUsage)

  function Plus(a: Usage, b: Usage): Usage {
    Usage(a.steps + b.steps, a.input + b.input, a.output + b.output, a.reasoning + b.reasoning,
          a.cacheRead + b.cacheRead, a.cacheWrite + b.cacheWrite, a.cost + b.cost)
  }

  function AddUsage(total: Totals, record: Record): Totals {
    if record.usage.None? then total.(attempts := total.attempts + 1)
    else Totals(total.attempts + 1, total.reported + 1, Plus(total.usage, record.usage.value))
  }

  /** The totals of some records, in order. */
  function TotalOf(records: seq<Record>): Totals {
    if records == [] then NoTotals else AddUsage(TotalOf(records[..|records| - 1]), records[|records| - 1])
  }

  datatype Field = Steps | Input | Output | Reasoning | CacheRead | CacheWrite | Cost

  function Amount(field: Field, usage: Usage): real {
    match field
    case Steps => usage.steps as real
    case Input => usage.input as real
    case Output => usage.output as real
    case Reasoning => usage.reasoning as real
    case CacheRead => usage.cacheRead as real
    case CacheWrite => usage.cacheWrite as real
    case Cost => usage.cost
  }

  /** The sum of one field over the records that carry usage. */
  function SumOf(field: Field, records: seq<Record>): real {
    if records == [] then 0.0
    else
      var last := records[|records| - 1];
      SumOf(field, records[..|records| - 1]) + if last.usage.Some? then Amount(field, last.usage.value) else 0.0
  }

  function Reporting(records: seq<Record>): nat {
    if records == [] then 0
    else Reporting(records[..|records| - 1]) + if records[|records| - 1].usage.Some? then 1 else 0
  }

  /** A total counts the records and those that carry usage, and each of its fields is the sum of that field. */
  lemma {:induction false} TotalsAreSums(records: seq<Record>)
    ensures TotalOf(records).attempts == |records| && TotalOf(records).reported == Reporting(records)
    ensures var total := TotalOf(records).usage;
            && total.steps as real == SumOf(Steps, records)
            && total.input as real == SumOf(Input, records) && total.output as real == SumOf(Output, records)
            && total.reasoning as real == SumOf(Reasoning, records)
            && total.cacheRead as real == SumOf(CacheRead, records)
            && total.cacheWrite as real == SumOf(CacheWrite, records) && total.cost == SumOf(Cost, records)
  {
    if records != [] {
      TotalsAreSums(records[..|records| - 1]);
    }
  }

  function ModelKey(record: Record): string {
    if record.model.None? || record.model.value == "" then "unresolved" else record.model.value
  }

  function RoleKey(record: Record): string {
    record.role
  }

  /** A record that names its model is counted under that name, and any other as unresolved; roles are counted under
      their own names. */
  lemma GroupKeysAre(record: Record)
    ensures ModelKey(record) == if record.model in {None, Some("")} then "unresolved" else record.model.value
    ensures RoleKey(record) == record.role
  {
    if record.model.Some? && record.model.value == "" {
      assert record.model == Some("");
    }
  }

  /** The records with a given key, in order. */
  function Having(records: seq<Record>, keyOf: Record -> string, key: string): seq<Record> {
    if records == [] then []
    else
      Having(records[..|records| - 1], keyOf, key)
      + if keyOf(records[|records| - 1]) == key then [records[|records| - 1]] else []
  }

  /** `groups` totals the records of every key that occurs. */
  ghost predicate TotalsByKey(groups: map<string, Totals>, records: seq<Record>, keyOf: Record -> string) {
    && (forall key :: key in groups <==> exists i :: 0 <= i < |records| && keyOf(records[i]) == key)
    && (forall key :: key in groups ==> groups[key] == TotalOf(Having(records, keyOf, key)))
  }

  datatype Summary = Summary(reservations: Option<nat>, attempts: nat, unrecorded: Option<int>, coverageComplete: bool,
                             totals: Totals, byRole: map<string, Totals>, byModel: map<string, Totals>)

  // ----- the run's evidence directory -----

  /** `order` is the directory listing: every recorded attempt once. */
  ghost predicate Lists(order: seq<nat>, records: map<nat, Record>) {
    && (forall n :: n in order <==> n in records)
    && (forall i, j :: 0 <= i < j < |order| ==> order[i] != order[j])
  }

  function Read(records: map<nat, Record>, order: seq<nat>): seq<Record>
    requires forall i :: 0 <= i < |order| ==> order[i] in records
  {
    seq(|order|, i requires 0 <= i < |order| => records[order[i]])
  }

  /** The evidence is consistent: a sound ledger, each record under its own number, no more records than
      reservations. */
  ghost predicate Summarizable(file: LedgerFile, records: map<nat, Record>, order: seq<nat>) {
    && !file.Damaged? && (forall n :: n in records ==> records[n].attempt == n)
    && (file.Absent? ==> records == map[]) && (file.Holds? ==> |order| <= file.row.attempts)
  }

  /** `coverage_complete`. */
  predicate CoversAll(file: LedgerFile, order: seq<nat>, totals: Totals) {
    file.Holds? && order != [] && |order| == file.row.attempts && totals.reported == |order|
  }

  class RunEvidence {
    var file: LedgerFile
    var records: map<nat, Record>

    constructor ()
      ensures file == Absent && records == map[]
    {
      file, records := Absent, map[];
    }

    /** Start the ledger; existing consumption is never reset. */
    method InitializeRunBudget(startedAt: real) returns (r: Result<Row, Refusal>)
      modifies this`file
      ensures InitializeStep(startedAt, old(file), file, r)
    {
      if file.Absent? {
        file := Holds(Row(startedAt, 0, 0));
      }
      r := if file.Holds? then Success(file.row) else Failure(IntegrityError);
    }

    /** Reserve one attempt and its tokens before the provider is called. */
    method ReserveModelAttempt(budget: Budget, input: int, output: int, now: real) returns (r: Result<Grant, Refusal>)
      modifies this`file
      ensures ReserveStep(budget, input, output, now, old(file), file, r)
    {
      if input < 0 || output < 0 {
        return Failure(BadRequest);
      }
      var requested := input + output;
      if !file.Holds? {
        return Failure(IntegrityError);
      }
      var row := file.row;
      if Exhausted(budget, row, now) {
        return Failure(BudgetExceeded);
      }
      var timeout := (budget.maxWall as real - Elapsed(row, now)).Floor;
      if timeout < 1 {
        return Failure(BudgetExceeded);
      }
      if row.attempts + 1 > budget.maxAttempts {
        return Failure(BudgetExceeded);
      }
      var tokens := row.tokens + requested;
      if tokens > budget.maxTokens {
        return Failure(BudgetExceeded);
      }
      file := Holds(row.(attempts := row.attempts + 1, tokens := tokens));
      return Success(Grant(row.attempts + 1, requested, tokens, timeout));
    }

    /** Record the usage of one attempt: only a reserved one, once, and the same again at will. */
    method RecordModelUsageAttempt(record: Record) returns (r: Result<Record, Refusal>)
      modifies this`records
      ensures RecordStep(record, file, old(records), records, r)
    {
      if record.attempt < 1 {
        return Failure(BadRequest);
      }
      if !file.Holds? || record.attempt > file.row.attempts {
        return Failure(UsageIntegrityError);
      }
      if record.attempt in records {
        if records[record.attempt] != record {
          return Failure(UsageIntegrityError);
        }
        assert records == records[record.attempt := record];
        return Success(records[record.attempt]);
      }
      records := records[record.attempt := record];
      return Success(record);
    }

    /** Sum what was recorded, in the order of the directory listing. */
    method SummarizeModelUsage(order: seq<nat>) returns (r: Result<Summary, Refusal>)
      requires Lists(order, records)
      ensures r.Success? <==> Summarizable(file, records, order)
      ensures r.Success? ==>
                var listed, s := Read(records, order), r.value;
                && s.reservations == (if file.Holds? then Some(file.row.attempts) else None)
                && s.attempts == |order|
                && s.unrecorded == (if file.Holds? then Some(file.row.attempts - |order|) else None)
                && s.totals == TotalOf(listed)
                && TotalsByKey(s.byRole, listed, RoleKey) && TotalsByKey(s.byModel, listed, ModelKey)
                && s.coverageComplete == CoversAll(file, order, TotalOf(listed))
    {
      if file.Damaged? {
        return Failure(UsageIntegrityError);
      }
      for i := 0 to |order|
        invariant forall j :: 0 <= j < i ==> records[order[j]].attempt == order[j]
      {
        if records[order[i]].attempt != order[i] {
          return Failure(UsageIntegrityError);
        }
      }
      assert forall n :: n in records ==> n in order;
      if order != [] && file.Absent? {
        assert order[0] in records;
        return Failure(UsageIntegrityError);
      }
      if file.Holds? && |order| > file.row.attempts {
        return Failure(UsageIntegrityError);
      }
      var listed := Read(records, order);
      var totals, byRole, byModel := AddAll(listed);
      var reservations := if file.Holds? then Some(file.row.attempts) else None;
      return Success(Summary(reservations, |order|, if file.Holds? then Some(file.row.attempts - |order|) else None,
                             CoversAll(file, order, totals),
                             totals, byRole, byModel));
    }
  }

  /** The summing loop. */
  method AddAll(records: seq<Record>)
      returns (totals: Totals, byRole: map<string, Totals>, byModel: map<string, Totals>)
    ensures totals == TotalOf(records)
    ensures TotalsByKey(byRole, records, RoleKey) && TotalsByKey(byModel, records, ModelKey)
  {
    hide TotalsByKey, AddUsage;
    totals, byRole, byModel := NoTotals, map[], map[];
    NoGroups(RoleKey);
    NoGroups(ModelKey);
    for i := 0 to |records|
      invariant totals == TotalOf(records[..i])
      invariant TotalsByKey(byRole, records[..i], RoleKey) && TotalsByKey(byModel, records[..i], ModelKey)
    {
      var record, role, model := records[i], RoleKey(records[i]), ModelKey(records[i]);
      assert records[..i + 1] == records[..i] + [record] && (records[..i] + [record])[..i] == records[..i];
      GroupsTakeIn(byRole, records[..i], record, RoleKey);
      GroupsTakeIn(byModel, records[..i], record, ModelKey);
      totals := AddUsage(totals, record);
      byRole := byRole[role := AddUsage(if role in byRole then byRole[role] else NoTotals, record)];
      byModel := byModel[model := AddUsage(if model in byModel then byModel[model] else NoTotals, record)];
    }
    assert records[..|records|] == records;
  }

  lemma NoGroups(keyOf: Record -> string)
    ensures TotalsByKey(map[], [], keyOf)
  {
  }

  lemma HavingOneMore(records: seq<Record>, record: Record, keyOf: Record -> string, key: string)
    ensures Having(records + [record], keyOf, key) == Having(records, keyOf, key) + if keyOf(record) == key
              then [record] else []
  {
    assert (records + [record])[..|records|] == records;
  }

  lemma {:induction false} HavingNone(records: seq<Record>, keyOf: Record -> string, key: string)
    requires forall i :: 0 <= i < |records| ==> keyOf(records[i]) != key
    ensures Having(records, keyOf, key) == []
  {
    if records != [] {
      HavingNone(records[..|records| - 1], keyOf, key);
    }
  }

  lemma TotalOneMore(records: seq<Record>, record: Record)
    ensures TotalOf(records + [record]) == AddUsage(TotalOf(records), record)
  {
    assert (records + [record])[..|records|] == records;
  }

  lemma GroupsTakeIn(groups: map<string, Totals>, records: seq<Record>, record: Record, keyOf: Record -> string)
    requires TotalsByKey(groups, records, keyOf)
    ensures TotalsByKey(groups[keyOf(record) := AddUsage(if keyOf(record) in groups then groups[keyOf(record)]
              else NoTotals, record)],
                        records + [record], keyOf)
  {
    hide AddUsage, TotalOf, Having;
    var own, more := keyOf(record), records + [record];
    var groups' := groups[own := AddUsage(if own in groups then groups[own] else NoTotals, record)];
    forall key ensures key in groups' <==> exists i :: 0 <= i < |more| && keyOf(more[i]) == key {
      assert more[|records|] == record;
      if i :| 0 <= i < |records| && keyOf(records[i]) == key {
        assert more[i] == records[i];
      }
    }
    forall key | key in groups' ensures groups'[key] == TotalOf(Having(more, keyOf, key)) {
      HavingOneMore(records, record, keyOf, key);
      if key == own {
        if own !in groups {
          HavingNone(records, keyOf, own);
          TotalOfNone();
        }
        TotalOneMore(Having(records, keyOf, key), record);
      } else {
        assert Having(more, keyOf, key) == Having(records, keyOf, key);
      }
    }
  }

  lemma TotalOfNone()
    ensures TotalOf([]) == NoTotals
  {
  }
}
