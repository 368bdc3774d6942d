/**
 Every history of initialise, reserve and record operations on one run's ledger, deaths of the
 process included since each operation writes atomically: what the accounts say.
 */
module UsageAccounting {
  import opened Wrappers
  import opened RunBudget

  datatype Event = Initialize(startedAt: real) | Reserve(input: int, output: int,
      now: real) | Record(record: RunBudget.Record)

  /** A grant and the time it was given. */
  datatype Given = Given(grant: Grant, now: real)

  datatype World = World(file: LedgerFile, records: map<nat, RunBudget.Record>, given: seq<Given>)

  const Initial := World(Absent, map[], [])

  ghost predicate Step(budget: Budget, w: World, e: Event, w': World) {
    match e
    case Initialize(startedAt) =>
      (exists r :: InitializeStep(startedAt, w.file, w'.file, r)) && w'.records == w.records && w'.given == w.given
    case Reserve(input, output, now) =>
      && w'.records == w.records
      && exists r :: ReserveStep(budget, input, output, now, w.file, w'.file, r)
                     && w'.given == w.given + if r.Success? then [Given(r.value, now)] else []
    case Record(record) =>
      && w'.file == w.file && w'.given == w.given
      && exists r :: RecordStep(record, w.file, w.records, w'.records, r)
  }

  ghost predicate IsHistory(budget: Budget, events: seq<Event>, worlds: seq<World>) {
    && |worlds| == |events| + 1 && worlds[0] == Initial
    && forall i :: 0 <= i < |events| ==> Step(budget, worlds[i], events[i], worlds[i + 1])
  }

  function Requested(given: seq<Given>): nat {
    if given == [] then 0 else Requested(given[..|given| - 1]) + given[|given| - 1].grant.requested
  }

  lemma RequestedOneMore(given: seq<Given>, one: Given)
    ensures Requested(given + [one]) == Requested(given) + one.grant.requested
  {
    assert (given + [one])[..|given|] == given;
  }

  // ----- the ledger -----

  /** The ledger says what was granted: attempts numbered 1..n, the tokens they requested, and every
      provider call ends within the wall time. */
  ghost predicate Balanced(budget: Budget, w: World) {
    && !w.file.Damaged? && (w.file.Absent? ==> w.given == [])
    && (forall k :: 0 <= k < |w.given| ==> w.given[k].grant.attempt == k + 1 && w.given[k].grant.timeout >= 1)
    && (w.file.Holds? ==>
          && w.file.row.attempts == |w.given| <= budget.maxAttempts
          && w.file.row.tokens == Requested(w.given) <= budget.maxTokens
          && forall k :: 0 <= k < |w.given| ==>
               w.given[k].now + w.given[k].grant.timeout as real <= w.file.row.startedAt + budget.maxWall as real)
  }

  lemma StepKeepsBalance(budget: Budget, w: World, e: Event, w': World)
    requires Balanced(budget, w) && Step(budget, w, e, w')
    ensures Balanced(budget, w')
  {
    hide Requested;
    if e.Reserve? {
      var r :| ReserveStep(budget, e.input, e.output, e.now, w.file, w'.file, r)
               && w'.given == w.given + if r.Success? then [Given(r.value, e.now)] else [];
      if r.Success? {
        RequestedOneMore(w.given, Given(r.value, e.now));
        assert e.now + r.value.timeout as real <= w.file.row.startedAt + budget.maxWall as real;
        forall k | 0 <= k < |w'.given|
          ensures w'.given[k].grant.attempt == k + 1 && w'.given[k].grant.timeout >= 1
          ensures w'.given[k].now + w'.given[k].grant.timeout as real <= w.file.row.startedAt + budget.maxWall as real
        {
          assert k < |w.given| ==> w'.given[k] == w.given[k];
        }
      } else {
        assert w'.given == w.given;
      }
    } else {
      NothingRequested();
    }
  }

  lemma NothingRequested()
    ensures Requested([]) == 0
  {
  }

  /** In every history the limits hold, attempts are exactly 1..n, and a grant made at any time,
      run to its timeout, ends within the wall time. */
  lemma {:induction false} LimitsHold(budget: Budget, events: seq<Event>, worlds: seq<World>, i: nat)
    requires IsHistory(budget, events, worlds) && i < |worlds|
    ensures Balanced(budget, worlds[i])
  {
    hide Step;
    if i > 0 {
      var before: nat := i - 1;
      LimitsHold(budget, events, worlds, before);
      StepKeepsBalance(budget, worlds[before], events[before], worlds[i]);
    }
  }

  /** A second start changes nothing, and consumption never goes back. */
  lemma {:induction false} ConsumptionOnlyGrows(budget: Budget, events: seq<Event>, worlds: seq<World>, i: nat, j: nat)
    requires IsHistory(budget, events, worlds) && i <= j < |worlds| && worlds[i].file.Holds?
    ensures worlds[j].file.Holds? && worlds[j].file.row.startedAt == worlds[i].file.row.startedAt
    ensures worlds[j].file.row.attempts >= worlds[i].file.row.attempts
              && worlds[j].file.row.tokens >= worlds[i].file.row.tokens
    ensures worlds[i].given <= worlds[j].given
    decreases j
  {
    hide Fits, Elapsed;
    if i < j {
      var before: nat := j - 1;
      ConsumptionOnlyGrows(budget, events, worlds, i, before);
      assert Step(budget, worlds[before], events[before], worlds[j]);
    }
  }

  // ----- the records -----

  /** Records sit only on reserved attempts, each under its own number. */
  ghost predicate OnReserved(w: World) {
    forall n :: n in w.records ==>
      n >= 1 && w.records[n].attempt == n && w.file.Holds? && n <= w.file.row.attempts
  }

  /** In every history usage is recorded only for attempts that were reserved before. */
  lemma {:induction false} RecordsAreReserved(budget: Budget, events: seq<Event>, worlds: seq<World>, i: nat)
    requires IsHistory(budget, events, worlds) && i < |worlds|
    ensures OnReserved(worlds[i])
  {
    hide Fits, Elapsed;
    if i > 0 {
      var before: nat := i - 1;
      RecordsAreReserved(budget, events, worlds, before);
      assert Step(budget, worlds[before], events[before], worlds[i]);
    }
  }

  /** What was recorded for an attempt never changes. */
  lemma {:induction false} RecordsNeverChange(budget: Budget, events: seq<Event>, worlds: seq<World>, i: nat, j: nat,
      n: nat)
    requires IsHistory(budget, events, worlds) && i <= j < |worlds| && n in worlds[i].records
    ensures n in worlds[j].records && worlds[j].records[n] == worlds[i].records[n]
    decreases j
  {
    hide Fits, Elapsed;
    if i < j {
      var before: nat := j - 1;
      RecordsNeverChange(budget, events, worlds, i, before, n);
      assert Step(budget, worlds[before], events[before], worlds[j]);
    }
  }

  // ----- the summary -----

  lemma ListedRecordIsReserved(w: World, order: seq<nat>, n: nat)
    requires OnReserved(w) && Lists(order, w.records) && n in order
    ensures w.file.Holds? && 1 <= n <= w.file.row.attempts
  {
    assert n in w.records;
  }

  function UpTo(limit: nat): (all: set<nat>)
    ensures |all| == limit && forall n :: n in all <==> 1 <= n <= limit
  {
    if limit == 0 then {} else UpTo(limit - 1) + {limit}
  }

  function Members(order: seq<nat>): (members: set<nat>)
    ensures forall n :: n in members <==> n in order
  {
    if order == [] then {} else Members(order[..|order| - 1]) + {order[|order| - 1]}
  }

  lemma {:induction false} CountDistinct(order: seq<nat>)
    requires forall i, j :: 0 <= i < j < |order| ==> order[i] != order[j]
    ensures |Members(order)| == |order|
  {
    if order != [] {
      CountDistinct(order[..|order| - 1]);
    }
  }

  lemma SubsetSize(a: set<nat>, b: set<nat>)
    requires a <= b
    ensures |a| <= |b| && (|a| == |b| ==> a == b)
  {
    assert b == a + (b - a);
  }

  /** Distinct attempts between 1 and a limit fill it exactly when there are as many. */
  lemma DistinctFit(order: seq<nat>, limit: nat)
    requires forall i :: 0 <= i < |order| ==> 1 <= order[i] <= limit
    requires forall i, j :: 0 <= i < j < |order| ==> order[i] != order[j]
    ensures |order| <= limit
    ensures |order| == limit <==> forall n :: 1 <= n <= limit ==> n in order
  {
    hide Members, UpTo;
    CountDistinct(order);
    assert Members(order) <= UpTo(limit);
    SubsetSize(Members(order), UpTo(limit));
    if |order| == limit {
      forall n | 1 <= n <= limit ensures n in order {
        assert n in UpTo(limit);
      }
    }
    if forall n :: 1 <= n <= limit ==> n in order {
      forall n | n in UpTo(limit) ensures n in Members(order) {
      }
      SubsetSize(UpTo(limit), Members(order));
    }
  }

  lemma {:induction false} ReportedCount(records: seq<RunBudget.Record>)
    ensures TotalOf(records).attempts == |records| && TotalOf(records).reported <= |records|
    ensures TotalOf(records).reported == |records| <==> forall i :: 0 <= i < |records| ==> records[i].usage.Some?
  {
    if records != [] {
      var init := records[..|records| - 1];
      ReportedCount(init);
      assert forall i :: 0 <= i < |init| ==> init[i] == records[i];
    }
  }

  /** Coverage is complete exactly when something was reserved and every reservation has a record that
      reports usage. */
  ghost predicate EveryReservationReported(w: World) {
    && w.file.Holds? && w.file.row.attempts >= 1
    && forall n :: 1 <= n <= w.file.row.attempts ==> n in w.records && w.records[n].usage.Some?
  }

  /** In every history the summary succeeds, leaves no negative rest, and calls its coverage complete
      exactly when every one of at least one reservation has reported. */
  lemma CoverageIff(budget: Budget, events: seq<Event>, worlds: seq<World>, i: nat, order: seq<nat>)
    requires IsHistory(budget, events, worlds) && i < |worlds| && Lists(order, worlds[i].records)
    ensures var w := worlds[i];
            && Summarizable(w.file, w.records, order)
            && (CoversAll(w.file, order, TotalOf(Read(w.records, order))) <==> EveryReservationReported(w))
  {
    hide TotalOf, IsHistory;
    var w := worlds[i];
    LimitsHold(budget, events, worlds, i);
    RecordsAreReserved(budget, events, worlds, i);
    hide Balanced;
    var listed := Read(w.records, order);
    ReportedCount(listed);
    if w.file.Holds? {
      forall k | 0 <= k < |order| ensures 1 <= order[k] <= w.file.row.attempts {
        ListedRecordIsReserved(w, order, order[k]);
      }
      DistinctFit(order, w.file.row.attempts);
      AllReported(w, order, listed);
    }
  }

  lemma AllReported(w: World, order: seq<nat>, listed: seq<RunBudget.Record>)
    requires Lists(order, w.records) && listed == Read(w.records, order)
    ensures (forall k :: 0 <= k < |listed| ==> listed[k].usage.Some?) <==>
              forall n :: n in w.records ==> w.records[n].usage.Some?
  {
    if forall k :: 0 <= k < |listed| ==> listed[k].usage.Some? {
      forall n | n in w.records ensures w.records[n].usage.Some? {
        assert n in order;
        var k :| 0 <= k < |order| && order[k] == n;
        assert listed[k].usage.Some?;
      }
    }
  }

  // ----- the groups -----

  function PlusTotals(a: Totals, b: Totals): Totals {
    Totals(a.attempts + b.attempts, a.reported + b.reported, Plus(a.usage, b.usage))
  }

  /** The sum of the totals of the listed keys. */
  function SumGroups(groups: map<string, Totals>, keys: seq<string>): Totals
    requires forall k :: k in keys ==> k in groups
  {
    if keys == [] then NoTotals else PlusTotals(SumGroups(groups, keys[..|keys| - 1]), groups[keys[|keys| - 1]])
  }

  function SumHaving(records: seq<RunBudget.Record>, keyOf: RunBudget.Record -> string, keys: seq<string>): Totals {
    if keys == [] then NoTotals
    else PlusTotals(SumHaving(records, keyOf, keys[..|keys| - 1]), TotalOf(Having(records, keyOf, keys[|keys| - 1])))
  }

  lemma PlusNothing(a: Totals)
    ensures PlusTotals(a, NoTotals) == a
  {
  }

  lemma PlusThenAdd(a: Totals, b: Totals, record: RunBudget.Record)
    ensures PlusTotals(AddUsage(a, record), b) == AddUsage(PlusTotals(a, b), record)
    ensures PlusTotals(a, AddUsage(b, record)) == AddUsage(PlusTotals(a, b), record)
  {
  }

  lemma {:induction false} NothingSums(keyOf: RunBudget.Record -> string, keys: seq<string>)
    ensures SumHaving([], keyOf, keys) == NoTotals
  {
    hide PlusTotals;
    if keys != [] {
      NothingSums(keyOf, keys[..|keys| - 1]);
      PlusNothing(NoTotals);
      TotalOfNone();
    }
  }

  /** Adding a record adds it to the sum once if its key is listed, and otherwise not at all. */
  lemma {:induction false} SumTakesIn(records: seq<RunBudget.Record>, record: RunBudget.Record,
      keyOf: RunBudget.Record -> string, keys: seq<string>)
    requires forall i, j :: 0 <= i < j < |keys| ==> keys[i] != keys[j]
    ensures SumHaving(records + [record], keyOf, keys) ==
              if keyOf(record) in keys then AddUsage(SumHaving(records, keyOf, keys), record)
                  else SumHaving(records, keyOf, keys)
  {
    hide Having, TotalOf, PlusTotals, AddUsage;
    if keys != [] {
      var init, last := keys[..|keys| - 1], keys[|keys| - 1];
      assert keys == init + [last];
      SumTakesIn(records, record, keyOf, init);
      HavingOneMore(records, record, keyOf, last);
      PlusThenAdd(SumHaving(records, keyOf, init), TotalOf(Having(records, keyOf, last)), record);
      if keyOf(record) == last {
        assert last !in init;
        TotalOneMore(Having(records, keyOf, last), record);
      } else {
        assert Having(records, keyOf, last) + [] == Having(records, keyOf, last);
      }
    }
  }

  lemma {:induction false} HavingSumsToTotal(records: seq<RunBudget.Record>, keyOf: RunBudget.Record -> string,
      keys: seq<string>)
    requires forall i, j :: 0 <= i < j < |keys| ==> keys[i] != keys[j]
    requires forall i :: 0 <= i < |records| ==> keyOf(records[i]) in keys
    ensures SumHaving(records, keyOf, keys) == TotalOf(records)
  {
    hide Having, SumHaving;
    if records == [] {
      NothingSums(keyOf, keys);
    } else {
      var init, last := records[..|records| - 1], records[|records| - 1];
      assert records == init + [last];
      HavingSumsToTotal(init, keyOf, keys);
      SumTakesIn(init, last, keyOf, keys);
    }
  }

  lemma {:induction false} GroupsAreHaving(groups: map<string, Totals>, records: seq<RunBudget.Record>,
      keyOf: RunBudget.Record -> string, keys: seq<string>)
    requires TotalsByKey(groups, records, keyOf) && forall k :: k in keys ==> k in groups
    ensures SumGroups(groups, keys) == SumHaving(records, keyOf, keys)
  {
    hide Having, TotalOf;
    if keys != [] {
      assert keys[|keys| - 1] in keys;
      GroupsAreHaving(groups, records, keyOf, keys[..|keys| - 1]);
    }
  }

  /** Totals grouped by role or by model sum to the totals of the run, over any listing of the keys. */
  lemma GroupsSumToTotal(groups: map<string, Totals>, records: seq<RunBudget.Record>,
      keyOf: RunBudget.Record -> string, keys: seq<string>)
    requires TotalsByKey(groups, records, keyOf)
    requires (forall k :: k in keys <==> k in groups) && forall i, j :: 0 <= i < j < |keys| ==> keys[i] != keys[j]
    ensures SumGroups(groups, keys) == TotalOf(records)
  {
    hide Having, SumHaving, TotalOf, SumGroups;
    forall i | 0 <= i < |records| ensures keyOf(records[i]) in keys {
      assert keyOf(records[i]) in groups;
    }
    GroupsAreHaving(groups, records, keyOf, keys);
    HavingSumsToTotal(records, keyOf, keys);
  }
}
