/**
 The durable ledger of flaky-check reruns (`ci.py`, lines 34-175 and 240-257, and `ci_flakes.py`,
 lines 59-120).
 */
module CiRetries {
  import opened Wrappers
  import opened RequiredChecks
  import opened TextOrder

  // ----- what one observation of the remote contains -----

  datatype Item =
    | PolicyItem(authoritative: bool, anyRequired: bool)
    | RunItem(check: CheckRun, required: bool)
    | StatusItem(status: CommitStatus, required: bool)

  datatype CiResult = CiResult(status: Verdict, items: seq<Item>)

  datatype FlakyPolicy = FlakyPolicy(checks: seq<string>, maxRetries: nat) {
    predicate Enabled() {
      checks != [] && maxRetries > 0
    }
  }

  predicate ItemFails(item: Item) {
    match item
    case PolicyItem(_, _) => false
    case RunItem(check, _) => CheckRunState(check) == Failing
    case StatusItem(status, _) => CommitStatusState(status) == Failing
  }

  /** The normalized list that `ci_status` returns with its verdict: the policy, then every check
      run, then every commit status. */
  function Normalize(policy: Policy, checks: seq<CheckRun>, statuses: seq<CommitStatus>): seq<Item> {
    [PolicyItem(policy.authoritative, policy.required != [])]
    + seq(|checks|, i requires 0 <= i < |checks| =>
        RunItem(checks[i], exists item :: item in policy.required && RunMatches(item, checks[i])))
    + seq(|statuses|, i requires 0 <= i < |statuses| =>
        StatusItem(statuses[i], exists item :: item in policy.required && StatusMatches(item, statuses[i])))
  }

  /** The failing items that decide the verdict, in order. `ci_status` puts the policy first. */
  function FailuresIn(items: seq<Item>, onlyRequired: bool): (failures: seq<Item>)
    ensures forall item :: item in failures <==>
              item in items && ItemFails(item) && (onlyRequired ==> !item.PolicyItem? && item.required)
  {
    if items == [] then []
    else
      var item := items[|items| - 1];
      FailuresIn(items[..|items| - 1], onlyRequired)
      + if ItemFails(item) && (!onlyRequired || item.required) then [item] else []
  }

  function Failures(items: seq<Item>): seq<Item> {
    if items == [] || !items[0].PolicyItem? || !items[0].authoritative then []
    else FailuresIn(items, items[0].anyRequired)
  }

  method AuthoritativeFailures(items: seq<Item>) returns (failures: seq<Item>)
    ensures failures == Failures(items)
  {
    if items == [] || !items[0].PolicyItem? || !items[0].authoritative {
      return [];
    }
    failures := [];
    for i := 0 to |items|
      invariant failures == FailuresIn(items[..i], items[0].anyRequired)
    {
      assert items[..i + 1][..i] == items[..i];
      if !items[i].PolicyItem? && (!items[0].anyRequired || items[i].required) && ItemFails(items[i]) {
        failures := failures + [items[i]];
      }
    }
    assert items[..|items|] == items;
  }

  /** What `ci_status` returns for the head. */
  ghost function RemoteResult(policy: Policy, checks: seq<CheckRun>, statuses: seq<CommitStatus>): CiResult {
    CiResult(RemoteVerdict(policy, checks, statuses), Normalize(policy, checks, statuses))
  }

  /** `ci_status` reports a failure exactly when there is a failing item to look at. */
  lemma FailureIsShown(policy: Policy, checks: seq<CheckRun>, statuses: seq<CommitStatus>)
    ensures policy.authoritative && SomeFails(policy, checks, statuses) <==>
              Failures(Normalize(policy, checks, statuses)) != []
  {
    var items := Normalize(policy, checks, statuses);
    var failures := Failures(items);
    assert items[0] == PolicyItem(policy.authoritative, policy.required != []);
    if policy.authoritative && SomeFails(policy, checks, statuses) {
      var item := ShownFailure(policy, checks, statuses);
      assert item in failures;
    }
    if failures != [] {
      assert failures[0] in failures;
      FailureWasObserved(policy, checks, statuses, failures[0]);
    }
  }

  lemma ShownFailure(policy: Policy, checks: seq<CheckRun>, statuses: seq<CommitStatus>) returns (item: Item)
    requires SomeFails(policy, checks, statuses)
    ensures item in Normalize(policy, checks, statuses) && ItemFails(item) && !item.PolicyItem?
    ensures policy.required != [] ==> item.required
  {
    var items := Normalize(policy, checks, statuses);
    var wanted: RequiredCheck :| policy.required != [] ==>
        wanted in policy.required && Observed(wanted, checks, statuses, Failing);
    var all := policy.required == [];
    if c :| c in checks && CheckRunState(c) == Failing && (all || RunMatches(wanted, c)) {
      var i :| 0 <= i < |checks| && checks[i] == c;
      item := items[1 + i];
    } else {
      var c :| c in statuses && CommitStatusState(c) == Failing && (all || StatusMatches(wanted, c));
      var i :| 0 <= i < |statuses| && statuses[i] == c;
      item := items[1 + |checks| + i];
    }
  }

  lemma FailureWasObserved(policy: Policy, checks: seq<CheckRun>, statuses: seq<CommitStatus>, item: Item)
    requires item in Normalize(policy, checks, statuses) && ItemFails(item)
    requires policy.required != [] ==> !item.PolicyItem? && item.required
    ensures SomeFails(policy, checks, statuses)
  {
    var items := Normalize(policy, checks, statuses);
    var k :| 0 <= k < |items| && items[k] == item;
    if 1 <= k <= |checks| {
      assert item.check == checks[k - 1] && item.check in checks;
      if policy.required != [] {
        var wanted :| wanted in policy.required && RunMatches(wanted, item.check);
        assert Observed(wanted, checks, statuses, Failing);
      }
    } else {
      assert item.status == statuses[k - 1 - |checks|] && item.status in statuses;
      if policy.required != [] {
        var wanted :| wanted in policy.required && StatusMatches(wanted, item.status);
        assert Observed(wanted, checks, statuses, Failing);
      }
    }
  }

  // ----- choosing the one check to rerun -----

  type Counts = map<string, nat>

  function Count(counts: Counts, name: string): nat {
    if name in counts then counts[name] else 0
  }

  /** Every failure is a check run named in `checks`, and no name repeats. */
  ghost predicate AllNamed(failures: seq<Item>, checks: seq<string>) {
    && (forall i :: 0 <= i < |failures| ==> failures[i].RunItem? && failures[i].check.name in checks)
    && (forall i, j :: 0 <= i < j < |failures| ==> failures[i].check.name != failures[j].check.name)
  }

  /** Moreover, each of them may be rerun once more. */
  ghost predicate AllRetryable(failures: seq<Item>, policy: FlakyPolicy, counts: Counts) {
    AllNamed(failures, policy.checks)
    && forall i :: 0 <= i < |failures| ==> Count(counts, failures[i].check.name) < policy.maxRetries
  }

  ghost predicate MayRetry(result: CiResult, policy: FlakyPolicy, counts: Counts) {
    && result.status == CiFail && policy.Enabled()
    && Failures(result.items) != []
    && AllRetryable(Failures(result.items), policy, counts)
  }

  lemma OnlyFailuresAreRetried(result: CiResult, policy: FlakyPolicy, counts: Counts)
    ensures MayRetry(result, policy, counts) ==> result.status == CiFail
  {
  }

  method ChooseFlakyRetry(result: CiResult, policy: FlakyPolicy, counts: Counts) returns (chosen: Option<string>)
    ensures chosen.Some? <==> MayRetry(result, policy, counts)
    ensures chosen.Some? ==> exists item :: item in Failures(result.items) && item.check.name == chosen.value
    ensures chosen.Some? ==> forall item :: item in Failures(result.items) ==> AtMost(chosen.value, item.check.name)
  {
    hide AtMost, Failures;
    if result.status != CiFail || !policy.Enabled() {
      return None;
    }
    var failures := AuthoritativeFailures(result.items);
    if failures == [] {
      return None;
    }
    var named := CollectNames(failures, policy.checks);
    if named.None? {
      return None;
    }
    var names := named.value;
    var least, retryable := SortRetryable(names, policy.maxRetries, counts);
    if retryable != |names| {
      return None;
    }
    var j :| 0 <= j < |names| && names[j] == least;
    assert failures[j] in failures;
    return Some(least);
  }

  method CollectNames(failures: seq<Item>, checks: seq<string>) returns (names: Option<seq<string>>)
    ensures names.Some? <==> AllNamed(failures, checks)
    ensures names.Some? ==>
              |names.value| == |failures| && forall i :: 0 <= i < |failures| ==>
                  names.value[i] == failures[i].check.name
  {
    var found: seq<string> := [];
    for i := 0 to |failures|
      invariant |found| == i
      invariant forall j :: 0 <= j < i ==>
          failures[j].RunItem? && found[j] == failures[j].check.name && found[j] in checks
      invariant forall j, k :: 0 <= j < k < i ==> found[j] != found[k]
    {
      if !failures[i].RunItem? || failures[i].check.name !in checks {
        return None;
      }
      var name := failures[i].check.name;
      if name in found {
        var j :| 0 <= j < i && found[j] == name;
        assert failures[j].check.name == failures[i].check.name;
        return None;
      }
      found := found + [name];
    }
    return Some(found);
  }

  /** How many of the names may be rerun once more, and the least name. */
  method SortRetryable(names: seq<string>, maxRetries: nat, counts: Counts) returns (least: string, retryable: nat)
    requires names != []
    ensures least in names && forall i :: 0 <= i < |names| ==> AtMost(least, names[i])
    ensures retryable == |names| <==> forall i :: 0 <= i < |names| ==> Count(counts, names[i]) < maxRetries
  {
    least, retryable := names[0], 0;
    OrderIsTotal(least, least);
    for i := 0 to |names|
      invariant least in names && (forall j :: 0 <= j < i ==> AtMost(least, names[j])) && AtMost(least, least)
      invariant retryable <= i
      invariant retryable == i <==> forall j :: 0 <= j < i ==> Count(counts, names[j]) < maxRetries
    {
      OrderIsTotal(least, names[i]);
      OrderIsTotal(names[i], names[i]);
      if !AtMost(least, names[i]) {
        forall j | 0 <= j < i ensures AtMost(names[i], names[j]) {
          OrderIsTransitive(names[i], least, names[j]);
        }
        least := names[i];
      }
      if Count(counts, names[i]) < maxRetries {
        retryable := retryable + 1;
      }
    }
  }

  // ----- the ledger and one poll -----

  datatype Ledger = NoLedger | Ledger(head: string, counts: Counts)

  /** What a checkpoint remembers of CI. */
  datatype CiState = CiState(head: Option<string>, startedAt: int, counts: Counts, verdict: Verdict, retryError: bool)

  const FreshCi := CiState(None, 0, map[], CiPending, false)

  /** One poll's inputs: the head, the clock, the observation and whether a rerun call would succeed. */
  datatype Observation = Observation(head: string, now: int, result: CiResult, rerunWorks: bool)

  /** Where the process dies during a poll, if it does. */
  datatype Death = Lives | DiesBeforeReserving | DiesBeforeCalling | DiesAfterCalling

  /** A reservation, and whether its rerun call was made. */
  datatype Reservation = Reservation(head: string, name: string, called: bool)

  function StateCounts(state: CiState, head: string): Counts {
    if state.head == Some(head) then state.counts else map[]
  }

  function DurableCounts(ledger: Ledger, head: string): Counts {
    if ledger.NoLedger? || ledger.head != head then map[] else ledger.counts
  }

  function MergeCounts(a: Counts, b: Counts): (merged: Counts)
    ensures forall name :: Count(merged, name) == if Count(a, name) >= Count(b, name) then Count(a, name)
              else Count(b, name)
  {
    map name | name in a.Keys + b.Keys :: if Count(a, name) >= Count(b, name) then Count(a, name) else Count(b, name)
  }

  /** The ledger holds a reservation that the checkpoint does not know. */
  ghost predicate Recovered(state: CiState, ledger: Ledger, head: string) {
    exists name :: name in DurableCounts(ledger, head)
        && Count(DurableCounts(ledger, head), name) > Count(StateCounts(state, head), name)
  }

  function Started(state: CiState, o: Observation): int {
    if state.head == Some(o.head) then state.startedAt else o.now
  }

  class CiPoller {
    const policy: FlakyPolicy
    const timeout: nat
    var ledger: Ledger
    ghost var log: seq<Reservation>

    constructor (policy: FlakyPolicy, timeout: nat)
      ensures this.policy == policy && this.timeout == timeout && ledger == NoLedger && log == []
    {
      this.policy, this.timeout, ledger, log := policy, timeout, NoLedger, [];
    }

    method ReserveRetry(head: string, counts: Counts, name: string) returns (reserved: Counts)
      modifies this
      ensures reserved == counts[name := Count(counts, name) + 1]
      ensures ledger == Ledger(head, reserved)
      ensures log == old(log) + [Reservation(head, name, false)]
    {
      reserved := counts[name := Count(counts, name) + 1];
      ledger := Ledger(head, reserved);
      log := log + [Reservation(head, name, false)];
    }

    /** One poll, and what it leaves behind even if it dies. */
    method Poll(state: CiState, o: Observation, death: Death) returns (next: Option<CiState>)
      modifies this
      ensures PollStep(policy, timeout, state, o, death, old(ledger), old(log), ledger, log, next)
    {
      hide MayRetry, Failures, AtMost, Count;
      var started := Started(state, o);
      var stateCounts, durable := StateCounts(state, o.head), DurableCounts(ledger, o.head);
      var counts := MergeCounts(stateCounts, durable);
      OnlyFailuresAreRetried(o.result, policy, counts);
      var ahead := AnyAhead(stateCounts, durable);
      var status, retryError := o.result.status, false;
      if death.DiesBeforeReserving? {
        return None;
      }
      if status == CiPending && o.now - started >= timeout {
        status := CiTimeout;
      } else if status == CiFail && o.now - started < timeout {
        if ahead {
          status := CiPending;
        } else {
          var chosen := ChooseFlakyRetry(o.result, policy, counts);
          if chosen.Some? {
            counts := ReserveRetry(o.head, counts, chosen.value);
            if death.DiesBeforeCalling? {
              assert RetryStep(policy, timeout, state, o, death, old(ledger), chosen.value, false, ledger, None);
              return None;
            }
            if o.rerunWorks {
              log := old(log) + [Reservation(o.head, chosen.value, true)];
              status := CiPending;
            } else {
              retryError := true;
            }
          }
        }
      }
      if death != Lives {
        return None;
      }
      return Some(CiState(Some(o.head), started, counts, status, retryError));
    }

    /** `ci_poll`: observe the remote checks, then decide. Only a head whose required checks all pass under
        an authoritative policy becomes a pass. */
    method PollRemote(state: CiState, head: string, now: int, remote: Policy, checks: seq<CheckRun>,
        statuses: seq<CommitStatus>, rerunWorks: bool) returns (next: CiState)
      modifies this
      ensures next.verdict == CiPass <==> remote.authoritative && AllPass(remote, checks, statuses)
      ensures next.verdict == CiFail ==> remote.authoritative && SomeFails(remote, checks, statuses)
      ensures next.verdict == CiTimeout ==> now - next.startedAt >= timeout
      ensures next.head == Some(head)
      ensures PollStep(policy, timeout, state,
                       Observation(head, now, RemoteResult(remote, checks, statuses), rerunWorks), Lives,
                       old(ledger), old(log), ledger, log, Some(next))
    {
      hide AllPass, SomeFails, Failures, Normalize, MayRetry, Due;
      FailingIsNotPassing(remote, checks, statuses);
      var status := CiStatus(remote, checks, statuses);
      var result := CiResult(status, Normalize(remote, checks, statuses));
      var polled := Poll(state, Observation(head, now, result, rerunWorks), Lives);
      next := polled.value;
    }

    method AnyAhead(stateCounts: Counts, durable: Counts) returns (ahead: bool)
      ensures ahead <==> exists name :: name in durable && Count(durable, name) > Count(stateCounts, name)
    {
      ahead := exists name :: name in durable && Count(durable, name) > Count(stateCounts, name);
    }
  }

  // ----- what a poll does, stated without its steps -----

  function Merged(state: CiState, o: Observation, ledger: Ledger): Counts {
    MergeCounts(StateCounts(state, o.head), DurableCounts(ledger, o.head))
  }

  /** A retry of `name` is due: the head failed in time, nothing was recovered, every failure may be
      retried and `name` is the least of them. */
  ghost predicate Due(policy: FlakyPolicy, timeout: nat, state: CiState, o: Observation, ledger: Ledger, name: string) {
    && o.now - Started(state, o) < timeout && !Recovered(state, ledger, o.head)
    && MayRetry(o.result, policy, Merged(state, o, ledger))
    && (exists item :: item in Failures(o.result.items) && item.check.name == name)
    && (forall item :: item in Failures(o.result.items) ==> AtMost(name, item.check.name))
  }

  /** The verdict a poll stores; only a failing head can become pending. */
  ghost function PolledVerdict(timeout: nat, state: CiState, o: Observation, ledger: Ledger, called: bool): Verdict {
    var inTime := o.now - Started(state, o) < timeout;
    if o.result.status == CiPending && !inTime then CiTimeout
    else if o.result.status == CiFail && inTime && (called || Recovered(state, ledger, o.head)) then CiPending
    else o.result.status
  }

  /** Nothing is reserved: no retry is due, or the process dies first. */
  ghost predicate QuietStep(policy: FlakyPolicy, timeout: nat, state: CiState, o: Observation, death: Death,
                            ledger: Ledger, next: Option<CiState>) {
    && (death == DiesBeforeReserving || forall name :: !Due(policy, timeout, state, o, ledger, name))
    && (next.Some? ==>
          next.value == CiState(Some(o.head), Started(state, o), Merged(state, o, ledger),
                                PolledVerdict(timeout, state, o, ledger, false), false))
  }

  /** `name` is reserved in the ledger, and its rerun is called unless the process dies first. */
  ghost predicate RetryStep(policy: FlakyPolicy, timeout: nat, state: CiState, o: Observation, death: Death,
      ledger: Ledger,
                            name: string, called: bool, ledger': Ledger, next: Option<CiState>) {
    && death != DiesBeforeReserving && Due(policy, timeout, state, o, ledger, name)
    && (called <==> death != DiesBeforeCalling && o.rerunWorks)
    && ledger' == Ledger(o.head, Merged(state, o, ledger)[name := Count(Merged(state, o, ledger), name) + 1])
    && (next.Some? ==>
          next.value == CiState(Some(o.head), Started(state, o), ledger'.counts,
                                PolledVerdict(timeout, state, o, ledger, called), !called))
  }

  /** The state before and after one poll that may die. */
  ghost predicate PollStep(policy: FlakyPolicy, timeout: nat, state: CiState, o: Observation, death: Death,
                           ledger: Ledger, log: seq<Reservation>,
                           ledger': Ledger, log': seq<Reservation>, next: Option<CiState>) {
    && (death == Lives <==> next.Some?)
    && (|| (QuietStep(policy, timeout, state, o, death, ledger, next) && ledger' == ledger && log' == log)
        || (exists name, called ::
              && RetryStep(policy, timeout, state, o, death, ledger, name, called, ledger', next)
              && log' == log + [Reservation(o.head, name, called)]))
  }

  // ----- what is remembered and what is said -----

  function Greater(a: nat, b: nat): nat {
    if a < b then b else a
  }

  /** A retry of a check counts as the checkpoint or the ledger remembers it, whichever remembers more, each for its
      own head only: a new head starts with no retries. */
  lemma CountsAre(state: CiState, o: Observation, ledger: Ledger, name: string)
    ensures Count(Merged(state, o, ledger), name) ==
              Greater(if state.head == Some(o.head) && name in state.counts then state.counts[name] else 0,
                      if ledger.Ledger? && ledger.head == o.head
                          && name in ledger.counts then ledger.counts[name] else 0)
  {
  }

  /** The ledger counts more retries of `name` than the checkpoint remembers for this head. */
  predicate Ahead(state: CiState, counts: Counts, head: string, name: string) {
    && name in counts && counts[name] > 0
    && (state.head == Some(head) && name in state.counts ==> counts[name] > state.counts[name])
  }

  lemma RecoveredIs(state: CiState, ledger: Ledger, head: string)
    ensures Recovered(state, ledger, head) <==>
              ledger.Ledger? && ledger.head == head && exists name :: Ahead(state, ledger.counts, head, name)
  {
    if Recovered(state, ledger, head) {
      var name :| name in DurableCounts(ledger, head)
          && Count(DurableCounts(ledger, head), name) > Count(StateCounts(state, head), name);
      assert Ahead(state, ledger.counts, head, name);
    }
    if ledger.Ledger? && ledger.head == head {
      if name :| Ahead(state, ledger.counts, head, name) {
        assert name in DurableCounts(ledger, head);
      }
    }
  }

  /** Only a failing head is retried, and only if every failing item that decides is a check run named by the policy,
      no name repeats, and each has a retry left. */
  lemma MayRetryIff(result: CiResult, policy: FlakyPolicy, counts: Counts)
    ensures MayRetry(result, policy, counts) <==>
              && result.status == CiFail && Failures(result.items) != []
              && AllRetryable(Failures(result.items), policy, counts)
  {
    hide Failures;
    if Failures(result.items) != [] && AllRetryable(Failures(result.items), policy, counts) {
      assert Failures(result.items)[0].check.name in policy.checks;
    }
  }

  /** What a poll that survives stores: the head and since when it is polled, and the verdict. A head that is pending
      for too long times out; a failing one is called pending, while in time, exactly when its rerun was called or a
      reservation was recovered; and only a rerun that could not be called is reported as an error. */
  lemma PollSays(policy: FlakyPolicy, timeout: nat, state: CiState, o: Observation, ledger: Ledger,
                 log: seq<Reservation>, ledger': Ledger, log': seq<Reservation>, next: CiState)
    requires PollStep(policy, timeout, state, o, Lives, ledger, log, ledger', log', Some(next))
    ensures next.head == Some(o.head)
    ensures next.startedAt == if state.head == Some(o.head) then state.startedAt else o.now
    ensures next.verdict == CiTimeout <==>
              o.result.status == CiTimeout || (o.result.status == CiPending && o.now - next.startedAt >= timeout)
    ensures next.verdict == CiPending <==>
              || (o.result.status == CiPending && o.now - next.startedAt < timeout)
              || (o.result.status == CiFail && o.now - next.startedAt < timeout
                  && (Recovered(state, ledger, o.head) || exists name ::
                      log' == log + [Reservation(o.head, name, true)]))
    ensures next.retryError <==> exists name :: log' == log + [Reservation(o.head, name, false)]
    ensures next.verdict == CiPass <==> o.result.status == CiPass
  {
    hide MayRetry, Failures, AtMost, Merged, Recovered;
    if name, called :| RetryStep(policy, timeout, state, o, Lives, ledger, name, called, ledger', Some(next))
                       && log' == log + [Reservation(o.head, name, called)]
    {
      forall other, flag ensures log' == log + [Reservation(o.head, other, flag)] ==> other == name && flag == called {
        if log' == log + [Reservation(o.head, other, flag)] {
          assert log'[|log|] == Reservation(o.head, other, flag);
          assert log'[|log|] == Reservation(o.head, name, called);
        }
      }
      OnlyFailuresAreRetried(o.result, policy, Merged(state, o, ledger));
    } else {
      assert log' == log;
    }
  }
}
