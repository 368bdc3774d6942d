/**
 The verdict on a head's remote checks (`github.py`, lines 111-146 and 367-448).
 */
module RequiredChecks {
  import opened Wrappers

  datatype RequiredCheck = RequiredCheck(context: string, appId: Option<int>)

  datatype CheckRun = CheckRun(name: string, appId: Option<int>, status: string, conclusion: string)

  datatype CommitStatus = CommitStatus(context: string, state: string)

  datatype Policy = Policy(authoritative: bool, required: seq<RequiredCheck>)

  datatype State = Passing | Failing | Waiting

  datatype Verdict = CiPending | CiPass | CiFail | CiTimeout

  const PASSING_CONCLUSIONS: set<string> := {"success", "neutral", "skipped"}

  function CheckRunState(check: CheckRun): State {
    if check.status != "completed" then Waiting
    else if check.conclusion in PASSING_CONCLUSIONS then Passing else Failing
  }

  function CommitStatusState(status: CommitStatus): State {
    if status.state == "pending" then Waiting else if status.state == "success" then Passing else Failing
  }

  predicate RunMatches(item: RequiredCheck, check: CheckRun) {
    item.context == check.name && (item.appId.None? || item.appId == check.appId)
  }

  predicate StatusMatches(item: RequiredCheck, status: CommitStatus) {
    item.context == status.context && item.appId.None?
  }

  // ----- merging required checks -----

  /** The items in the order of their first appearance, each once. */
  function FirstAppearances(items: seq<RequiredCheck>): (first: seq<RequiredCheck>)
    ensures forall item :: item in first <==> item in items
    ensures forall i, j :: 0 <= i < j < |first| ==> first[i] != first[j]
  {
    if items == [] then []
    else
      var before, last := FirstAppearances(items[..|items| - 1]), items[|items| - 1];
      if last in before then before else before + [last]
  }

  /** Required checks of both sources, each once and in the order of first appearance. */
  method MergeRequiredChecks(first: seq<RequiredCheck>, second: seq<RequiredCheck>) returns (merged: seq<RequiredCheck>)
    ensures merged == FirstAppearances(first + second)
    ensures forall item :: item in merged <==> item in first || item in second
    ensures forall i, j :: 0 <= i < j < |merged| ==> merged[i] != merged[j]
  {
    hide FirstAppearances;
    merged := [];
    var all := first + second;
    NoAppearances();
    for i := 0 to |all|
      invariant merged == FirstAppearances(all[..i])
    {
      OneMoreAppearance(all[..i], all[i]);
      assert all[..i + 1] == all[..i] + [all[i]];
      if all[i] !in merged {
        merged := merged + [all[i]];
      }
    }
    assert all[..|all|] == all;
  }

  lemma NoAppearances()
    ensures FirstAppearances([]) == []
  {
  }

  lemma OneMoreAppearance(items: seq<RequiredCheck>, item: RequiredCheck)
    ensures FirstAppearances(items + [item]) ==
              FirstAppearances(items) + if item in FirstAppearances(items) then [] else [item]
  {
    assert (items + [item])[..|items|] == items;
  }

  // ----- observations -----

  /** Some check run or commit status that counts for `item` is in state `s`. */
  ghost predicate Observed(item: RequiredCheck, checks: seq<CheckRun>, statuses: seq<CommitStatus>, s: State) {
    || (exists c :: c in checks && RunMatches(item, c) && CheckRunState(c) == s)
    || (exists c :: c in statuses && StatusMatches(item, c) && CommitStatusState(c) == s)
  }

  ghost predicate Seen(item: RequiredCheck, checks: seq<CheckRun>, statuses: seq<CommitStatus>) {
    exists s :: Observed(item, checks, statuses, s)
  }

  ghost predicate PassesOnly(item: RequiredCheck, checks: seq<CheckRun>, statuses: seq<CommitStatus>) {
    Seen(item, checks, statuses) && forall s :: Observed(item, checks, statuses, s) ==> s == Passing
  }

  /** Some check run or commit status at all is in state `s`. */
  ghost predicate AnyObserved(checks: seq<CheckRun>, statuses: seq<CommitStatus>, s: State) {
    (exists c :: c in checks && CheckRunState(c) == s) || (exists c :: c in statuses && CommitStatusState(c) == s)
  }

  /** Every required check was observed and only passing; with none required, everything observed is
      passing and something was observed. */
  ghost predicate AllPass(policy: Policy, checks: seq<CheckRun>, statuses: seq<CommitStatus>) {
    if policy.required != [] then
      forall item :: item in policy.required ==> PassesOnly(item, checks, statuses)
    else
      (|checks| + |statuses| > 0) && forall s :: AnyObserved(checks, statuses, s) ==> s == Passing
  }

  ghost predicate SomeFails(policy: Policy, checks: seq<CheckRun>, statuses: seq<CommitStatus>) {
    if policy.required != [] then exists item :: item in policy.required && Observed(item, checks, statuses, Failing)
    else AnyObserved(checks, statuses, Failing)
  }

  /** The verdict on a head, from its observations alone. */
  ghost function RemoteVerdict(policy: Policy, checks: seq<CheckRun>, statuses: seq<CommitStatus>): Verdict {
    if policy.authoritative && SomeFails(policy, checks, statuses) then CiFail
    else if policy.authoritative && AllPass(policy, checks, statuses) then CiPass
    else CiPending
  }

  lemma FailingIsNotPassing(policy: Policy, checks: seq<CheckRun>, statuses: seq<CommitStatus>)
    ensures !(SomeFails(policy, checks, statuses) && AllPass(policy, checks, statuses))
  {
    hide Observed;
    if policy.required != [] && SomeFails(policy, checks, statuses) {
      var item :| item in policy.required && Observed(item, checks, statuses, Failing);
      assert !PassesOnly(item, checks, statuses);
    }
  }

  // ----- the verdict in the words of the remote -----

  /** The check run reports for this required check: it has the name, and is of the wanted app if one is wanted. */
  predicate Reports(check: CheckRun, item: RequiredCheck) {
    check.name == item.context && item.appId in {None, check.appId}
  }

  /** Commit statuses report for required checks of no particular app. */
  predicate StatusReports(status: CommitStatus, item: RequiredCheck) {
    status.context == item.context && item.appId == None
  }

  predicate Succeeded(check: CheckRun) {
    check.status == "completed" && (check.conclusion == "success" || check.conclusion == "neutral"
                                    || check.conclusion == "skipped")
  }

  lemma StatesAre()
    ensures forall c :: CheckRunState(c) == Passing <==> Succeeded(c)
    ensures forall c :: CheckRunState(c) == Failing <==> c.status == "completed" && !Succeeded(c)
    ensures forall c :: CommitStatusState(c) == Passing <==> c.state == "success"
    ensures forall c :: CommitStatusState(c) == Failing <==> c.state != "success" && c.state != "pending"
  {
  }

  /** A required check passes when something reports for it, and every check run and commit status that does has
      succeeded. */
  lemma PassesOnlyIs(item: RequiredCheck, checks: seq<CheckRun>, statuses: seq<CommitStatus>)
    ensures PassesOnly(item, checks, statuses) <==>
              && (forall c :: c in checks && Reports(c, item) ==> Succeeded(c))
              && (forall c :: c in statuses && StatusReports(c, item) ==> c.state == "success")
              && ((exists c :: c in checks && Reports(c, item)) || exists c :: c in statuses && StatusReports(c, item))
  {
    hide CheckRunState, CommitStatusState;
    StatesAre();
    forall c | c in checks && RunMatches(item, c) ensures Observed(item, checks, statuses, CheckRunState(c)) {
    }
    forall c | c in statuses && StatusMatches(item, c) ensures Observed(item, checks, statuses, CommitStatusState(c)) {
    }
  }

  /** It fails when a check run that reports for it has completed in any other way, or a commit status that does is
      neither pending nor a success. */
  lemma FailingIs(item: RequiredCheck, checks: seq<CheckRun>, statuses: seq<CommitStatus>)
    ensures Observed(item, checks, statuses, Failing) <==>
              || (exists c :: c in checks && Reports(c, item) && c.status == "completed" && !Succeeded(c))
              || exists c :: c in statuses && StatusReports(c, item) && c.state != "success" && c.state != "pending"
  {
    hide CheckRunState, CommitStatusState;
    StatesAre();
  }

  /** Without required checks everything observed decides. */
  lemma EverythingDecides(checks: seq<CheckRun>, statuses: seq<CommitStatus>)
    ensures AllPass(Policy(true, []), checks, statuses) <==>
              && (forall c :: c in checks ==> Succeeded(c)) && (forall c :: c in statuses ==> c.state == "success")
              && (checks != [] || statuses != [])
    ensures AnyObserved(checks, statuses, Failing) <==>
              || (exists c :: c in checks && c.status == "completed" && !Succeeded(c))
              || exists c :: c in statuses && c.state != "success" && c.state != "pending"
  {
    hide CheckRunState, CommitStatusState;
    StatesAre();
    forall c | c in checks ensures AnyObserved(checks, statuses, CheckRunState(c)) {
    }
    forall c | c in statuses ensures AnyObserved(checks, statuses, CommitStatusState(c)) {
    }
  }

  type States = map<RequiredCheck, set<State>>

  /** `ci_status`: collect the observations of each required check, then judge them. */
  method CiStatus(policy: Policy, checks: seq<CheckRun>, statuses: seq<CommitStatus>) returns (verdict: Verdict)
    ensures verdict == CiPass <==> policy.authoritative && AllPass(policy, checks, statuses)
    ensures verdict == CiFail <==> policy.authoritative && SomeFails(policy, checks, statuses)
    ensures verdict == RemoteVerdict(policy, checks, statuses)
  {
    FailingIsNotPassing(policy, checks, statuses);
    if !policy.authoritative {
      return CiPending;
    }
    if policy.required == [] {
      verdict := JudgeAll(checks, statuses);
      return;
    }
    var states := Collect(policy.required, checks, statuses);
    var failed, pending := false, false;
    for i := 0 to |policy.required|
      invariant failed <==> exists j :: 0 <= j < i && Failing in states[policy.required[j]]
      invariant pending <==> exists j ::
          0 <= j < i && (states[policy.required[j]] == {} || Waiting in states[policy.required[j]])
    {
      var observations := states[policy.required[i]];
      failed := failed || Failing in observations;
      pending := pending || observations == {} || Waiting in observations;
    }
    JudgementIsAllPass(policy, checks, statuses, states);
    return if failed then CiFail else if pending then CiPending else CiPass;
  }

  lemma JudgementIsAllPass(policy: Policy, checks: seq<CheckRun>, statuses: seq<CommitStatus>, states: States)
    requires policy.required != []
    requires forall item :: item in policy.required ==>
               item in states && forall s :: s in states[item] <==> Observed(item, checks, statuses, s)
    ensures SomeFails(policy, checks, statuses) <==>
              exists j :: 0 <= j < |policy.required| && Failing in states[policy.required[j]]
    ensures AllPass(policy, checks, statuses) <==>
              forall j :: 0 <= j < |policy.required| ==>
                !(Failing in states[policy.required[j]])
                    && !(states[policy.required[j]] == {} || Waiting in states[policy.required[j]])
  {
    hide Observed;
    forall item | item in policy.required
      ensures PassesOnly(item, checks, statuses)
              <==> !(Failing in states[item]) && !(states[item] == {} || Waiting in states[item])
    {
      if states[item] != {} {
        var s :| s in states[item];
        assert Observed(item, checks, statuses, s);
      }
      assert Observed(item, checks, statuses, Failing) <==> Failing in states[item];
      assert Observed(item, checks, statuses, Waiting) <==> Waiting in states[item];
    }
  }

  /** The two loops that fill `required_states`. */
  method Collect(required: seq<RequiredCheck>, checks: seq<CheckRun>, statuses: seq<CommitStatus>)
      returns (states: States)
    ensures forall item :: item in required ==>
              item in states && forall s :: s in states[item] <==> Observed(item, checks, statuses, s)
  {
    states := map item | item in required :: {};
    for i := 0 to |checks|
      invariant states.Keys == set item | item in required
      invariant forall item, s :: item in required ==> (s in states[item] <==> Observed(item, checks[..i], [], s))
    {
      assert checks[..i + 1] == checks[..i] + [checks[i]];
      states := map item | item in states ::
        if RunMatches(item, checks[i]) then states[item] + {CheckRunState(checks[i])} else states[item];
    }
    assert checks[..|checks|] == checks;
    for i := 0 to |statuses|
      invariant states.Keys == set item | item in required
      invariant forall item, s :: item in required ==> (s in states[item] <==> Observed(item, checks, statuses[..i], s))
    {
      assert statuses[..i + 1] == statuses[..i] + [statuses[i]];
      states := map item | item in states ::
        if StatusMatches(item, statuses[i]) then states[item] + {CommitStatusState(statuses[i])} else states[item];
    }
    assert statuses[..|statuses|] == statuses;
  }

  /** Without required checks every observation counts. */
  method JudgeAll(checks: seq<CheckRun>, statuses: seq<CommitStatus>) returns (verdict: Verdict)
    ensures verdict == CiPass <==> AllPass(Policy(true, []), checks, statuses)
    ensures verdict == CiFail <==> AnyObserved(checks, statuses, Failing)
    ensures verdict != CiTimeout
  {
    var observations: set<State> := {};
    for i := 0 to |checks|
      invariant forall s :: s in observations <==> AnyObserved(checks[..i], [], s)
      invariant i > 0 ==> observations != {}
    {
      assert checks[..i + 1] == checks[..i] + [checks[i]];
      observations := observations + {CheckRunState(checks[i])};
    }
    assert checks[..|checks|] == checks;
    for i := 0 to |statuses|
      invariant forall s :: s in observations <==> AnyObserved(checks, statuses[..i], s)
      invariant |checks| + i > 0 ==> observations != {}
    {
      assert statuses[..i + 1] == statuses[..i] + [statuses[i]];
      observations := observations + {CommitStatusState(statuses[i])};
    }
    assert statuses[..|statuses|] == statuses;
    if Failing in observations {
      verdict := CiFail;
    } else if Waiting in observations || observations == {} {
      verdict := CiPending;
    } else {
      verdict := CiPass;
      assert forall s :: s in observations ==> s == Passing;
    }
    assert observations == {} ==> |checks| + |statuses| == 0;
    assert AnyObserved(checks, statuses, Waiting) <==> Waiting in observations;
  }
}
