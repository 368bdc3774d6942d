/**
 One agent invocation over its provider profiles (`opencode.py`, lines 245-351).
 */
module Invocations {
  import opened Wrappers

  /** How one attempt ends. `OverContext` is the exit code 78 of a prompt that exceeds its budget,
      `BudgetError` an exhausted or damaged run budget, which is raised to the caller. */
  datatype Outcome = Succeeded | OverContext | ProviderError | ProcessFailure | Raised | BudgetError

  datatype Attempt = Attempt(profile: nat, retry: nat, outcome: Outcome)

  datatype FailureClass = Transport | Process

  datatype Answer = Answer(attempts: seq<Attempt>, failure: Option<FailureClass>)

  predicate IsTransport(outcome: Outcome) {
    outcome == ProviderError || outcome == Raised
  }

  /** How often a profile is tried: the primary one may be retried, a fallback is tried once. */
  function Repeats(profile: nat, retries: nat): nat {
    if profile == 0 then 1 + retries else 1
  }

  /** `b` is the attempt that follows `a`: a retry of the profile, or the first try of the next one, which
      needs the profile used up or the prompt too long for it. */
  predicate Follows(a: Attempt, b: Attempt, retries: nat) {
    || (b.profile == a.profile && b.retry == a.retry + 1 && a.outcome != OverContext)
    || (b.profile == a.profile + 1 && b.retry == 0
        && (a.outcome == OverContext || a.retry + 1 == Repeats(a.profile, retries)))
  }

  /** The attempts are the schedule's, in order, each with the outcome it met, and only the last may
      have succeeded or raised. */
  ghost predicate OnSchedule(attempts: seq<Attempt>, profiles: nat, retries: nat, outcomes: nat -> Outcome) {
    && (attempts != [] ==> attempts[0].profile == 0 && attempts[0].retry == 0)
    && (forall i :: 0 <= i < |attempts| ==>
          attempts[i].profile < profiles && attempts[i].retry < Repeats(attempts[i].profile, retries)
              && attempts[i].outcome == outcomes(i))
    && (forall i :: 0 <= i < |attempts| - 1 ==>
        Follows(attempts[i], attempts[i + 1], retries) && attempts[i].outcome != Succeeded
                                                 && attempts[i].outcome != BudgetError)
  }

  /** Nothing is left to try. */
  ghost predicate UsedUp(attempts: seq<Attempt>, profiles: nat, retries: nat) {
    && attempts != []
    && var last := attempts[|attempts| - 1];
       last.profile + 1 == profiles && (last.outcome == OverContext || last.retry + 1 == Repeats(last.profile, retries))
  }

  /** `_invoke_with_resilience`: `profiles` counts the primary profile and its fallbacks. */
  method InvokeWithResilience(profiles: nat, retries: nat, outcomes: nat -> Outcome)
      returns (r: Result<Answer, seq<Attempt>>)
    requires profiles >= 1
    ensures var attempts := if r.Success? then r.value.attempts else r.error;
            && OnSchedule(attempts, profiles, retries, outcomes) && attempts != []
            && (r.Failure? <==> attempts[|attempts| - 1].outcome == BudgetError)
            && (r.Success? && attempts[|attempts| - 1].outcome != Succeeded ==> UsedUp(attempts, profiles, retries))
    ensures r.Success? ==>
              (r.value.failure.None? <==> r.value.attempts[|r.value.attempts| - 1].outcome == Succeeded)
    ensures r.Success? && r.value.failure.Some? ==>
              (r.value.failure == Some(Transport) <==>
                 forall a :: a in r.value.attempts ==> a.outcome == ProviderError || a.outcome == Raised)
  {
    hide OnSchedule, UsedUp;
    var attempts: seq<Attempt> := [];
    NothingTried(profiles, retries, outcomes);
    for profile := 0 to profiles
      invariant OnSchedule(attempts, profiles, retries, outcomes)
      invariant profile == 0 <==> attempts == []
      invariant attempts != [] ==> UsedUp(attempts, profile, retries) && GoesOn(attempts[|attempts| - 1].outcome)
    {
      ghost var before := attempts;
      attempts := TryProfile(profile, profiles, retries, outcomes, attempts);
      if attempts[|attempts| - 1].outcome == BudgetError {
        return Failure(attempts);
      }
      if attempts[|attempts| - 1].outcome == Succeeded {
        return Success(Answer(attempts, None));
      }
    }
    var transport := forall a :: a in attempts ==> IsTransport(a.outcome);
    return Success(Answer(attempts, Some(if transport then Transport else Process)));
  }

  predicate GoesOn(outcome: Outcome) {
    outcome != Succeeded && outcome != BudgetError
  }

  lemma NothingTried(profiles: nat, retries: nat, outcomes: nat -> Outcome)
    ensures OnSchedule([], profiles, retries, outcomes)
  {
  }

  /** The inner loop: the tries of one profile. */
  method TryProfile(profile: nat, profiles: nat, retries: nat, outcomes: nat -> Outcome, before: seq<Attempt>)
      returns (attempts: seq<Attempt>)
    requires profile < profiles && OnSchedule(before, profiles, retries, outcomes)
    requires (profile == 0 <==> before == [])
               && (before != [] ==> UsedUp(before, profile, retries) && GoesOn(before[|before| - 1].outcome))
    ensures attempts != [] && OnSchedule(attempts, profiles, retries, outcomes)
    ensures GoesOn(attempts[|attempts| - 1].outcome) ==> UsedUp(attempts, profile + 1, retries)
  {
    hide OnSchedule, Follows;
    var repeats := Repeats(profile, retries);
    attempts := before;
    var retry := 0;
    while retry < repeats
      invariant retry <= repeats && OnSchedule(attempts, profiles, retries, outcomes)
      invariant retry == 0 ==> attempts == before
      invariant attempts != [] ==> GoesOn(attempts[|attempts| - 1].outcome)
      invariant retry > 0 ==>
                  && attempts != [] && attempts[|attempts| - 1].profile == profile
                  && attempts[|attempts| - 1].retry == retry - 1 && attempts[|attempts| - 1].outcome != OverContext
    {
      var outcome := outcomes(|attempts|);
      var next := Attempt(profile, retry, outcome);
      if attempts != [] {
        NextFollows(attempts[|attempts| - 1], next, retries);
      }
      OneMoreTry(attempts, next, profiles, retries, outcomes);
      attempts := attempts + [next];
      if !GoesOn(outcome) || outcome == OverContext {
        return;
      }
      retry := retry + 1;
    }
  }

  lemma NextFollows(a: Attempt, b: Attempt, retries: nat)
    requires || (b.profile == a.profile && b.retry == a.retry + 1 && a.outcome != OverContext)
             || (b.profile == a.profile + 1 && b.retry == 0
                 && (a.outcome == OverContext || a.retry + 1 == Repeats(a.profile, retries)))
    ensures Follows(a, b, retries)
  {
  }

  lemma OneMoreTry(attempts: seq<Attempt>, next: Attempt, profiles: nat, retries: nat, outcomes: nat -> Outcome)
    requires OnSchedule(attempts, profiles, retries, outcomes)
    requires next.profile < profiles && next.retry < Repeats(next.profile, retries)
               && next.outcome == outcomes(|attempts|)
    requires if attempts == [] then next.profile == 0 && next.retry == 0
             else Follows(attempts[|attempts| - 1], next, retries) && GoesOn(attempts[|attempts| - 1].outcome)
    ensures OnSchedule(attempts + [next], profiles, retries, outcomes)
  {
    hide Follows, Repeats;
  }

  /** What a schedule looks like: the primary profile is retried up to `retries` times and a fallback never; a profile
      is left when its tries are used up or its prompt is too long, and the next one starts with its first try. */
  lemma ScheduleIs(attempts: seq<Attempt>, profiles: nat, retries: nat, outcomes: nat -> Outcome, i: nat)
    requires OnSchedule(attempts, profiles, retries, outcomes) && i < |attempts|
    ensures attempts[i].retry <= if attempts[i].profile == 0 then retries else 0
    ensures i == 0 ==> attempts[i].profile == 0 && attempts[i].retry == 0
    ensures i + 1 < |attempts| ==>
              var a, b := attempts[i], attempts[i + 1];
              var last := if a.profile == 0 then retries else 0;
              && (b.profile == a.profile <==> a.outcome != OverContext && a.retry < last)
              && (b.profile == a.profile ==> b.retry == a.retry + 1)
              && (b.profile != a.profile ==> b.profile == a.profile + 1 && b.retry == 0)
    ensures i + 1 == |attempts| && UsedUp(attempts, profiles, retries) ==>
              && attempts[i].profile == profiles - 1
              && (attempts[i].outcome == OverContext
                  || attempts[i].retry == if attempts[i].profile == 0 then retries else 0)
  {
    if i + 1 < |attempts| {
      assert Follows(attempts[i], attempts[i + 1], retries);
      assert attempts[i + 1].retry < Repeats(attempts[i + 1].profile, retries);
    }
  }

  /** The place of an attempt in the full schedule. */
  function Slot(a: Attempt, retries: nat): nat {
    if a.profile == 0 then a.retry else a.profile + retries
  }

  lemma {:induction false} SlotsGrow(attempts: seq<Attempt>, profiles: nat, retries: nat, outcomes: nat -> Outcome,
      i: nat, j: nat)
    requires OnSchedule(attempts, profiles, retries, outcomes) && i < j < |attempts|
    ensures Slot(attempts[i], retries) < Slot(attempts[j], retries)
    decreases j
  {
    assert Follows(attempts[j - 1], attempts[j], retries);
    if i < j - 1 {
      SlotsGrow(attempts, profiles, retries, outcomes, i, j - 1);
    }
  }

  lemma {:induction false} SlotCountsAttempts(attempts: seq<Attempt>, profiles: nat, retries: nat,
      outcomes: nat -> Outcome, i: nat)
    requires OnSchedule(attempts, profiles, retries, outcomes) && i < |attempts|
    ensures i <= Slot(attempts[i], retries)
  {
    if i > 0 {
      SlotCountsAttempts(attempts, profiles, retries, outcomes, i - 1);
      SlotsGrow(attempts, profiles, retries, outcomes, i - 1, i);
    }
  }

  /** An invocation makes at most one attempt per scheduled try, so it reserves at most that much of the
      run's budget; and a profile whose prompt was too long is not tried again. */
  lemma AttemptsAreBounded(attempts: seq<Attempt>, profiles: nat, retries: nat, outcomes: nat -> Outcome)
    requires profiles >= 1 && OnSchedule(attempts, profiles, retries, outcomes)
    ensures |attempts| <= profiles + retries
    ensures forall i, j :: 0 <= i < j < |attempts| && attempts[i].outcome == OverContext ==>
              attempts[j].profile > attempts[i].profile
  {
    if attempts != [] {
      SlotCountsAttempts(attempts, profiles, retries, outcomes, |attempts| - 1);
    }
    forall i, j | 0 <= i < j < |attempts| && attempts[i].outcome == OverContext
        ensures attempts[j].profile > attempts[i].profile {
      OverContextMovesOn(attempts, profiles, retries, outcomes, i, j);
    }
  }

  lemma {:induction false} OverContextMovesOn(attempts: seq<Attempt>, profiles: nat, retries: nat,
      outcomes: nat -> Outcome, i: nat, j: nat)
    requires OnSchedule(attempts, profiles, retries, outcomes) && i < j < |attempts|
               && attempts[i].outcome == OverContext
    ensures attempts[j].profile > attempts[i].profile
    decreases j
  {
    assert Follows(attempts[j - 1], attempts[j], retries);
    if i < j - 1 {
      OverContextMovesOn(attempts, profiles, retries, outcomes, i, j - 1);
    }
  }
}
