/**
 The convergence part of the scope gate (`quality.py`, lines 147-215), with the verifier runs
 (`verification.py`, lines 137-191) and the compliance snapshots it compares (`compliance.py`,
 lines 19-43 and 76-91).
 */
module ConvergenceRatchet {
  import opened Wrappers

  type Id = string

  datatype Status = Pass | Fail | Partly | Unverified

  datatype Requirement = Requirement(id: Id, mandatory: bool)

  datatype Verification = Verification(id: Id, status: Status)

  /** `requirement_verifiers`: for each configured requirement, which of its rules are required. */
  type Verifiers = map<Id, seq<bool>>

  type Snapshot = map<Id, Status>

  function Rules(verifiers: Verifiers, id: Id): seq<bool> {
    if id in verifiers then verifiers[id] else []
  }

  function Ids(requirements: seq<Requirement>): set<Id> {
    set r | r in requirements :: r.id
  }

  function MandatoryIds(requirements: seq<Requirement>): set<Id> {
    set r | r in requirements && r.mandatory :: r.id
  }

  // ----- running the verifiers -----

  /** The status that gate outcomes give: no rules, a required failure, or neither. */
  predicate RequiredFailure(rules: seq<bool>, outcomes: seq<bool>) {
    exists i :: 0 <= i < |rules| && rules[i] && !(i < |outcomes| && outcomes[i])
  }

  function Verdict(rules: seq<bool>, outcomes: seq<bool>): Status {
    if rules == [] then Unverified else if RequiredFailure(rules, outcomes) then Fail else Pass
  }

  /** A requirement without configured rules is unverified; otherwise it passes exactly when every required rule has an
      outcome and that outcome is a success, and fails if not. Optional rules do not matter. */
  lemma VerdictIs(verifiers: Verifiers, id: Id, outcomes: seq<bool>)
    ensures var status := Verdict(Rules(verifiers, id), outcomes);
            && (status == Unverified <==> id !in verifiers || verifiers[id] == [])
            && (status == Pass <==>
                && id in verifiers && verifiers[id] != []
                && forall k :: 0 <= k < |verifiers[id]| && verifiers[id][k] ==> k < |outcomes| && outcomes[k])
            && (status == Fail <==>
                id in verifiers && exists k :: 0 <= k < |verifiers[id]| && verifiers[id][k]
                                               && !(k < |outcomes| && outcomes[k]))
  {
  }

  datatype UnknownRequirements = UnknownRequirements

  /** `run_requirement_verifiers`; `outcomes[i][k]` is what the k-th gate of the i-th requirement did. */
  method RunRequirementVerifiers(verifiers: Verifiers, requirements: seq<Requirement>, outcomes: seq<seq<bool>>)
      returns (r: Result<seq<Verification>, UnknownRequirements>)
    requires |outcomes| == |requirements|
    ensures r.Failure? <==> !(verifiers.Keys <= Ids(requirements))
    ensures r.Success? ==>
              && |r.value| == |requirements|
              && (forall i :: 0 <= i < |requirements| ==>
                    r.value[i] == Verification(requirements[i].id,
                        Verdict(Rules(verifiers, requirements[i].id), outcomes[i])))
              && VerifiedBy(verifiers, requirements, r.value)
  {
    if verifiers.Keys - Ids(requirements) != {} {
      return Failure(UnknownRequirements);
    }
    assert verifiers.Keys <= Ids(requirements) by {
      forall id | id in verifiers.Keys ensures id in Ids(requirements) {
        assert id !in verifiers.Keys - Ids(requirements);
      }
    }
    var results: seq<Verification> := [];
    for i := 0 to |requirements|
      invariant |results| == i
      invariant forall j :: 0 <= j < i ==>
                  results[j] == Verification(requirements[j].id,
                      Verdict(Rules(verifiers, requirements[j].id), outcomes[j]))
    {
      var rules := Rules(verifiers, requirements[i].id);
      if rules == [] {
        results := results + [Verification(requirements[i].id, Unverified)];
      } else {
        var failed := false;
        for k := 0 to |rules|
          invariant failed <==> exists j :: 0 <= j < k && rules[j] && !(j < |outcomes[i]| && outcomes[i][j])
        {
          if rules[k] && !(k < |outcomes[i]| && outcomes[i][k]) {
            failed := true;
          }
        }
        results := results + [Verification(requirements[i].id, if failed then Fail else Pass)];
      }
    }
    RunIsVerified(verifiers, requirements, outcomes, results);
    return Success(results);
  }

  lemma RunIsVerified(verifiers: Verifiers, requirements: seq<Requirement>, outcomes: seq<seq<bool>>,
      results: seq<Verification>)
    requires |outcomes| == |requirements| == |results|
    requires forall i :: 0 <= i < |requirements| ==>
               results[i] == Verification(requirements[i].id,
                   Verdict(Rules(verifiers, requirements[i].id), outcomes[i]))
    ensures VerifiedBy(verifiers, requirements, results)
  {
    hide RequiredFailure;
    forall i | 0 <= i < |results|
      ensures results[i].id == requirements[i].id && results[i].status != Partly
      ensures results[i].status == Unverified <==> Rules(verifiers, results[i].id) == []
    {
      assert results[i] == Verification(requirements[i].id, Verdict(Rules(verifiers, requirements[i].id), outcomes[i]));
    }
  }

  /** The shape of any verifier run: one result per requirement, unverified iff it has no rules. */
  ghost predicate VerifiedBy(verifiers: Verifiers, requirements: seq<Requirement>, results: seq<Verification>) {
    && |results| == |requirements|
    && forall i :: 0 <= i < |results| ==>
         && results[i].id == requirements[i].id
         && (results[i].status == Unverified <==> Rules(verifiers, results[i].id) == [])
         && results[i].status != Partly
  }

  // ----- snapshots -----

  /** `ComplianceEngine.initial`. */
  function InitialSnapshot(requirements: seq<Requirement>): Snapshot {
    map id | id in Ids(requirements) :: Unverified
  }

  function Recorded(snapshot: Snapshot, result: Verification): Snapshot {
    if result.id !in snapshot || result.status == Unverified then snapshot else snapshot[result.id := result.status]
  }

  function RecordedAll(snapshot: Snapshot, results: seq<Verification>): Snapshot {
    if results == [] then snapshot
    else Recorded(RecordedAll(snapshot, results[..|results| - 1]), results[|results| - 1])
  }

  /** `apply_verifications`. */
  method ApplyVerifications(snapshot: Snapshot, results: seq<Verification>) returns (updated: Snapshot)
    ensures updated == RecordedAll(snapshot, results)
  {
    updated := snapshot;
    for i := 0 to |results|
      invariant updated == RecordedAll(snapshot, results[..i])
    {
      assert results[..i + 1][..i] == results[..i];
      if results[i].id in updated && results[i].status != Unverified {
        updated := updated[results[i].id := results[i].status];
      }
    }
    assert results[..|results|] == results;
  }

  /** The dictionary from requirement id to status: the last result of an id wins. */
  function StatusOf(results: seq<Verification>, id: Id): Option<Status> {
    if results == [] then None
    else if results[|results| - 1].id == id then Some(results[|results| - 1].status)
    else StatusOf(results[..|results| - 1], id)
  }

  method StatusMap(results: seq<Verification>) returns (statuses: map<Id, Status>)
    ensures forall id :: (id in statuses <==> StatusOf(results, id).Some?)
                         && (id in statuses ==> StatusOf(results, id) == Some(statuses[id]))
  {
    statuses := map[];
    for i := 0 to |results|
      invariant forall id :: (id in statuses <==> StatusOf(results[..i], id).Some?)
                             && (id in statuses ==> StatusOf(results[..i], id) == Some(statuses[id]))
    {
      assert results[..i + 1][..i] == results[..i];
      statuses := statuses[results[i].id := results[i].status];
    }
    assert results[..|results|] == results;
  }

  /** Requirements of a snapshot that passed before and do not pass now. */
  function Regressed(before: Snapshot, after: Snapshot, requirements: seq<Requirement>): set<Id> {
    set id | id in MandatoryIds(requirements) && id in before && id in after && before[id] == Pass && after[id] != Pass
  }

  /** `compare_mandatory_regressions`. */
  method CompareMandatoryRegressions(before: Snapshot, after: Snapshot, requirements: seq<Requirement>)
      returns (regressions: nat)
    ensures regressions == |Regressed(before, after, requirements)|
  {
    hide MandatoryIds;
    regressions := 0;
    var todo := MandatoryIds(requirements);
    ghost var counted: set<Id> := {};
    while todo != {}
      invariant todo <= MandatoryIds(requirements) && counted !! todo
      invariant forall id :: id in counted <==> id in Regressed(before, after, requirements) && id !in todo
      invariant regressions == |counted|
      decreases todo
    {
      var id :| id in todo;
      todo := todo - {id};
      if id in before && id in after && before[id] == Pass && after[id] != Pass {
        regressions, counted := regressions + 1, counted + {id};
      }
    }
    assert counted == Regressed(before, after, requirements);
  }

  /** Only requirements that some contract entry marks mandatory can be lost. */
  lemma LossIs(before: Snapshot, after: Snapshot, requirements: seq<Requirement>, id: Id)
    ensures id in Regressed(before, after, requirements) <==>
              && (exists i :: 0 <= i < |requirements| && requirements[i] == Requirement(id, true))
              && id in before && before[id] == Pass && id in after && after[id] != Pass
  {
    if i :| 0 <= i < |requirements| && requirements[i] == Requirement(id, true) {
      assert requirements[i] in requirements;
    }
    if id in MandatoryIds(requirements) {
      var r :| r in requirements && r.mandatory && r.id == id;
      assert r == Requirement(id, true);
    }
  }

  // ----- the gate -----

  /** The mandatory requirements that a verifier run proves. */
  ghost function Proven(requirements: seq<Requirement>, results: seq<Verification>): set<Id> {
    set id | id in MandatoryIds(requirements) && StatusOf(results, id) == Some(Pass)
  }

  ghost predicate Targeted(verifiers: Verifiers, targets: seq<Id>, id: Id) {
    id in targets && Rules(verifiers, id) != []
  }

  ghost predicate Improved(verifiers: Verifiers, targets: seq<Id>, baseline: seq<Verification>,
      candidate: seq<Verification>, id: Id) {
    Targeted(verifiers, targets, id) && StatusOf(baseline, id) != Some(Pass) && StatusOf(candidate, id) == Some(Pass)
  }

  /** No proven mandatory requirement is lost, and some targeted one is gained if any can be. */
  ghost predicate Converges(verifiers: Verifiers, requirements: seq<Requirement>, targets: seq<Id>,
                            baseline: seq<Verification>, candidate: seq<Verification>)
  {
    || verifiers == map[]
    || (&& Proven(requirements, baseline) <= Proven(requirements, candidate)
        && ((exists id :: Targeted(verifiers, targets, id)) ==>
            exists id :: Improved(verifiers, targets, baseline, candidate, id)))
  }

  /** The acceptance of `_convergence_details`, on the results of the two verifier runs. */
  method ConvergenceOk(verifiers: Verifiers, requirements: seq<Requirement>, targets: seq<Id>,
                       baseline: seq<Verification>, candidate: seq<Verification>) returns (ok: bool)
    requires VerifiedBy(verifiers, requirements, baseline) && VerifiedBy(verifiers, requirements, candidate)
    ensures ok <==> Converges(verifiers, requirements, targets, baseline, candidate)
  {
    hide Proven, Regressed, RecordedAll, VerifiedBy, Targeted, Improved, InitialSnapshot;
    if verifiers == map[] {
      return true;
    }
    var before := ApplyVerifications(InitialSnapshot(requirements), baseline);
    var after := ApplyVerifications(InitialSnapshot(requirements), candidate);
    var regressions := CompareMandatoryRegressions(before, after, requirements);
    var progress := TargetProgress(verifiers, targets, baseline, candidate);
    RegressionsAreLosses(verifiers, requirements, baseline, candidate);
    NoLossIffSubset(Proven(requirements, baseline), Proven(requirements, candidate));
    ok := regressions == 0 && progress;
  }

  lemma NoLossIffSubset(a: set<Id>, b: set<Id>)
    ensures |a - b| == 0 <==> a <= b
  {
    if |a - b| == 0 {
      forall id | id in a ensures id in b {
        assert id !in a - b;
      }
    }
  }

  /** `target_progress_ok`. */
  method TargetProgress(verifiers: Verifiers, targets: seq<Id>, baseline: seq<Verification>,
      candidate: seq<Verification>) returns (ok: bool)
    ensures ok <==> ((exists id :: Targeted(verifiers, targets, id)) ==>
              exists id :: Improved(verifiers, targets, baseline, candidate, id))
  {
    hide Rules;
    var baselineStatus := StatusMap(baseline);
    var candidateStatus := StatusMap(candidate);
    var targeted, improved := false, false;
    for i := 0 to |targets|
      invariant targeted <==> exists j :: 0 <= j < i && Targeted(verifiers, targets, targets[j])
      invariant improved <==> exists j :: 0 <= j < i && Improved(verifiers, targets, baseline, candidate, targets[j])
    {
      if Rules(verifiers, targets[i]) != [] {
        targeted := true;
        var wasPass := targets[i] in baselineStatus && baselineStatus[targets[i]] == Pass;
        var isPass := targets[i] in candidateStatus && candidateStatus[targets[i]] == Pass;
        assert Improved(verifiers, targets, baseline, candidate, targets[i]) <==> !wasPass && isPass;
        if !wasPass && isPass {
          improved := true;
        }
      }
    }
    assert targeted <==> exists id :: Targeted(verifiers, targets, id) by {
      if id :| Targeted(verifiers, targets, id) {
        var j :| 0 <= j < |targets| && targets[j] == id;
      }
    }
    assert improved <==> exists id :: Improved(verifiers, targets, baseline, candidate, id) by {
      if id :| Improved(verifiers, targets, baseline, candidate, id) {
        var j :| 0 <= j < |targets| && targets[j] == id;
      }
    }
    ok := !targeted || improved;
  }

  /** After a verifier run the snapshot of a requirement says what the run's dictionary says. */
  lemma {:induction false} SnapshotIsStatus(snapshot: Snapshot, results: seq<Verification>, id: Id)
    requires id in snapshot
    requires forall i :: 0 <= i < |results| && results[i].id == id ==> results[i].status != Unverified
    ensures id in RecordedAll(snapshot, results)
    ensures RecordedAll(snapshot, results)[id] ==
              match StatusOf(results, id) case None => snapshot[id] case Some(status) => status
  {
    if results != [] {
      SnapshotIsStatus(snapshot, results[..|results| - 1], id);
    }
  }

  lemma {:induction false} UnverifiedStays(snapshot: Snapshot, results: seq<Verification>, id: Id)
    requires id in snapshot
    requires forall i :: 0 <= i < |results| && results[i].id == id ==> results[i].status == Unverified
    ensures id in RecordedAll(snapshot, results) && RecordedAll(snapshot, results)[id] == snapshot[id]
    ensures StatusOf(results, id).None? || StatusOf(results, id) == Some(Unverified)
  {
    if results != [] {
      UnverifiedStays(snapshot, results[..|results| - 1], id);
    }
  }

  lemma SnapshotPasses(verifiers: Verifiers, requirements: seq<Requirement>, results: seq<Verification>, id: Id)
    requires VerifiedBy(verifiers, requirements, results) && id in Ids(requirements)
    ensures var snapshot := RecordedAll(InitialSnapshot(requirements), results);
            id in snapshot && (snapshot[id] == Pass <==> StatusOf(results, id) == Some(Pass))
  {
    if Rules(verifiers, id) == [] {
      UnverifiedStays(InitialSnapshot(requirements), results, id);
    } else {
      SnapshotIsStatus(InitialSnapshot(requirements), results, id);
    }
  }

  lemma RegressionsAreLosses(verifiers: Verifiers, requirements: seq<Requirement>, baseline: seq<Verification>,
      candidate: seq<Verification>)
    requires VerifiedBy(verifiers, requirements, baseline) && VerifiedBy(verifiers, requirements, candidate)
    ensures var initial := InitialSnapshot(requirements);
            Regressed(RecordedAll(initial, baseline), RecordedAll(initial, candidate), requirements)
            == Proven(requirements, baseline) - Proven(requirements, candidate)
  {
    var initial := InitialSnapshot(requirements);
    var before, after := RecordedAll(initial, baseline), RecordedAll(initial, candidate);
    forall id | id in MandatoryIds(requirements)
      ensures id in before && (before[id] == Pass <==> StatusOf(baseline, id) == Some(Pass))
      ensures id in after && (after[id] == Pass <==> StatusOf(candidate, id) == Some(Pass))
    {
      assert id in Ids(requirements);
      SnapshotPasses(verifiers, requirements, baseline, id);
      SnapshotPasses(verifiers, requirements, candidate, id);
    }
  }

  // ----- the measure along a chain of accepted candidates -----

  /** The requirements that the gate can ever prove. */
  ghost function Provable(verifiers: Verifiers, requirements: seq<Requirement>): set<Id> {
    set id | id in MandatoryIds(requirements) && Rules(verifiers, id) != []
  }

  lemma {:induction false} StatusHasResult(results: seq<Verification>, id: Id)
    requires StatusOf(results, id).Some?
    ensures exists i :: 0 <= i < |results| && results[i] == Verification(id, StatusOf(results, id).value)
  {
    var last := |results| - 1;
    if results[last].id != id {
      StatusHasResult(results[..last], id);
      var i :| 0 <= i < last && results[..last][i] == Verification(id, StatusOf(results, id).value);
      assert results[i] == results[..last][i];
    }
  }

  lemma ProvenIsProvable(verifiers: Verifiers, requirements: seq<Requirement>, results: seq<Verification>)
    requires VerifiedBy(verifiers, requirements, results)
    ensures Proven(requirements, results) <= Provable(verifiers, requirements)
  {
    forall id | id in Proven(requirements, results) ensures Rules(verifiers, id) != [] {
      StatusHasResult(results, id);
    }
  }

  /** Accepted candidates: each one is compared with the results of the one merged before it. */
  ghost predicate AcceptedChain(verifiers: Verifiers, requirements: seq<Requirement>, runs: seq<seq<Verification>>,
      targets: seq<seq<Id>>) {
    && |runs| == |targets| + 1
    && (forall i :: 0 <= i < |runs| ==> VerifiedBy(verifiers, requirements, runs[i]))
    && (forall i :: 0 <= i < |targets| ==> Converges(verifiers, requirements, targets[i], runs[i], runs[i + 1]))
  }

  /** The step targets only mandatory requirements among the configured ones, and at least one of them. */
  ghost predicate MeasuredStep(verifiers: Verifiers, requirements: seq<Requirement>, targets: seq<Id>) {
    && (exists id :: Targeted(verifiers, targets, id))
    && (forall id :: Targeted(verifiers, targets, id) ==> id in MandatoryIds(requirements))
  }

  ghost function MeasuredSteps(verifiers: Verifiers, requirements: seq<Requirement>, targets: seq<seq<Id>>): nat {
    if targets == [] then 0
    else
      MeasuredSteps(verifiers, requirements, targets[..|targets| - 1])
      + (if MeasuredStep(verifiers, requirements, targets[|targets| - 1]) then 1 else 0)
  }

  /** One accepted step keeps every proven requirement and, if it is measured, proves a new one. */
  lemma StepRatchets(verifiers: Verifiers, requirements: seq<Requirement>, targets: seq<Id>,
                     baseline: seq<Verification>, candidate: seq<Verification>)
    requires verifiers != map[] && Converges(verifiers, requirements, targets, baseline, candidate)
    ensures Proven(requirements, baseline) <= Proven(requirements, candidate)
    ensures MeasuredStep(verifiers, requirements, targets) ==>
              Proven(requirements, baseline) < Proven(requirements, candidate)
  {
    if MeasuredStep(verifiers, requirements, targets) {
      var id :| Improved(verifiers, targets, baseline, candidate, id);
      assert id in Proven(requirements, candidate) && id !in Proven(requirements, baseline);
    }
  }

  /** Along any chain of accepted candidates the proven set only grows, and the measured steps are at
      most as many as there were provable requirements still unproven at the start. */
  lemma {:induction false} ChainTerminates(verifiers: Verifiers, requirements: seq<Requirement>,
      runs: seq<seq<Verification>>, targets: seq<seq<Id>>)
    requires verifiers != map[] && AcceptedChain(verifiers, requirements, runs, targets)
    ensures Proven(requirements, runs[0]) <= Proven(requirements, runs[|runs| - 1]) <= Provable(verifiers, requirements)
    ensures |Proven(requirements, runs[0])| + MeasuredSteps(verifiers, requirements, targets)
            <= |Proven(requirements, runs[|runs| - 1])| <= |Provable(verifiers, requirements)|
    decreases |targets|
  {
    hide Converges, VerifiedBy, Proven, Provable;
    var n := |targets|;
    ProvenIsProvable(verifiers, requirements, runs[n]);
    Subset(Proven(requirements, runs[n]), Provable(verifiers, requirements));
    if n > 0 {
      ChainTerminates(verifiers, requirements, runs[..n], targets[..n - 1]);
      StepRatchets(verifiers, requirements, targets[n - 1], runs[n - 1], runs[n]);
      Subset(Proven(requirements, runs[n - 1]), Proven(requirements, runs[n]));
    }
  }

  lemma {:induction false} Subset(a: set<Id>, b: set<Id>)
    requires a <= b
    ensures |a| <= |b| && (a < b ==> |a| < |b|)
  {
    if a != {} {
      var x :| x in a;
      Subset(a - {x}, b - {x});
    }
  }
}
