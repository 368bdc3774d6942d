/**
 How the lanes of a review are put together and held to the candidate's scope (`opencode.py`, lines
 124-184, and `review_scope.py`, lines 33-163).
 */
module ReviewScope {
  import opened Wrappers

  type Id = string
  type Role = string

  datatype Status = Passing | Failing | Partial | Unverified | Blocked

  datatype Severity = Blocker | Major | Minor | Note

  datatype Verdict = Pass | Reject

  datatype Finding = Finding(severity: Severity, requirement: Id, reviewer: Role, reason: string)

  datatype Review = Review(verdict: Verdict, findings: seq<Finding>, reviewers: map<Role, Verdict>,
      confidence: Option<real>)

  datatype Requirement = Requirement(id: Id, status: Status)

  /** An empty string stands for a field that is absent. */
  const NOTHING := ""

  // ----- lanes -----

  datatype LaneOutput = Crashed(detail: string) | Unreadable(detail: string) | Answered(review: Review)

  function FailedReview(role: Role, reason: string): Review {
    Review(Reject, [Finding(Major, NOTHING, role, reason)], map[role := Reject], None)
  }

  function Attributed(role: Role, finding: Finding): Finding {
    if finding.reviewer == NOTHING then finding.(reviewer := role) else finding
  }

  /** `_normalize_review`: a lane that gives no readable answer rejects. */
  function NormalizeReview(role: Role, output: LaneOutput): Review {
    match output
    case Crashed(detail) => FailedReview(role, detail)
    case Unreadable(detail) => FailedReview(role, detail)
    case Answered(review) =>
      review.(findings := seq(|review.findings|,
          i requires 0 <= i < |review.findings| => Attributed(role, review.findings[i])),
              reviewers := map[role := review.verdict])
  }

  /** A lane that answers keeps its verdict, its confidence and its findings, and signs those that nobody signed; one
      that crashes or cannot be read rejects, with one finding that says why and cites no requirement. */
  lemma NormalizedLane(role: Role, output: LaneOutput)
    ensures var lane := NormalizeReview(role, output);
            && lane.reviewers == map[role := lane.verdict]
            && match output
               case Answered(review) =>
                 && lane.verdict == review.verdict && lane.confidence == review.confidence
                 && |lane.findings| == |review.findings|
                 && forall i :: 0 <= i < |review.findings| ==>
                      var f := review.findings[i];
                      lane.findings[i] == if f.reviewer == "" then Finding(f.severity, f.requirement, role, f.reason)
                          else f
               case Crashed(detail) => lane == Review(Reject, [Finding(Major, "", role, detail)], lane.reviewers, None)
               case Unreadable(detail) => lane == Review(Reject, [Finding(Major, "", role, detail)], lane.reviewers,
                   None)
  {
  }

  function AllFindings(roles: seq<Role>, results: map<Role, Review>): (findings: seq<Finding>)
    requires forall role :: role in roles ==> role in results
    ensures forall f :: f in findings <==> exists role :: role in roles && f in results[role].findings
  {
    if roles == [] then [] else AllFindings(roles[..|roles| - 1], results) + results[roles[|roles| - 1]].findings
  }

  /** `_aggregate_reviews`. */
  function AggregateReviews(roles: seq<Role>, results: map<Role, Review>): (review: Review)
    requires forall role :: role in roles ==> role in results
    ensures review.verdict == Reject <==> exists role :: role in roles && results[role].verdict == Reject
    ensures forall role :: role in review.reviewers <==> role in roles
    ensures forall role :: role in roles ==> review.reviewers[role] == results[role].verdict
  {
    Review(if exists role :: role in roles && results[role].verdict == Reject then Reject else Pass,
           AllFindings(roles, results),
           map role | role in roles :: results[role].verdict,
           LeastConfidence(roles, results))
  }

  function LeastConfidence(roles: seq<Role>, results: map<Role, Review>): Option<real>
    requires forall role :: role in roles ==> role in results
  {
    if roles == [] then None
    else
      var least, last := LeastConfidence(roles[..|roles| - 1], results), results[roles[|roles| - 1]].confidence;
      if least.None? || (last.Some? && last.value < least.value) then last else least
  }

  /** The aggregate is exactly as confident as its least confident lane, among those that say how confident they are. */
  lemma {:induction false} LeastLaneDecides(roles: seq<Role>, results: map<Role, Review>)
    requires forall role :: role in roles ==> role in results
    ensures var least := AggregateReviews(roles, results).confidence;
            && (least.Some? <==> exists role :: role in roles && results[role].confidence.Some?)
            && (least.Some? ==> exists role :: role in roles && results[role].confidence == least)
            && forall role :: role in roles && results[role].confidence.Some? ==>
                least.value <= results[role].confidence.value
  {
    if roles != [] {
      var init, last := roles[..|roles| - 1], roles[|roles| - 1];
      assert roles == init + [last];
      LeastLaneDecides(init, results);
    }
  }

  /** The findings signed with a lane's name, in order. */
  function SignedBy(findings: seq<Finding>, role: Role): seq<Finding> {
    if findings == [] then []
    else
      var last := findings[|findings| - 1];
      SignedBy(findings[..|findings| - 1], role) + if last.reviewer == role then [last] else []
  }

  lemma {:induction false} SignedByConcat(a: seq<Finding>, b: seq<Finding>, role: Role)
    ensures SignedBy(a + b, role) == SignedBy(a, role) + SignedBy(b, role)
  {
    if b == [] {
      assert a + b == a;
    } else {
      assert (a + b)[..|a + b| - 1] == a + b[..|b| - 1];
      SignedByConcat(a, b[..|b| - 1], role);
    }
  }

  lemma {:induction false} SignedAlike(findings: seq<Finding>, signer: Role, role: Role)
    requires forall f :: f in findings ==> f.reviewer == signer
    ensures SignedBy(findings, role) == if role == signer then findings else []
  {
    if findings != [] {
      var init := findings[..|findings| - 1];
      assert findings == init + [findings[|findings| - 1]];
      SignedAlike(init, signer, role);
    }
  }

  /** Aggregation loses, adds and reorders nothing: where lanes sign their own findings, the aggregate can be split
      into the lanes again, each with its findings in order and its verdict. */
  lemma {:induction false} AggregateSplits(roles: seq<Role>, results: map<Role, Review>, role: Role)
    requires forall r :: r in roles ==> r in results
    requires forall i, j :: 0 <= i < j < |roles| ==> roles[i] != roles[j]
    requires forall r, f :: r in roles && f in results[r].findings ==> f.reviewer == r
    ensures var review := AggregateReviews(roles, results);
            && SignedBy(review.findings, role) == (if role in roles then results[role].findings else [])
            && (role in roles ==> role in review.reviewers && review.reviewers[role] == results[role].verdict)
  {
    if roles != [] {
      var init, last := roles[..|roles| - 1], roles[|roles| - 1];
      assert roles == init + [last];
      AggregateSplits(init, results, role);
      SignedByConcat(AllFindings(init, results), results[last].findings, role);
      SignedAlike(results[last].findings, last, role);
      assert last !in init;
    }
  }

  /** Whoever signs them, the findings of each lane stand together in the order of the lanes. */
  lemma {:induction false} LanesStandTogether(roles: seq<Role>, results: map<Role, Review>, i: nat)
    requires (forall r :: r in roles ==> r in results) && i < |roles|
    ensures var all, own := AllFindings(roles, results), results[roles[i]].findings;
            var start := |AllFindings(roles[..i], results)|;
            start + |own| <= |all| && all[start..start + |own|] == own
    decreases |roles|
  {
    var init := roles[..|roles| - 1];
    if i < |init| {
      assert init[..i] == roles[..i] && init[i] == roles[i];
      LanesStandTogether(init, results, i);
    } else {
      assert roles[..i] == init;
    }
  }

  // ----- the blocking scope -----

  predicate IsSatisfied(status: Status) {
    status == Passing || status == Partial
  }

  /** The status the contract gives an id: that of the last requirement that carries it. */
  function ContractStatus(requirements: seq<Requirement>, id: Id): (status: Option<Status>)
    ensures status.Some? <==> exists r :: r in requirements && r.id == id
  {
    if requirements == [] then None
    else
      var last := requirements[|requirements| - 1];
      if last.id == id then Some(last.status) else ContractStatus(requirements[..|requirements| - 1], id)
  }

  /** The status a requirement has for scoping: the snapshot's, if it has one, else the contract's. */
  function StatusOf(requirements: seq<Requirement>, compliance: map<Id, Status>, id: Id): Option<Status> {
    match ContractStatus(requirements, id)
    case None => None
    case Some(status) => Some(if id in compliance then compliance[id] else status)
  }

  /** Targets, and requirements that are satisfied already. */
  function BlockingIds(targets: set<Id>, requirements: seq<Requirement>, compliance: map<Id,
      Status>): (blocking: set<Id>)
    ensures forall id :: id in blocking <==>
              id in targets || exists status ::
                StatusOf(requirements, compliance, id) == Some(status) && IsSatisfied(status)
  {
    targets + set r | r in requirements
                      && StatusOf(requirements, compliance, r.id).Some?
                      && IsSatisfied(StatusOf(requirements, compliance, r.id).value) :: r.id
  }

  /** Of several requirements with one id the last one counts. */
  lemma {:induction false} LastRequirementCounts(requirements: seq<Requirement>, i: nat)
    requires i < |requirements|
    requires forall j :: i < j < |requirements| ==> requirements[j].id != requirements[i].id
    ensures ContractStatus(requirements, requirements[i].id) == Some(requirements[i].status)
  {
    if i < |requirements| - 1 {
      LastRequirementCounts(requirements[..|requirements| - 1], i);
    }
  }

  /** A requirement blocks exactly when it is a target or is satisfied already: passing or partial in the snapshot, or
      in the contract if the snapshot does not know it. An id that no requirement carries blocks only as a target. */
  lemma BlocksIff(targets: set<Id>, requirements: seq<Requirement>, compliance: map<Id, Status>, i: nat, other: Id)
    requires i < |requirements|
    requires forall j :: i < j < |requirements| ==> requirements[j].id != requirements[i].id
    requires forall j :: 0 <= j < |requirements| ==> requirements[j].id != other
    ensures var r := requirements[i];
            var status := if r.id in compliance then compliance[r.id] else r.status;
            r.id in BlockingIds(targets, requirements, compliance) <==>
              r.id in targets || status == Passing || status == Partial
    ensures other in BlockingIds(targets, requirements, compliance) <==> other in targets
  {
    hide ContractStatus, BlockingIds;
    LastRequirementCounts(requirements, i);
  }

  /** `requirement_statuses`. */
  method RequirementStatuses(requirements: seq<Requirement>, compliance: map<Id, Status>)
      returns (statuses: map<Id, Status>)
    ensures forall id :: StatusOf(requirements, compliance, id) == if id in statuses then Some(statuses[id]) else None
  {
    var contract: map<Id, Status> := map[];
    for i := 0 to |requirements|
      invariant forall id :: ContractStatus(requirements[..i], id) == if id in contract then Some(contract[id])
          else None
    {
      assert requirements[..i + 1][..i] == requirements[..i] && requirements[..i + 1][i] == requirements[i];
      contract := contract[requirements[i].id := requirements[i].status];
    }
    assert requirements[..|requirements|] == requirements;
    statuses := map id | id in contract :: if id in compliance then compliance[id] else contract[id];
  }

  /** `blocking_requirement_ids`. */
  method BlockingRequirementIds(targets: set<Id>, requirements: seq<Requirement>, compliance: map<Id, Status>)
      returns (blocking: set<Id>)
    ensures blocking == BlockingIds(targets, requirements, compliance)
  {
    hide StatusOf;
    var statuses := RequirementStatuses(requirements, compliance);
    blocking := targets + set id | id in statuses && IsSatisfied(statuses[id]);
  }

  // ----- scoping, stated without its loops -----

  /** A blocker that cites a known requirement outside the scope. */
  predicate Demotable(f: Finding, known: set<Id>, blocking: set<Id>) {
    f.severity == Blocker && f.requirement != NOTHING && f.requirement in known && f.requirement !in blocking
  }

  /** A blocker attributed to the role that stays one. */
  predicate HasSurvivor(findings: seq<Finding>, role: Role, known: set<Id>, blocking: set<Id>) {
    exists f :: f in findings && f.severity == Blocker && !Demotable(f, known, blocking) && f.reviewer == role
  }

  predicate HasDemotion(findings: seq<Finding>, role: Role, known: set<Id>, blocking: set<Id>) {
    exists f :: f in findings && Demotable(f, known, blocking) && f.reviewer == role
  }

  function Scoped(f: Finding, known: set<Id>, blocking: set<Id>): Finding {
    if Demotable(f, known, blocking) then f.(severity := Note) else f
  }

  function ScopedFindings(findings: seq<Finding>, known: set<Id>, blocking: set<Id>): seq<Finding> {
    seq(|findings|, i requires 0 <= i < |findings| => Scoped(findings[i], known, blocking))
  }

  function LaneVerdict(review: Review, role: Role, known: set<Id>, blocking: set<Id>): Verdict
    requires role in review.reviewers
  {
    if review.reviewers[role] == Pass
       || (HasDemotion(review.findings, role, known, blocking) && !HasSurvivor(review.findings, role, known, blocking))
    then Pass else Reject
  }

  predicate AnyLaneRejects(review: Review, known: set<Id>, blocking: set<Id>) {
    exists role :: role in review.reviewers && LaneVerdict(review, role, known, blocking) == Reject
  }

  predicate HasBlocker(findings: seq<Finding>) {
    exists f :: f in findings && f.severity == Blocker
  }

  predicate AnyDemotable(findings: seq<Finding>, known: set<Id>, blocking: set<Id>) {
    exists f :: f in findings && Demotable(f, known, blocking)
  }

  function ScopedVerdict(review: Review, known: set<Id>, blocking: set<Id>): Verdict {
    if review.reviewers != map[] then
      if AnyLaneRejects(review, known, blocking) then Reject else Pass
    else if review.verdict == Reject && AnyDemotable(review.findings, known, blocking)
            && !HasBlocker(ScopedFindings(review.findings, known, blocking)) then Pass
    else review.verdict
  }

  function Scope(review: Review, known: set<Id>, blocking: set<Id>): Review {
    Review(ScopedVerdict(review, known, blocking), ScopedFindings(review.findings, known, blocking),
           map role | role in review.reviewers :: LaneVerdict(review, role, known, blocking), review.confidence)
  }

  // ----- scoping, with its loops -----

  function KnownIds(requirements: seq<Requirement>): set<Id> {
    set r | r in requirements :: r.id
  }

  datatype Demotion = Demotion(reviewer: Role, requirement: Id, reason: string)

  method ScopeReview(review: Review, targets: set<Id>, requirements: seq<Requirement>, compliance: map<Id, Status>)
    returns (scoped: Review, demotions: seq<Demotion>)
    ensures scoped == Scope(review, KnownIds(requirements), BlockingIds(targets, requirements, compliance))
    ensures forall d :: d in demotions <==>
              exists f :: f in review.findings && Demotable(f, KnownIds(requirements),
                  BlockingIds(targets, requirements, compliance))
                          && d == Demotion(f.reviewer, f.requirement, f.reason)
  {
    hide BlockingIds, KnownIds;
    var known := KnownIds(requirements);
    var scope := BlockingRequirementIds(targets, requirements, compliance);
    var findings;
    demotions, findings := DemoteAll(review.findings, known, scope);
    var verdicts := ScopeLanes(review, known, scope, findings, demotions);
    var verdict;
    if review.reviewers != map[] {
      verdict := if exists role :: role in verdicts && verdicts[role] == Reject then Reject else Pass;
    } else {
      DemotionsShow(review.findings, known, scope, demotions);
      verdict := if review.verdict == Reject && !HasBlocker(findings) && demotions != [] then Pass else review.verdict;
    }
    scoped := Review(verdict, findings, verdicts, review.confidence);
    assert forall role :: role in verdicts ==> verdicts[role] == LaneVerdict(review, role, known, scope);
    if demotions == [] && verdict == review.verdict && verdicts == review.reviewers {
      DemotionsShow(review.findings, known, scope, demotions);
      assert findings == review.findings;
      scoped := review;
    }
  }

  lemma DemotionsShow(findings: seq<Finding>, known: set<Id>, blocking: set<Id>, demotions: seq<Demotion>)
    requires forall d :: d in demotions <==>
               exists f :: f in findings && Demotable(f, known, blocking)
                   && d == Demotion(f.reviewer, f.requirement, f.reason)
    ensures demotions == [] <==> !AnyDemotable(findings, known, blocking)
  {
    if demotions != [] {
      assert demotions[0] in demotions;
    }
    if AnyDemotable(findings, known, blocking) {
      var f :| f in findings && Demotable(f, known, blocking);
      assert Demotion(f.reviewer, f.requirement, f.reason) in demotions;
    }
  }

  method DemoteAll(all: seq<Finding>, known: set<Id>, blocking: set<Id>)
      returns (demotions: seq<Demotion>, findings: seq<Finding>)
    ensures findings == ScopedFindings(all, known, blocking)
    ensures forall d :: d in demotions <==>
              exists f :: f in all && Demotable(f, known, blocking)
                  && d == Demotion(f.reviewer, f.requirement, f.reason)
  {
    hide Demotable;
    demotions, findings := [], [];
    for i := 0 to |all|
      invariant findings == ScopedFindings(all[..i], known, blocking)
      invariant forall d :: d in demotions <==>
                  exists f :: f in all[..i] && Demotable(f, known, blocking)
                      && d == Demotion(f.reviewer, f.requirement, f.reason)
    {
      var f := all[i];
      assert all[..i + 1] == all[..i] + [f];
      if Demotable(f, known, blocking) {
        demotions := demotions + [Demotion(f.reviewer, f.requirement, f.reason)];
        findings := findings + [f.(severity := Note)];
      } else {
        findings := findings + [f];
      }
    }
    assert all[..|all|] == all;
  }

  method ScopeLanes(review: Review, known: set<Id>, blocking: set<Id>, findings: seq<Finding>, demotions: seq<Demotion>)
    returns (verdicts: map<Role, Verdict>)
    requires findings == ScopedFindings(review.findings, known, blocking)
    requires forall d :: d in demotions <==>
               exists f :: f in review.findings && Demotable(f, known, blocking)
                   && d == Demotion(f.reviewer, f.requirement, f.reason)
    ensures verdicts.Keys == review.reviewers.Keys
    ensures forall role :: role in verdicts ==> verdicts[role] == LaneVerdict(review, role, known, blocking)
  {
    hide Demotable, ScopedFindings, LaneVerdict;
    verdicts := map[];
    var todo := review.reviewers.Keys;
    while todo != {}
      invariant todo <= review.reviewers.Keys && verdicts.Keys == review.reviewers.Keys - todo
      invariant forall role :: role in verdicts ==> verdicts[role] == LaneVerdict(review, role, known, blocking)
      decreases todo
    {
      var role :| role in todo;
      var hasBlocker := exists f :: f in findings && f.severity == Blocker && f.reviewer == role;
      var hasDemotion := exists d :: d in demotions && d.reviewer == role;
      LaneSees(review, role, known, blocking, findings, demotions);
      var verdict := if review.reviewers[role] != Reject then Pass else if hasBlocker
          || !hasDemotion then Reject else Pass;
      verdicts := verdicts[role := verdict];
      todo := todo - {role};
    }
  }

  lemma LaneSees(review: Review, role: Role, known: set<Id>, blocking: set<Id>, findings: seq<Finding>,
      demotions: seq<Demotion>)
    requires role in review.reviewers && findings == ScopedFindings(review.findings, known, blocking)
    requires forall d :: d in demotions <==>
               exists f :: f in review.findings && Demotable(f, known, blocking)
                   && d == Demotion(f.reviewer, f.requirement, f.reason)
    ensures LaneVerdict(review, role, known, blocking) ==
              if review.reviewers[role] != Reject then Pass
              else if (exists f :: f in findings && f.severity == Blocker && f.reviewer == role)
                      || !(exists d :: d in demotions && d.reviewer == role) then Reject
              else Pass
  {
    hide ScopedFindings;
    SurvivorsShow(review.findings, role, known, blocking);
    if HasDemotion(review.findings, role, known, blocking) {
      var f :| f in review.findings && Demotable(f, known, blocking) && f.reviewer == role;
      assert Demotion(f.reviewer, f.requirement, f.reason) in demotions;
    }
  }

  /** The blockers left after scoping are the ones that survive. */
  lemma SurvivorsShow(all: seq<Finding>, role: Role, known: set<Id>, blocking: set<Id>)
    ensures HasSurvivor(all, role, known, blocking)
            <==> exists f :: f in ScopedFindings(all, known, blocking) && f.severity == Blocker && f.reviewer == role
  {
    var findings := ScopedFindings(all, known, blocking);
    if HasSurvivor(all, role, known, blocking) {
      var f :| f in all && f.severity == Blocker && !Demotable(f, known, blocking) && f.reviewer == role;
      var i :| 0 <= i < |all| && all[i] == f;
      assert findings[i] == f;
    }
    if f :| f in findings && f.severity == Blocker && f.reviewer == role {
      var i :| 0 <= i < |findings| && findings[i] == f;
      assert all[i] in all;
    }
  }

  // ----- what scoping does to a verdict -----

  /** Scoping touches nothing but out-of-scope blockers, which become notes. */
  lemma OnlyOutOfScopeBlockersChange(review: Review, known: set<Id>, blocking: set<Id>, i: nat)
    requires i < |review.findings|
    ensures var before, after := review.findings[i], Scope(review, known, blocking).findings[i];
            && (after != before <==>
                && before.severity == Blocker && before.requirement != NOTHING
                && before.requirement in known && before.requirement !in blocking)
            && (after != before ==> after == before.(severity := Note))
  {
    hide ScopedVerdict, LaneVerdict;
  }

  lemma NothingLeftToDemote(findings: seq<Finding>, known: set<Id>, blocking: set<Id>)
    ensures !AnyDemotable(ScopedFindings(findings, known, blocking), known, blocking)
    ensures ScopedFindings(ScopedFindings(findings, known, blocking), known, blocking)
              == ScopedFindings(findings, known, blocking)
  {
  }

  /** A rejection that no lane has signed falls exactly when it had a blocker to demote and keeps none. */
  lemma UnsignedVerdict(review: Review, known: set<Id>, blocking: set<Id>)
    requires review.reviewers == map[]
    ensures Scope(review, known, blocking).verdict == Reject <==>
              && review.verdict == Reject
              && ((forall f :: f in review.findings ==> !Demotable(f, known, blocking))
                  || exists f :: f in review.findings && f.severity == Blocker && !Demotable(f, known, blocking))
  {
    hide Demotable;
    var scoped := ScopedFindings(review.findings, known, blocking);
    if f :| f in review.findings && f.severity == Blocker && !Demotable(f, known, blocking) {
      var i :| 0 <= i < |review.findings| && review.findings[i] == f;
      assert scoped[i] == f;
      assert HasBlocker(scoped);
    }
    if HasBlocker(scoped) {
      var g :| g in scoped && g.severity == Blocker;
      var i :| 0 <= i < |scoped| && scoped[i] == g;
      assert review.findings[i] in review.findings && review.findings[i].severity == Blocker;
    }
  }

  /** Scoping a scoped review changes nothing. */
  lemma ScopingIsIdempotent(review: Review, known: set<Id>, blocking: set<Id>)
    ensures Scope(Scope(review, known, blocking), known, blocking) == Scope(review, known, blocking)
  {
    hide ScopedFindings, Demotable, HasSurvivor, HasBlocker;
    var once := Scope(review, known, blocking);
    NothingLeftToDemote(review.findings, known, blocking);
    forall role | role in once.reviewers ensures LaneVerdict(once, role, known, blocking) == once.reviewers[role] {
      assert HasDemotion(once.findings, role, known, blocking) ==> AnyDemotable(once.findings, known, blocking);
    }
    SameLanesReject(review, once, known, blocking);
    assert Scope(once, known, blocking).reviewers == once.reviewers;
  }

  lemma SameLanesReject(a: Review, b: Review, known: set<Id>, blocking: set<Id>)
    requires a.reviewers.Keys == b.reviewers.Keys
    requires forall role :: role in a.reviewers ==>
               LaneVerdict(a, role, known, blocking) == LaneVerdict(b, role, known, blocking)
    ensures AnyLaneRejects(a, known, blocking) == AnyLaneRejects(b, known, blocking)
  {
    hide LaneVerdict;
    if AnyLaneRejects(a, known, blocking) {
      var role :| role in a.reviewers && LaneVerdict(a, role, known, blocking) == Reject;
      assert role in b.reviewers;
    }
    if AnyLaneRejects(b, known, blocking) {
      var role :| role in b.reviewers && LaneVerdict(b, role, known, blocking) == Reject;
      assert role in a.reviewers;
    }
  }

  // ----- from the lanes' answers to the scoped verdict -----

  function Normalized(roles: seq<Role>, outputs: map<Role, LaneOutput>): map<Role, Review>
    requires forall role :: role in roles ==> role in outputs
  {
    map role | role in roles :: NormalizeReview(role, outputs[role])
  }

  /** The verdict on a candidate: aggregate the lanes, then scope. */
  function Judged(roles: seq<Role>, outputs: map<Role, LaneOutput>, known: set<Id>, blocking: set<Id>): Review
    requires forall role :: role in roles ==> role in outputs
  {
    Scope(AggregateReviews(roles, Normalized(roles, outputs)), known, blocking)
  }

  /** The findings of all lanes, attributed. */
  function Gathered(roles: seq<Role>, outputs: map<Role, LaneOutput>): seq<Finding>
    requires forall role :: role in roles ==> role in outputs
  {
    AllFindings(roles, Normalized(roles, outputs))
  }

  /** A candidate passes exactly when every lane that rejects it, or gave no answer, has a demoted
      blocker under its name and no surviving one. */
  lemma JudgedIff(roles: seq<Role>, outputs: map<Role, LaneOutput>, known: set<Id>, blocking: set<Id>)
    requires roles != [] && forall role :: role in roles ==> role in outputs
    ensures Judged(roles, outputs, known, blocking).verdict == Pass <==>
              forall role :: role in roles && NormalizeReview(role, outputs[role]).verdict == Reject ==>
                HasDemotion(Gathered(roles, outputs), role, known, blocking)
                    && !HasSurvivor(Gathered(roles, outputs), role, known, blocking)
  {
    hide NormalizeReview, HasDemotion, HasSurvivor, ScopedFindings;
    var review := AggregateReviews(roles, Normalized(roles, outputs));
    assert roles[0] in review.reviewers;
    if Judged(roles, outputs, known, blocking).verdict == Pass {
      forall role | role in roles && NormalizeReview(role, outputs[role]).verdict == Reject
        ensures HasDemotion(Gathered(roles, outputs), role, known, blocking)
                  && !HasSurvivor(Gathered(roles, outputs), role, known, blocking)
      {
        assert LaneVerdict(review, role, known, blocking) != Reject;
      }
    }
  }

  /** Every finding is attributed to the lane that made it, or to none. */
  ghost predicate OwnFindings(roles: seq<Role>, outputs: map<Role, LaneOutput>) {
    forall role, f ::
      role in roles && role in outputs && outputs[role].Answered? && f in outputs[role].review.findings ==>
        f.reviewer == NOTHING || f.reviewer == role
  }

  /** With findings attributed to their lanes, a rejecting lane decides by its own findings alone: its
      rejection stands unless it demoted something and nothing of its own survives. */
  lemma OwnFindingsDecide(roles: seq<Role>, outputs: map<Role, LaneOutput>, role: Role, known: set<Id>,
      blocking: set<Id>)
    requires role in roles && forall r :: r in roles ==> r in outputs
    requires OwnFindings(roles, outputs) && NOTHING !in roles
    ensures var own := NormalizeReview(role, outputs[role]).findings;
            && (HasDemotion(Gathered(roles, outputs), role, known, blocking) <==>
                exists f :: f in own && Demotable(f, known, blocking))
            && (HasSurvivor(Gathered(roles, outputs), role, known, blocking)
                <==> exists f :: f in own && f.severity == Blocker && !Demotable(f, known, blocking))
  {
    hide Demotable, NormalizeReview;
    var own := NormalizeReview(role, outputs[role]).findings;
    forall f | f in Gathered(roles, outputs) ensures f.reviewer == role <==> f in own {
      var r :| r in roles && f in NormalizeReview(r, outputs[r]).findings;
      LaneOwns(roles, outputs, r, f);
      if f in own {
        LaneOwns(roles, outputs, role, f);
      }
    }
    forall f | f in own ensures f in Gathered(roles, outputs) {
      assert role in roles && f in Normalized(roles, outputs)[role].findings;
    }
  }

  lemma LaneOwns(roles: seq<Role>, outputs: map<Role, LaneOutput>, role: Role, f: Finding)
    requires role in roles && role in outputs && OwnFindings(roles, outputs)
    requires f in NormalizeReview(role, outputs[role]).findings
    ensures f.reviewer == role
  {
    var output := outputs[role];
    if output.Answered? {
      var findings := NormalizeReview(role, output).findings;
      var i :| 0 <= i < |findings| && findings[i] == f;
      assert output.review.findings[i] in output.review.findings;
    }
  }

  /** With findings attributed to their lanes: a surviving blocker of a rejecting lane keeps the verdict
      reject, and so does every lane that crashed or gave no readable answer. */
  lemma SurvivorsReject(roles: seq<Role>, outputs: map<Role, LaneOutput>, role: Role, known: set<Id>, blocking: set<Id>)
    requires role in roles && forall r :: r in roles ==> r in outputs
    requires OwnFindings(roles, outputs) && NOTHING !in roles
    requires var lane := NormalizeReview(role, outputs[role]);
             || !outputs[role].Answered?
             || (lane.verdict == Reject && exists f ::
                 f in lane.findings && f.severity == Blocker && !Demotable(f, known, blocking))
    ensures Judged(roles, outputs, known, blocking).verdict == Reject
  {
    hide HasDemotion, HasSurvivor, Judged, Gathered;
    OwnFindingsDecide(roles, outputs, role, known, blocking);
    JudgedIff(roles, outputs, known, blocking);
  }

  /** Attribution matters: a lane that signs its in-scope blocker with the name of a passing lane loses
      its rejection to the out-of-scope blocker it signed itself, and the candidate passes with a
      blocker in force. */
  lemma MisattributedBlockerPasses()
      returns (roles: seq<Role>, outputs: map<Role, LaneOutput>, known: set<Id>, blocking: set<Id>)
    ensures roles == ["a", "b"] && (forall role :: role in roles ==> role in outputs && outputs[role].Answered?)
    ensures outputs["a"].review.verdict == Reject && outputs["b"].review.verdict == Pass
    ensures Finding(Blocker, "now", "b", "") in outputs["a"].review.findings && "now" in blocking
    ensures Finding(Blocker, "now", "b", "") in Judged(roles, outputs, known, blocking).findings
    ensures Judged(roles, outputs, known, blocking).verdict == Pass
  {
    hide Judged, HasDemotion, HasSurvivor;
    roles, known, blocking := ["a", "b"], {"now", "later"}, {"now"};
    var now, later := Finding(Blocker, "now", "b", ""), Finding(Blocker, "later", "a", "");
    outputs := map["a" := Answered(Review(Reject, [now, later], map[], None)),
        "b" := Answered(Review(Pass, [], map[], None))];
    JudgedIff(roles, outputs, known, blocking);
    MisattributedFindings(roles, outputs, now, later);
    var all := Gathered(roles, outputs);
    assert HasDemotion(all, "a", known, blocking) by { OneDemotion(all, later, known, blocking); }
    assert !HasSurvivor(all, "a", known, blocking) by { NoSurvivor(all, now, later, known, blocking); }
    StaysInForce(roles, outputs, known, blocking, now);
  }

  lemma MisattributedFindings(roles: seq<Role>, outputs: map<Role, LaneOutput>, now: Finding, later: Finding)
    requires roles == ["a", "b"] && now.reviewer == "b" && later.reviewer == "a"
    requires outputs == map["a" := Answered(Review(Reject, [now, later], map[], None)),
               "b" := Answered(Review(Pass, [], map[], None))]
    ensures Gathered(roles, outputs) == [now, later]
  {
    var results := Normalized(roles, outputs);
    assert results["a"].findings == [now, later] && results["b"].findings == [];
    assert roles[..1] == ["a"] && roles[..1][..0] == [];
    assert AllFindings(["a"], results) == [now, later];
  }

  lemma OneDemotion(all: seq<Finding>, later: Finding, known: set<Id>, blocking: set<Id>)
    requires later in all && Demotable(later, known, blocking)
    ensures HasDemotion(all, later.reviewer, known, blocking)
  {
  }

  lemma NoSurvivor(all: seq<Finding>, now: Finding, later: Finding, known: set<Id>, blocking: set<Id>)
    requires all == [now, later] && now.reviewer != later.reviewer && Demotable(later, known, blocking)
    ensures !HasSurvivor(all, later.reviewer, known, blocking)
  {
  }

  lemma StaysInForce(roles: seq<Role>, outputs: map<Role, LaneOutput>, known: set<Id>, blocking: set<Id>, f: Finding)
    requires forall role :: role in roles ==> role in outputs
    requires f in Gathered(roles, outputs) && !Demotable(f, known, blocking)
    ensures f in Judged(roles, outputs, known, blocking).findings
  {
    hide Demotable, ScopedVerdict, LaneVerdict;
    var all := Gathered(roles, outputs);
    var i :| 0 <= i < |all| && all[i] == f;
    assert Judged(roles, outputs, known, blocking).findings[i] == f;
  }
}
