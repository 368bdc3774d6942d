/**
 The transition relation of the durable service graph (`graph_service.py`, lines 33-245) and what
 every run has done before it merges.
 */
module ServiceGraph {
  import opened Wrappers
  import opened RequiredChecks

  datatype Node =
    | Bootstrap | GuardPlan | GuardQuality | SpecStop | PausePlan | PauseBuild | PauseTddRedRepair | PauseRepair
    | PauseIntegrate | PausePr | PauseMerge | PauseReviewerRecovery | PauseReviewerRecoveryWait | Scout | Plan
    | PlannerHuman | PrepareWorktree | TddBaseline | TddRedBuild | TddRedGate | SnapshotFrozenRed | TddHuman | Build
    | Quality | Review | Repair | Replan | ReviewerRecovery | ReviewExecutionFailure | Human | Integrate | Pr | CiPoll
    | CiWait | Merge | Refresh

  /** The edges, END left out. */
  predicate LeadsTo(node: Node, next: Node) {
    match node
    case Bootstrap => next.GuardPlan?
    case GuardPlan => next.PausePlan?
    case PausePlan => next.Scout?
    case Scout => next.Plan?
    case Plan => next.PrepareWorktree? || next.Plan? || next.Replan? || next.PlannerHuman?
    case PlannerHuman => next.Plan?
    case PrepareWorktree => next.TddBaseline?
    case TddBaseline => next.PauseBuild? || next.Replan? || next.TddHuman?
    case PauseBuild => next.TddRedBuild? || next.Build?
    case TddRedBuild => next.TddRedGate?
    case TddRedGate => next.SnapshotFrozenRed?
    case SnapshotFrozenRed => next.Build? || next.PauseTddRedRepair? || next.Replan? || next.TddHuman?
    case PauseTddRedRepair => next.TddRedBuild?
    case TddHuman => next.Replan?
    case Build => next.GuardQuality?
    case GuardQuality => next.Quality?
    case Quality => next.Review?
    case Review =>
      || next.PauseIntegrate? || next.PauseReviewerRecovery? || next.PauseRepair? || next.Replan? || next.Human?
      || next.SpecStop? || next.ReviewExecutionFailure? || next.PauseReviewerRecoveryWait?
    case SpecStop => false
    case ReviewerRecovery =>
      || next.PauseIntegrate? || next.PauseReviewerRecovery? || next.Replan? || next.Human? || next.SpecStop?
      || next.ReviewExecutionFailure? || next.PauseReviewerRecoveryWait?
    case PauseReviewerRecovery => next.ReviewerRecovery?
    case PauseReviewerRecoveryWait => next.ReviewerRecovery?
    case ReviewExecutionFailure => false
    case PauseRepair => next.Repair?
    case Repair => next.GuardQuality?
    case Replan => next.GuardPlan?
    case Human => next.PauseRepair? || next.PrepareWorktree? || next.GuardPlan? || next.GuardQuality?
    case PauseIntegrate => next.Integrate?
    case Integrate => next.PausePr? || next.Replan?
    case PausePr => next.Pr?
    case Pr => next.CiPoll?
    case CiPoll => next.CiWait? || next.PauseMerge? || next.PauseRepair? || next.Replan? || next.Human?
    case CiWait => next.CiPoll?
    case PauseMerge => next.Merge?
    case Merge => next.Refresh?
    case Refresh => next.GuardPlan? || next.Human?
  }

  // ----- the edges, seen from their ends -----

  /** Where each node may be entered from. */
  predicate EnteredFrom(node: Node, from: Node) {
    match node
    case Bootstrap => false
    case GuardPlan => from.Bootstrap? || from.Replan? || from.Human? || from.Refresh?
    case PausePlan => from.GuardPlan?
    case Scout => from.PausePlan?
    case Plan => from.Scout? || from.Plan? || from.PlannerHuman?
    case PlannerHuman => from.Plan?
    case PrepareWorktree => from.Plan? || from.Human?
    case TddBaseline => from.PrepareWorktree?
    case PauseBuild => from.TddBaseline?
    case TddRedBuild => from.PauseBuild? || from.PauseTddRedRepair?
    case TddRedGate => from.TddRedBuild?
    case SnapshotFrozenRed => from.TddRedGate?
    case PauseTddRedRepair => from.SnapshotFrozenRed?
    case TddHuman => from.TddBaseline? || from.SnapshotFrozenRed?
    case Build => from.PauseBuild? || from.SnapshotFrozenRed?
    case GuardQuality => from.Build? || from.Repair? || from.Human?
    case Quality => from.GuardQuality?
    case Review => from.Quality?
    case SpecStop => from.Review? || from.ReviewerRecovery?
    case ReviewerRecovery => from.PauseReviewerRecovery? || from.PauseReviewerRecoveryWait?
    case PauseReviewerRecovery => from.Review? || from.ReviewerRecovery?
    case PauseReviewerRecoveryWait => from.Review? || from.ReviewerRecovery?
    case ReviewExecutionFailure => from.Review? || from.ReviewerRecovery?
    case PauseRepair => from.Review? || from.Human? || from.CiPoll?
    case Repair => from.PauseRepair?
    case Replan =>
      || from.Plan? || from.TddBaseline? || from.SnapshotFrozenRed? || from.TddHuman? || from.Review?
      || from.ReviewerRecovery? || from.Integrate? || from.CiPoll?
    case Human => from.Review? || from.ReviewerRecovery? || from.CiPoll? || from.Refresh?
    case PauseIntegrate => from.Review? || from.ReviewerRecovery?
    case Integrate => from.PauseIntegrate?
    case PausePr => from.Integrate?
    case Pr => from.PausePr?
    case CiPoll => from.Pr? || from.CiWait?
    case CiWait => from.CiPoll?
    case PauseMerge => from.CiPoll?
    case Merge => from.PauseMerge?
    case Refresh => from.Merge?
  }

  /** Every edge, seen from both ends. */
  lemma EdgesMirror(a: Node, b: Node)
    ensures LeadsTo(a, b) <==> EnteredFrom(b, a)
  {
    hide LeadsTo, EnteredFrom;
    match a
    case Bootstrap => EdgesOfPlanning(a, b);
    case GuardPlan => EdgesOfPlanning(a, b);
    case PausePlan => EdgesOfPlanning(a, b);
    case Scout => EdgesOfPlanning(a, b);
    case Plan => EdgesOfPlanning(a, b);
    case PlannerHuman => EdgesOfPlanning(a, b);
    case PrepareWorktree => EdgesOfPlanning(a, b);
    case Replan => EdgesOfPlanning(a, b);
    case TddBaseline => EdgesOfPlanning(a, b);
    case PauseBuild => EdgesOfPlanning(a, b);
    case TddRedBuild => EdgesOfPlanning(a, b);
    case TddRedGate => EdgesOfPlanning(a, b);
    case SnapshotFrozenRed => EdgesOfPlanning(a, b);
    case PauseTddRedRepair => EdgesOfPlanning(a, b);
    case TddHuman => EdgesOfPlanning(a, b);
    case Build => EdgesOfReview(a, b);
    case GuardQuality => EdgesOfReview(a, b);
    case Quality => EdgesOfReview(a, b);
    case PauseRepair => EdgesOfReview(a, b);
    case Repair => EdgesOfReview(a, b);
    case Human => EdgesOfReview(a, b);
    case SpecStop => EdgesOfReview(a, b);
    case Review => EdgesOfReview(a, b);
    case ReviewerRecovery => EdgesOfReview(a, b);
    case PauseReviewerRecovery => EdgesOfReview(a, b);
    case PauseReviewerRecoveryWait => EdgesOfReview(a, b);
    case ReviewExecutionFailure => EdgesOfReview(a, b);
    case PauseIntegrate => EdgesOfRelease(a, b);
    case Integrate => EdgesOfRelease(a, b);
    case PausePr => EdgesOfRelease(a, b);
    case Pr => EdgesOfRelease(a, b);
    case CiPoll => EdgesOfRelease(a, b);
    case CiWait => EdgesOfRelease(a, b);
    case PauseMerge => EdgesOfRelease(a, b);
    case Merge => EdgesOfRelease(a, b);
    case Refresh => EdgesOfRelease(a, b);
  }

  lemma EdgesOfPlanning(a: Node, b: Node)
    requires a.Bootstrap? || a.GuardPlan? || a.PausePlan? || a.Scout? || a.Plan? || a.PlannerHuman? ||
             a.PrepareWorktree? || a.Replan? || a.TddBaseline? || a.PauseBuild? || a.TddRedBuild? ||
             a.TddRedGate? || a.SnapshotFrozenRed? || a.PauseTddRedRepair? || a.TddHuman?
    ensures LeadsTo(a, b) <==> EnteredFrom(b, a)
  {
  }

  lemma EdgesOfReview(a: Node, b: Node)
    requires a.Build? || a.GuardQuality? || a.Quality? || a.PauseRepair? || a.Repair? || a.Human? || a.SpecStop?
             || a.Review? || a.ReviewerRecovery? || a.PauseReviewerRecovery? || a.PauseReviewerRecoveryWait? ||
             a.ReviewExecutionFailure?
    ensures LeadsTo(a, b) <==> EnteredFrom(b, a)
  {
  }

  lemma EdgesOfRelease(a: Node, b: Node)
    requires a.PauseIntegrate? || a.Integrate? || a.PausePr? || a.Pr? || a.CiPoll? || a.CiWait? || a.PauseMerge?
             || a.Merge? || a.Refresh?
    ensures LeadsTo(a, b) <==> EnteredFrom(b, a)
  {
  }

  predicate WritesCode(node: Node) {
    node in {TddRedBuild, Build, Repair}
  }

  /** A visited node and the CI verdict in the state it leaves. */
  datatype Visit = Visit(node: Node, ci: Verdict)

  /** Routers may choose any of their labels, except that `route_after_ci` sends only a pass to merge
      and only a pending verdict to wait. Only `ci_poll` writes the verdict. */
  predicate Follows(a: Visit, b: Visit) {
    && LeadsTo(a.node, b.node)
    && (b.node != CiPoll ==> b.ci == a.ci)
    && (a.node == CiPoll ==> (b.node == PauseMerge <==> a.ci == CiPass) && (b.node == CiWait <==> a.ci == CiPending))
  }

  datatype CiLabel = LabelWait | LabelMerge | LabelRepair | LabelReplan | LabelHuman | LabelEnd

  /** `route_after_ci`: where a polled verdict leads. */
  function RouteAfterCi(ci: Verdict, autoMerge: bool, retryError: bool, repairsLeft: bool, replansLeft: bool): CiLabel {
    if ci == CiPending then LabelWait
    else if ci == CiPass then (if autoMerge then LabelMerge else LabelEnd)
    else if retryError then LabelHuman
    else if repairsLeft then LabelRepair
    else if replansLeft then LabelReplan
    else LabelHuman
  }

  function CiTarget(choice: CiLabel): Option<Node> {
    match choice
    case LabelWait => Some(CiWait)
    case LabelMerge => Some(PauseMerge)
    case LabelRepair => Some(PauseRepair)
    case LabelReplan => Some(Replan)
    case LabelHuman => Some(Human)
    case LabelEnd => None
  }

  /** The router takes an edge that a run may follow, and every node a run may follow a verdict with
      to merge or to wait is the router's own choice. */
  lemma RouterFollowsTheGraph(a: Visit, autoMerge: bool, retryError: bool, repairsLeft: bool, replansLeft: bool)
    requires a.node == CiPoll
    ensures var target := CiTarget(RouteAfterCi(a.ci, autoMerge, retryError, repairsLeft, replansLeft));
            && (target.Some? ==> Follows(a, Visit(target.value, a.ci)))
            && (target.None? <==> a.ci == CiPass && !autoMerge)
            && (target == Some(PauseMerge) <==> a.ci == CiPass && autoMerge)
            && (target == Some(CiWait) <==> a.ci == CiPending)
    ensures CiTarget(LabelRepair) == Some(PauseRepair) && CiTarget(LabelReplan) == Some(Replan)
    ensures CiTarget(LabelHuman) == Some(Human)
  {
  }

  // ----- what a failing head may cost -----

  /** The configured limits and the attempts spent on the task (`repair_attempts`, `replan_attempts`). */
  datatype Allowance = Allowance(repairs: nat, replans: nat)
  datatype Attempts = Attempts(repairs: nat, replans: nat)

  function Route(ci: Verdict, autoMerge: bool, retryError: bool, limit: Allowance, spent: Attempts): CiLabel {
    RouteAfterCi(ci, autoMerge, retryError, spent.repairs < limit.repairs, spent.replans < limit.replans)
  }

  /** What the node that the router chose adds: a repair counts, and a replan counts and forgets the repairs. */
  function Spend(spent: Attempts, choice: CiLabel): Attempts {
    match choice
    case LabelRepair => spent.(repairs := spent.repairs + 1)
    case LabelReplan => Attempts(0, spent.replans + 1)
    case _ => spent
  }

  /** After `n` verdicts that neither passed nor were pending, without a retry error. */
  function Failed(ci: Verdict, autoMerge: bool, limit: Allowance, n: nat): Attempts {
    if n == 0 then Attempts(0, 0)
    else
      var before := Failed(ci, autoMerge, limit, n - 1);
      Spend(before, Route(ci, autoMerge, false, limit, before))
  }

  /** Failing verdicts are answered by as many repairs as are allowed, then by a replan, which allows as many again,
      and after the last replan and its repairs by a human. */
  lemma {:induction false} FailuresAreAnsweredInTurn(ci: Verdict, autoMerge: bool, limit: Allowance, q: nat, r: nat,
                                                     n: nat)
    requires ci != CiPass && ci != CiPending && r <= limit.repairs && q <= limit.replans
    requires n == q * (limit.repairs + 1) + r
    ensures Failed(ci, autoMerge, limit, n) == Attempts(r, q)
    ensures Route(ci, autoMerge, false, limit, Failed(ci, autoMerge, limit, n)) ==
              if r < limit.repairs then LabelRepair else if q < limit.replans then LabelReplan else LabelHuman
    decreases n
  {
    hide Failed, Route, Spend;
    AnswerIs(ci, autoMerge, limit, Attempts(r, q));
    if r > 0 {
      var n', r': nat := n - 1, r - 1;
      FailuresAreAnsweredInTurn(ci, autoMerge, limit, q, r', n');
      OneMoreFailure(ci, autoMerge, limit, n', n);
      AnswerIs(ci, autoMerge, limit, Attempts(r', q));
    } else if q > 0 {
      var q': nat := q - 1;
      LastOfRound(q', q, limit.repairs);
      var n': nat := n - 1;
      FailuresAreAnsweredInTurn(ci, autoMerge, limit, q', limit.repairs, n');
      OneMoreFailure(ci, autoMerge, limit, n', n);
      AnswerIs(ci, autoMerge, limit, Attempts(limit.repairs, q'));
    } else {
      NoFailure(ci, autoMerge, limit);
    }
  }

  lemma NoFailure(ci: Verdict, autoMerge: bool, limit: Allowance)
    ensures Failed(ci, autoMerge, limit, 0) == Attempts(0, 0)
  {
  }

  lemma OneMoreFailure(ci: Verdict, autoMerge: bool, limit: Allowance, n: nat, n': nat)
    requires n' == n + 1
    ensures var before := Failed(ci, autoMerge, limit, n);
            Failed(ci, autoMerge, limit, n') == Spend(before, Route(ci, autoMerge, false, limit, before))
  {
    hide Route, Spend;
  }

  lemma AnswerIs(ci: Verdict, autoMerge: bool, limit: Allowance, spent: Attempts)
    requires ci != CiPass && ci != CiPending
    ensures var choice := Route(ci, autoMerge, false, limit, spent);
            && choice == (if spent.repairs < limit.repairs then LabelRepair
                          else if spent.replans < limit.replans then LabelReplan else LabelHuman)
            && Spend(spent, choice) == (if spent.repairs < limit.repairs then Attempts(spent.repairs + 1, spent.replans)
                                        else if spent.replans < limit.replans then Attempts(0, spent.replans + 1)
                                        else spent)
  {
  }

  lemma LastOfRound(q: nat, q': nat, repairs: nat)
    requires q' == q + 1
    ensures q * (repairs + 1) + repairs + 1 == q' * (repairs + 1)
  {
  }

  /** How many more failing verdicts are answered without a human. */
  function Remaining(limit: Allowance, spent: Attempts): int {
    (limit.replans - spent.replans) * (limit.repairs + 1) + (limit.repairs - spent.repairs)
  }

  /** Every answer without a human is paid for, whoever spent before: a retry error, or nothing left to spend, is what
      sends a failing verdict to a human. */
  lemma AnswersAreFinite(ci: Verdict, autoMerge: bool, retryError: bool, limit: Allowance, spent: Attempts)
    requires ci != CiPass && ci != CiPending && spent.repairs <= limit.repairs && spent.replans <= limit.replans
    ensures var choice := Route(ci, autoMerge, retryError, limit, spent);
            && choice in {LabelRepair, LabelReplan, LabelHuman}
            && (choice == LabelHuman <==> retryError || Remaining(limit, spent) == 0)
            && (choice == LabelHuman ==> Spend(spent, choice) == spent)
            && (choice != LabelHuman ==>
                  && Spend(spent, choice).repairs <= limit.repairs && Spend(spent, choice).replans <= limit.replans
                  && Remaining(limit, Spend(spent, choice)) == Remaining(limit, spent) - 1)
  {
    RemainingIsZeroIff(limit, spent);
    assert (limit.replans - (spent.replans + 1)) * (limit.repairs + 1)
        == (limit.replans - spent.replans) * (limit.repairs + 1) - (limit.repairs + 1);
  }

  lemma RemainingIsZeroIff(limit: Allowance, spent: Attempts)
    requires spent.repairs <= limit.repairs && spent.replans <= limit.replans
    ensures Remaining(limit, spent) == 0 <==> spent == Attempts(limit.repairs, limit.replans)
    ensures Remaining(limit, spent) >= 0
  {
    PositiveProduct(limit.replans - spent.replans, limit.repairs + 1);
  }

  lemma {:induction false} PositiveProduct(a: nat, b: nat)
    requires b >= 1
    ensures a * b >= a
  {
    if a > 0 {
      PositiveProduct(a - 1, b);
      assert a * b == (a - 1) * b + b;
    }
  }

  predicate IsRun(run: seq<Visit>) {
    && run != [] && run[0].node == Bootstrap
    && forall i :: 0 <= i < |run| - 1 ==> Follows(run[i], run[i + 1])
  }

  // ----- runs through every node -----

  /** The node from which the shortest way enters this one, and how long that way is. */
  function Via(node: Node): Node {
    match node
    case Bootstrap => Bootstrap
    case GuardPlan => Bootstrap
    case PausePlan => GuardPlan
    case Scout => PausePlan
    case Plan => Scout
    case PlannerHuman => Plan
    case PrepareWorktree => Plan
    case Replan => Plan
    case TddBaseline => PrepareWorktree
    case PauseBuild => TddBaseline
    case TddHuman => TddBaseline
    case TddRedBuild => PauseBuild
    case TddRedGate => TddRedBuild
    case SnapshotFrozenRed => TddRedGate
    case PauseTddRedRepair => SnapshotFrozenRed
    case Build => PauseBuild
    case GuardQuality => Build
    case Quality => GuardQuality
    case Review => Quality
    case SpecStop => Review
    case ReviewExecutionFailure => Review
    case PauseReviewerRecovery => Review
    case PauseReviewerRecoveryWait => Review
    case PauseRepair => Review
    case PauseIntegrate => Review
    case Human => Review
    case ReviewerRecovery => PauseReviewerRecovery
    case Repair => PauseRepair
    case Integrate => PauseIntegrate
    case PausePr => Integrate
    case Pr => PausePr
    case CiPoll => Pr
    case CiWait => CiPoll
    case PauseMerge => CiPoll
    case Merge => PauseMerge
    case Refresh => Merge
  }

  function Distance(node: Node): nat {
    match node
    case Bootstrap => 0
    case GuardPlan => 1
    case PausePlan => 2
    case Scout => 3
    case Plan => 4
    case PlannerHuman => 5
    case PrepareWorktree => 5
    case Replan => 5
    case TddBaseline => 6
    case PauseBuild => 7
    case TddHuman => 7
    case TddRedBuild => 8
    case Build => 8
    case TddRedGate => 9
    case GuardQuality => 9
    case SnapshotFrozenRed => 10
    case Quality => 10
    case PauseTddRedRepair => 11
    case Review => 11
    case ReviewerRecovery => 13
    case Repair => 13
    case Integrate => 13
    case PausePr => 14
    case Pr => 15
    case CiPoll => 16
    case CiWait => 17
    case PauseMerge => 17
    case Merge => 18
    case Refresh => 19
    case _ => 12
  }

  lemma ViaIsAnEdge(node: Node)
    requires node != Bootstrap
    ensures LeadsTo(Via(node), node)
  {
  }

  lemma ViaIsNearer(node: Node)
    requires node != Bootstrap
    ensures Distance(Via(node)) < Distance(node)
  {
  }

  /** Every node is reached by some run: a wait under a pending verdict, a merge and what follows under a pass, and any
      other node whatever the verdict in the state is. */
  lemma {:induction false} EveryNodeIsReached(node: Node, ci: Verdict) returns (run: seq<Visit>)
    requires node == CiWait ==> ci == CiPending
    requires node in {PauseMerge, Merge, Refresh} ==> ci == CiPass
    ensures IsRun(run) && run[|run| - 1] == Visit(node, ci)
    decreases Distance(node)
  {
    if node == Bootstrap {
      run := [Visit(Bootstrap, ci)];
    } else {
      ViaIsAnEdge(node);
      ViaIsNearer(node);
      var before := EveryNodeIsReached(Via(node), ci);
      run := before + [Visit(node, ci)];
      assert Follows(Visit(Via(node), ci), Visit(node, ci));
    }
  }

  /** A verdict stays in the state until the next poll. */
  lemma {:induction false} VerdictLasts(run: seq<Visit>, i: nat, j: nat)
    requires IsRun(run) && i <= j < |run| && forall k :: i < k <= j ==> run[k].node != CiPoll
    ensures run[j].ci == run[i].ci
    decreases j - i
  {
    if i < j {
      VerdictLasts(run, i, j - 1);
      assert Follows(run[j - 1], run[j]);
    }
  }

  /** A wait answers a pending poll, and a poll follows it; a poll is pending exactly when a wait follows it. */
  lemma WaitsArePolledAgain(run: seq<Visit>, w: nat)
    requires IsRun(run) && w < |run|
    ensures run[w].node == CiWait ==> w > 0 && run[w - 1] == Visit(CiPoll, CiPending)
    ensures run[w].node == CiWait && w + 1 < |run| ==> run[w + 1].node == CiPoll
    ensures run[w].node == CiPoll && w + 1 < |run| ==> (run[w].ci == CiPending <==> run[w + 1].node == CiWait)
  {
    if w > 0 {
      assert Follows(run[w - 1], run[w]);
    }
    if w + 1 < |run| {
      assert Follows(run[w], run[w + 1]);
    }
  }

  /** A failing test written first passes its gate and is frozen before anything is built on it. */
  lemma RedIsGatedAndFrozen(run: seq<Visit>, i: nat)
    requires IsRun(run) && i + 2 < |run| && run[i].node == TddRedBuild
    ensures run[i + 1].node == TddRedGate && run[i + 2].node == SnapshotFrozenRed
  {
    assert Follows(run[i], run[i + 1]) && Follows(run[i + 1], run[i + 2]);
  }

  // ----- milestones -----

  /** The milestones towards a merge, in order. */
  predicate Reaches(visit: Visit, milestone: nat) {
    match milestone
    case 1 => visit.node == Quality
    case 2 => visit.node == Review
    case 3 => visit.node == Integrate
    case 4 => visit.node == Pr
    case 5 => visit.node == CiPoll && visit.ci == CiPass
    case _ => false
  }

  /** How many milestones, in order, the run has reached since it last wrote code or read a verdict
      that did not pass. */
  function Progress(run: seq<Visit>): nat {
    if run == [] then 0
    else
      var before, visit := Progress(run[..|run| - 1]), run[|run| - 1];
      if WritesCode(visit.node) then 0
      else if visit.node == CiPoll && visit.ci != CiPass then (if before < 4 then before else 4)
      else if Reaches(visit, before + 1) then before + 1
      else before
  }

  /** What must have been reached when a node is entered. */
  function Needed(node: Node): nat {
    match node
    case Review => 1
    case PauseReviewerRecovery => 2
    case PauseReviewerRecoveryWait => 2
    case ReviewerRecovery => 2
    case PauseIntegrate => 2
    case Integrate => 2
    case PausePr => 3
    case Pr => 3
    case CiPoll => 4
    case CiWait => 4
    case PauseMerge => 5
    case Merge => 5
    case _ => 0
  }

  lemma {:induction false} ProgressIsNeeded(run: seq<Visit>)
    requires IsRun(run)
    ensures Progress(run[..|run| - 1]) >= Needed(run[|run| - 1].node)
    decreases |run|
  {
    if |run| > 1 {
      var init := run[..|run| - 1];
      assert forall i :: 0 <= i < |init| ==> init[i] == run[i];
      ProgressIsNeeded(init);
      var a, b := init[|init| - 1], run[|run| - 1];
      assert Follows(run[|run| - 2], run[|run| - 1]);
      EdgeKeepsNeed(init, a, b);
    }
  }

  lemma EdgeKeepsNeed(init: seq<Visit>, a: Visit, b: Visit)
    requires init != [] && init[|init| - 1] == a && Follows(a, b)
    requires Progress(init[..|init| - 1]) >= Needed(a.node)
    ensures Progress(init) >= Needed(b.node)
  {
  }

  /** The last `k` milestones were reached in order at the positions `at`, after which no code was
      written before position `end`. */
  ghost predicate ReachedSince(run: seq<Visit>, at: seq<int>, end: int) {
    && end <= |run|
    && (forall i :: 0 <= i < |at| ==> 0 <= at[i] < end && Reaches(run[at[i]], i + 1))
    && (forall i, j :: 0 <= i < j < |at| ==> at[i] < at[j])
    && (at != [] ==> forall k :: at[0] <= k < end ==> !WritesCode(run[k].node))
  }

  lemma {:induction false} ProgressIsReached(run: seq<Visit>, end: nat) returns (at: seq<int>)
    requires end <= |run|
    ensures |at| == Progress(run[..end]) && ReachedSince(run, at, end)
    ensures PassStands(run, at, end)
  {
    hide WritesCode, Reaches, ReachedSince, PassStands;
    if end == 0 {
      at := [];
      NothingReached(run, 0);
    } else {
      var end': nat := end - 1;
      var before := ProgressIsReached(run, end');
      assert run[..end][..end'] == run[..end'] && run[..end][end'] == run[end'];
      var visit := run[end'];
      AtMostFive(run[..end']);
      if WritesCode(visit.node) {
        at := [];
        NothingReached(run, end);
      } else if visit.node == CiPoll && visit.ci != CiPass {
        at := before[..if |before| < 4 then |before| else 4];
        StillReached(run, before, |at|, end', end);
        TooFewStand(run, at, end);
      } else if Reaches(visit, |before| + 1) {
        at := before + [end'];
        NowReached(run, before, at, end', end);
      } else {
        at := before;
        assert at[..|at|] == at;
        StillReached(run, before, |at|, end', end);
        StillStands(run, at, end', end);
      }
    }
  }

  /** No poll since the last milestone said anything but pass. */
  ghost predicate PassStands(run: seq<Visit>, at: seq<int>, end: int) {
    |at| == 5 ==> forall k :: 0 <= at[4] <= k < end <= |run| && run[k].node == CiPoll ==> run[k].ci == CiPass
  }

  lemma TooFewStand(run: seq<Visit>, at: seq<int>, end: nat)
    requires |at| <= 4
    ensures PassStands(run, at, end)
  {
  }

  lemma StillStands(run: seq<Visit>, at: seq<int>, end: int, end': int)
    requires PassStands(run, at, end) && 0 <= end && end' == end + 1 && end' <= |run|
    requires run[end].node == CiPoll ==> run[end].ci == CiPass
    ensures PassStands(run, at, end')
  {
  }

  lemma {:induction false} AtMostFive(run: seq<Visit>)
    ensures Progress(run) <= 5
  {
    if run != [] {
      AtMostFive(run[..|run| - 1]);
    }
  }

  lemma NothingReached(run: seq<Visit>, end: nat)
    requires end <= |run|
    ensures ReachedSince(run, [], end) && PassStands(run, [], end)
  {
  }

  lemma StillReached(run: seq<Visit>, before: seq<int>, kept: nat, end: int, end': int)
    requires ReachedSince(run, before, end) && kept <= |before|
    requires end' == end + 1 && end' <= |run| && 0 <= end && !WritesCode(run[end].node)
    ensures ReachedSince(run, before[..kept], end')
  {
    hide WritesCode, Reaches;
  }

  lemma NowReached(run: seq<Visit>, before: seq<int>, at: seq<int>, end: int, end': int)
    requires ReachedSince(run, before, end) && at == before + [end]
    requires end' == end + 1 && end' <= |run| && 0 <= end && !WritesCode(run[end].node)
    requires Reaches(run[end], |before| + 1)
    ensures ReachedSince(run, at, end') && PassStands(run, at, end')
  {
    hide WritesCode;
  }

  /** In every run each visit to `merge` is preceded, in order and since code was last written, by
      `quality`, `review`, `integrate`, `pr` and a `ci_poll` that passed; no later poll of the head
      before the merge said anything else. */
  lemma MergeIsEarned(run: seq<Visit>, m: nat) returns (q: nat, r: nat, i: nat, p: nat, c: nat)
    requires IsRun(run) && m < |run| && run[m].node == Merge
    ensures q < r < i < p < c < m
    ensures run[q].node == Quality && run[r].node == Review && run[i].node == Integrate && run[p].node == Pr
    ensures run[c] == Visit(CiPoll, CiPass)
    ensures forall k :: q <= k < m ==> run[k].node != TddRedBuild && run[k].node != Build && run[k].node != Repair
    ensures forall k :: c <= k < m && run[k].node == CiPoll ==> run[k].ci == CiPass
  {
    hide Follows, WritesCode, Progress, Reaches;
    var prefix := run[..m + 1];
    assert forall k :: 0 <= k < |prefix| ==> prefix[k] == run[k];
    ProgressIsNeeded(prefix);
    assert prefix[..m] == run[..m];
    var at := ProgressIsReached(run, m);
    AtMostFive(run[..m]);
    FiveMilestones(run, at, m);
    q, r, i, p, c := at[0], at[1], at[2], at[3], at[4];
    NoCodeIn(run, q, m);
  }

  lemma NoCodeIn(run: seq<Visit>, from: nat, to: nat)
    requires to <= |run| && forall k :: from <= k < to ==> !WritesCode(run[k].node)
    ensures forall k :: from <= k < to ==> run[k].node != TddRedBuild && run[k].node != Build && run[k].node != Repair
  {
  }

  lemma FiveMilestones(run: seq<Visit>, at: seq<int>, end: int)
    requires |at| == 5 && ReachedSince(run, at, end)
    ensures 0 <= at[0] < at[1] < at[2] < at[3] < at[4] < end
    ensures run[at[0]].node == Quality && run[at[1]].node == Review && run[at[2]].node == Integrate
    ensures run[at[3]].node == Pr && run[at[4]] == Visit(CiPoll, CiPass)
  {
    hide WritesCode;
    assert Reaches(run[at[0]], 1) && Reaches(run[at[1]], 2) && Reaches(run[at[2]], 3);
    assert Reaches(run[at[3]], 4) && Reaches(run[at[4]], 5);
  }

  /** A merge follows its passing poll directly: only the pause lies between them. */
  lemma MergeFollowsItsPoll(run: seq<Visit>, m: nat)
    requires IsRun(run) && m < |run| && run[m].node == Merge
    ensures m >= 2 && run[m - 1].node == PauseMerge && run[m - 2] == Visit(CiPoll, CiPass)
  {
    assert Follows(run[m - 1], run[m]);
    assert run[m - 1].node == PauseMerge;
    assert Follows(run[m - 2], run[m - 1]);
  }
}
