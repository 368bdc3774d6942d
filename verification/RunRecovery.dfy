/**
 What a controller does with a run's durable checkpoint (`runtime_service.py`, lines 69-99, 163-200,
 306-327 and 501-608; `runtime.py`, lines 237-263, 350-498). Reading the checkpoint and claiming the
 lease are taken as one step.
 */
module RunRecovery {
  import opened Wrappers
  import opened RunRegistry
  import RunLeases
  import RunTimers

  const TERMINAL_STATUSES: set<string> :=
    {"completed", "converged", "failed", "budget_exhausted", "no_changes", "spec_changed", "stopped", "ci_pass"}

  const PRECHECKPOINT_STATUSES: set<string> := {"queued", "running", "pause_requested", "recoverable"}

  const INITIAL_INPUT_KEYS: set<string> := {"project_id", "config_path", "run_id", "thread_id"}

  // ----- checkpoints -----

  datatype Value = Text(text: string) | Structured

  datatype Checkpoint = Checkpoint(values: map<string, Value>, next: seq<string>, interrupt: Option<string>)

  /** The outcome of opening the graph and reading its state. */
  datatype Reading = Readable(checkpoint: Checkpoint) | NoSuchKey | DatabaseError(transient: bool) | OtherError

  datatype Identity = Identity(id: RunId, project: string, thread: string, pinnedConfig: Option<string>)

  const EMPTY_CHECKPOINT := Checkpoint(map[], [], None)

  /** `_snapshot`: a missing key or a database error reads as an empty checkpoint. */
  function Snapshot(reading: Reading): Option<Checkpoint> {
    match reading
    case Readable(c) => Some(c)
    case NoSuchKey => Some(EMPTY_CHECKPOINT)
    case DatabaseError(_) => Some(EMPTY_CHECKPOINT)
    case OtherError => None
  }

  /** `_terminal_checkpoint_status`. */
  function TerminalStatus(c: Checkpoint): Option<string> {
    if c.interrupt.Some? || c.next != [] || "status" !in c.values then None
    else
      match c.values["status"]
      case Text(status) => if status in TERMINAL_STATUSES then Some(status) else None
      case Structured => None
  }

  /** `_is_initial_input_checkpoint`: exactly the envelope that `start_run` submits. */
  predicate IsInitialInput(c: Checkpoint, run: Identity) {
    && c.interrupt.None? && c.next == [] && c.values.Keys == INITIAL_INPUT_KEYS
    && c.values["project_id"] == Text(run.project)
    && c.values["run_id"] == Text(run.id)
    && c.values["thread_id"] == Text(run.thread)
    && c.values["config_path"].Text? && c.values["config_path"].text != ""
    && (run.pinnedConfig.Some? && run.pinnedConfig.value != "" ==>
        c.values["config_path"].text == run.pinnedConfig.value)
  }

  // ----- decisions -----

  datatype Input = ResumeCommand | DecisionCommand | ContinueGraph | InitialInput

  datatype Decision = SubmitWith(input: Input) | CloseAs(status: string) | InspectLater | LeaveAlone | Reject

  /** `_resume_recoverable`, after its generation has passed. */
  function RecoverableDecision(row: Row, foreign: bool, run: Identity, reading: Reading): Decision {
    if row.finished || foreign then LeaveAlone
    else
      match reading
      case NoSuchKey => LeaveAlone
      case DatabaseError(transient) => if transient then InspectLater else LeaveAlone
      case OtherError => LeaveAlone
      case Readable(c) =>
        if c.interrupt.Some? then LeaveAlone
        else if TerminalStatus(c).Some? then CloseAs(TerminalStatus(c).value)
        else if c.next != [] then SubmitWith(ContinueGraph)
        else if row.status in PRECHECKPOINT_STATUSES && (c.values == map[] || IsInitialInput(c, run))
        then SubmitWith(InitialInput)
        else LeaveAlone
  }

  /** `_resume_ci_wait` and `_resume_reviewer_recovery_wait`, which differ in the kind they wait for. */
  function WaitDecision(row: Row, foreign: bool, reading: Reading, kind: string): Decision {
    if row.finished || foreign then LeaveAlone
    else
      match Snapshot(reading)
      case None => Reject
      case Some(c) => if c.interrupt == Some(kind) then SubmitWith(ResumeCommand) else LeaveAlone
  }

  /** The operator's `resume`. */
  function ResumeDecision(reading: Reading): Decision {
    match Snapshot(reading)
    case None => Reject
    case Some(c) =>
      match c.interrupt
      case Some(kind) =>
        if kind in {"ci_wait", "reviewer_recovery_wait", "controlled_pause"} then SubmitWith(ResumeCommand) else Reject
      case None => if c.next != [] then SubmitWith(ContinueGraph) else Reject
  }

  /** The operator's `decide`. */
  function DecideDecision(reading: Reading): Decision {
    match Snapshot(reading)
    case None => Reject
    case Some(c) =>
      match c.interrupt
      case Some(kind) =>
        if kind in {"ci_wait", "reviewer_recovery_wait", "controlled_pause"} then Reject
            else SubmitWith(DecisionCommand)
      case None => Reject
  }

  /** The kinds of interrupts that only need time: a machine, or the operator's `resume`, goes on from them. */
  predicate MachineWait(kind: string) {
    kind == "ci_wait" || kind == "reviewer_recovery_wait" || kind == "controlled_pause"
  }

  /** `resume` goes on from a machine's wait or a pause, and from a run that stopped between two nodes; `decide` answers
      every other interrupt. A run that waits can be moved by exactly one of them. */
  lemma OperatorsMoveRuns(reading: Reading)
    ensures var c := if reading.Readable? then reading.checkpoint else EMPTY_CHECKPOINT;
            && (ResumeDecision(reading) == SubmitWith(ResumeCommand) <==>
                c.interrupt.Some? && MachineWait(c.interrupt.value))
            && (ResumeDecision(reading) == SubmitWith(ContinueGraph) <==> c.interrupt.None? && c.next != [])
            && (DecideDecision(reading) == SubmitWith(DecisionCommand) <==>
                c.interrupt.Some? && !MachineWait(c.interrupt.value))
            && (ResumeDecision(reading) in {SubmitWith(ResumeCommand), SubmitWith(ContinueGraph), Reject})
            && (DecideDecision(reading) in {SubmitWith(DecisionCommand), Reject})
  {
  }

  /** The callback of a wait resumes its run exactly when the row is unfinished, nobody else leases it and the
      checkpoint waits for what the callback was set for. */
  lemma WaitsAreResumedIff(row: Row, foreign: bool, reading: Reading, kind: string)
    ensures WaitDecision(row, foreign, reading, kind) == SubmitWith(ResumeCommand) <==>
              && !row.finished && !foreign
              && reading.Readable? && reading.checkpoint.interrupt == Some(kind)
    ensures WaitDecision(row, foreign, reading, kind).SubmitWith? ==>
              WaitDecision(row, foreign, reading, kind).input == ResumeCommand
  {
  }

  /** Every way to submit an existing run. */
  datatype Path = TimerFired | WaitElapsed(kind: string) | OperatorResume | OperatorDecision

  function Decide(path: Path, row: Row, foreign: bool, run: Identity, reading: Reading): Decision {
    match path
    case TimerFired => RecoverableDecision(row, foreign, run, reading)
    case WaitElapsed(kind) => WaitDecision(row, foreign, reading, kind)
    case OperatorResume => ResumeDecision(reading)
    case OperatorDecision => DecideDecision(reading)
  }

  /** The run has come to its end: nothing is pending, and the graph wrote one of the eight terminal statuses. */
  predicate Concluded(c: Checkpoint) {
    && c.interrupt.None? && c.next == []
    && "status" in c.values && c.values["status"].Text?
    && var status := c.values["status"].text;
       || status == "completed" || status == "converged" || status == "failed" || status == "budget_exhausted"
       || status == "no_changes" || status == "spec_changed" || status == "stopped" || status == "ci_pass"
  }

  lemma TerminalStatusIs(c: Checkpoint)
    ensures TerminalStatus(c) == if Concluded(c) then Some(c.values["status"].text) else None
  {
  }

  /** The row of a run that was closed with a status. */
  function ClosedAs(status: string): Row {
    Row(status, Some("done"), true, None, NoExpiry)
  }

  /** A recovery closes a run exactly when its checkpoint could be read and has come to its end, and with the status
      that the graph wrote there; its timer's callback and a restart then write the same row. */
  lemma ClosesAsItsStatus(seen: Row, row: Row, foreign: bool, owner: Owner, now: Time, run: Identity, reading: Reading,
                          status: string)
    requires foreign == ForeignLeaseActive(seen, owner, now)
    ensures RecoverableDecision(seen, foreign, run, reading) == CloseAs(status) <==>
              && !seen.finished && !foreign && reading.Readable? && Concluded(reading.checkpoint)
              && reading.checkpoint.values["status"] == Text(status)
    ensures RecoverableDecision(seen, foreign, run, reading) == CloseAs(status) ==>
              && Restart(seen, foreign, run, reading) == (ClosedAs(status), StopTimer)
              && forall executing, budget ::
                   RecoveryFired(seen, row, executing, owner, now, run, reading, budget)
                   == Fired(ClosedAs(status), KeepTimer, false)
  {
    hide IsInitialInput;
    if reading.Readable? {
      TerminalStatusIs(reading.checkpoint);
    }
  }

  /** The state that `start_run` submits for a run and a configuration file. */
  function Envelope(run: Identity, path: string): Checkpoint {
    Checkpoint(map["project_id" := Text(run.project), "config_path" := Text(path),
                   "run_id" := Text(run.id), "thread_id" := Text(run.thread)], [], None)
  }

  /** The configuration file is named, and is the pinned one if there is one. */
  predicate Names(run: Identity, path: string) {
    path != "" && (run.pinnedConfig.None? || run.pinnedConfig.value == "" || run.pinnedConfig.value == path)
  }

  lemma EnvelopeIsInitial(run: Identity, path: string)
    requires Names(run, path)
    ensures IsInitialInput(Envelope(run, path), run)
  {
    assert |"project_id"| == 10 && |"config_path"| == 11 && |"run_id"| == 6 && |"thread_id"| == 9;
    var values := Envelope(run, path).values;
    assert values.Keys == INITIAL_INPUT_KEYS;
    assert values["project_id"] == Text(run.project) && values["config_path"] == Text(path);
    assert values["run_id"] == Text(run.id) && values["thread_id"] == Text(run.thread);
  }

  /** Exactly the envelopes of this run with a named configuration file, the pinned one if there is one, count as its
      initial input. */
  lemma InitialInputIs(c: Checkpoint, run: Identity)
    ensures IsInitialInput(c, run) <==>
              exists path :: c == Envelope(run, path) && Names(run, path)
  {
    if IsInitialInput(c, run) {
      var path := c.values["config_path"].text;
      assert forall key :: key in c.values ==> key in INITIAL_INPUT_KEYS;
      assert |"project_id"| == 10 && |"config_path"| == 11 && |"run_id"| == 6 && |"thread_id"| == 9;
      assert c.values == Envelope(run, path).values;
      assert c == Envelope(run, path);
    }
    if path :| c == Envelope(run, path) && Names(run, path) {
      EnvelopeIsInitial(run, path);
    }
  }

  /** Each path asks its own question: a timer of a recovery, of a wait, and the operator's two commands. */
  lemma PathsDecide(row: Row, foreign: bool, run: Identity, reading: Reading, kind: string)
    ensures Decide(WaitElapsed(kind), row, foreign, run, reading).SubmitWith? <==>
              !row.finished && !foreign && reading.Readable? && reading.checkpoint.interrupt == Some(kind)
    ensures Decide(TimerFired, row, foreign, run, reading).SubmitWith? ==>
              !row.finished && !foreign && reading.Readable? && reading.checkpoint.interrupt.None?
    ensures Decide(OperatorResume, row, foreign, run, reading) == SubmitWith(DecisionCommand) <==> false
    ensures Decide(OperatorDecision, row, foreign, run, reading).SubmitWith? <==>
              reading.Readable? && reading.checkpoint.interrupt.Some?
              && !MachineWait(reading.checkpoint.interrupt.value)
    ensures Decide(OperatorResume, row, foreign, run, reading).SubmitWith? <==>
              && reading.Readable?
              && if reading.checkpoint.interrupt.Some? then MachineWait(reading.checkpoint.interrupt.value)
                 else reading.checkpoint.next != []
  {
    hide IsInitialInput, TerminalStatus;
    OperatorsMoveRuns(reading);
    WaitsAreResumedIff(row, foreign, reading, kind);
  }

  /** No path submits a run whose checkpoint is terminal or could not be read. The initial input is sent
      again only from an empty checkpoint or the initial envelope, and never by an operator. */
  lemma SubmissionIsSafe(path: Path, row: Row, foreign: bool, run: Identity, reading: Reading)
    requires Decide(path, row, foreign, run, reading).SubmitWith?
    ensures reading.Readable? && TerminalStatus(reading.checkpoint).None?
    ensures Decide(path, row, foreign, run, reading).input.InitialInput? ==>
              && path.TimerFired? && !row.finished && !foreign
              && (reading.checkpoint == EMPTY_CHECKPOINT || IsInitialInput(reading.checkpoint, run))
  {
  }

  /** The initial input may be sent again: nothing, or only the initial envelope, was written before. */
  predicate Restartable(row: Row, run: Identity, c: Checkpoint) {
    row.status in PRECHECKPOINT_STATUSES && (c.values == map[] || IsInitialInput(c, run))
  }

  /** What recovery does with a readable checkpoint that no interrupt holds, on an unfinished row that no
      other controller leases. It leaves exactly those behind that have no terminal status, no next node
      and nothing to restart from. */
  lemma RecoveryMakesProgress(row: Row, run: Identity, c: Checkpoint)
    requires !row.finished && c.interrupt.None?
    ensures RecoverableDecision(row, false, run, Readable(c)).CloseAs? <==> TerminalStatus(c).Some?
    ensures RecoverableDecision(row, false, run, Readable(c)) == SubmitWith(ContinueGraph) <==> c.next != []
    ensures RecoverableDecision(row, false, run, Readable(c)) == SubmitWith(InitialInput) <==>
              c.next == [] && row.status in PRECHECKPOINT_STATUSES && (c.values == map[] || IsInitialInput(c, run))
    ensures RecoverableDecision(row, false, run, Readable(c)) == LeaveAlone <==>
              TerminalStatus(c).None? && c.next == [] && !Restartable(row, run, c)
  {
  }

  /** Such checkpoints exist: a run that stopped between two nodes, and a paused run without a checkpoint. */
  lemma SomeRunsAreLeftBehind(run: Identity)
    ensures var c := Checkpoint(map["status" := Text("planning")], [], None);
            RecoverableDecision(QUEUED, false, run, Readable(c)) == LeaveAlone
    ensures RecoverableDecision(QUEUED.(status := "paused"), false, run, Readable(EMPTY_CHECKPOINT)) == LeaveAlone
  {
    var c := Checkpoint(map["status" := Text("planning")], [], None);
    assert "project_id" !in c.values;
  }

  // ----- restart -----

  datatype TimerAction = KeepTimer | StartTimer(callback: RunTimers.Callback) | StopTimer

  /** `_restore_recoverable_runs` on one unfinished run: its row afterwards and what becomes of its
      timer. */
  function Restart(row: Row, foreign: bool, run: Identity, reading: Reading): (Row, TimerAction) {
    if foreign then (row, KeepTimer)
    else
      match reading
      case NoSuchKey => (row, KeepTimer)
      case OtherError => (row, KeepTimer)
      case DatabaseError(transient) => (row, if transient then StartTimer(RunTimers.Recovery) else KeepTimer)
      case Readable(c) =>
        if c.interrupt.Some? then (row, KeepTimer)
        else if TerminalStatus(c).Some? then
          (Closed(row.(status := TerminalStatus(c).value, node := Some("done"))), StopTimer)
        else if c.next != [] then (row.(status := "recoverable", node := Some(c.next[0])),
            StartTimer(RunTimers.Recovery))
        else if row.status in PRECHECKPOINT_STATUSES && (c.values == map[] || IsInitialInput(c, run))
        then (row.(status := "recoverable", node := Some("start")), StartTimer(RunTimers.Recovery))
        else (row, KeepTimer)
  }

  /** A restart starts a timer for exactly the runs that its callback will submit or inspect again, and
      the row it writes does not change that decision; it closes exactly the runs the callback would
      have closed. */
  lemma RestartAgreesWithTimer(row: Row, foreign: bool, run: Identity, reading: Reading)
    requires !row.finished
    ensures var decision := RecoverableDecision(row, foreign, run, reading);
            var (row', timer) := Restart(row, foreign, run, reading);
            && (timer.StartTimer? <==> decision.SubmitWith? || decision.InspectLater?)
            && (timer.StartTimer? ==>
                  timer.callback.Recovery? && RecoverableDecision(row', foreign, run, reading) == decision)
            && (timer == StopTimer <==> decision.CloseAs?)
            && (timer == StopTimer <==> row'.finished)
            && (timer == KeepTimer ==> row' == row)
            && (decision.SubmitWith? ==>
                  row' == row.(status := "recoverable",
                               node := Some(if reading.checkpoint.next != [] then reading.checkpoint.next[0]
                                   else "start")))
            && (decision.InspectLater? ==> row' == row)
  {
    assert "recoverable" in PRECHECKPOINT_STATUSES;
  }

  // ----- submission -----

  datatype Budget = WithinBudget | Exhausted | BrokenLedger

  datatype Submission = Started | AlreadyExecuting | LeasedElsewhere | ClosedByBudget | Failed

  /** `_submit` on the row, when no local worker is alive. */
  function SubmitRow(row: Row, owner: Owner, now: Time, budget: Budget): (Submission, Row) {
    if row.finished then (LeasedElsewhere, row)
    else if row.expiry.Malformed? then (Failed, row)
    else if HeldByOther(row, owner, now) then (LeasedElsewhere, row)
    else
      var leased := Leased(row, owner, now + RunLeases.LEASE_TTL);
      match budget
      case WithinBudget => (Started, leased.(status := "running"))
      case Exhausted => (ClosedByBudget, Closed(leased.(status := "budget_exhausted", node := Some("done"))))
      case BrokenLedger => (ClosedByBudget, Closed(leased.(status := "failed", node := Some("done"))))
  }

  /** A submission that starts a worker is the `Submit` step of the lease protocol; every other outcome
      leaves the run without a new worker. */
  lemma SubmissionIsLeaseStep(row: Row, owner: Owner, now: Time, budget: Budget, workers: map<Owner, RunLeases.Worker>)
    requires owner !in workers
    ensures var (outcome, row') := SubmitRow(row, owner, now, budget);
            var w := RunLeases.World(now, row, workers);
            var w' := RunLeases.Next(w, RunLeases.Submit(owner));
            && (outcome == Started <==> budget.WithinBudget? && owner in w'.workers)
            && (outcome == Started ==> row' == w'.row.(status := "running"))
            && (outcome == ClosedByBudget ==> row'.finished && row'.owner.None?)
            && (outcome == LeasedElsewhere || outcome == Failed ==> row' == row && w' == w)
  {
  }

  /** What a submission writes: a lease of 120 seconds and the status "running" when it starts a worker; the end of the
      run when its budget is used up or cannot be read; and nothing when the row is finished, leased by another
      controller, or has an unreadable lease column. */
  lemma SubmissionWrites(row: Row, owner: Owner, now: Time, budget: Budget)
    ensures var (outcome, row') := SubmitRow(row, owner, now, budget);
            var taken := row.finished || (row.expiry != Malformed && HeldByOther(row, owner, now));
            && (outcome == LeasedElsewhere <==> taken)
            && (outcome == Failed <==> !row.finished && row.expiry == Malformed)
            && (outcome == Started <==> !taken && row.expiry != Malformed && budget == WithinBudget)
            && (outcome == Started ==> row' == Row("running", row.node, false, Some(owner), At(now + 120.0)))
            && (outcome == ClosedByBudget ==>
                  row' == ClosedAs(if budget == Exhausted then "budget_exhausted" else "failed"))
            && (outcome in {LeasedElsewhere, Failed} ==> row' == row)
            && outcome != AlreadyExecuting
  {
  }

  // ----- callbacks -----

  /** What a callback that passed leaves behind: the row, the run's timer and whether it started a worker. */
  datatype Fired = Fired(row: Row, timer: TimerAction, started: bool)

  /** Submit, and try again later if the run is executing or leased elsewhere (`_retry_after_contention`). */
  function SubmitOrRetry(row: Row, executing: bool, owner: Owner, now: Time, budget: Budget,
      retry: RunTimers.Callback): Fired {
    if executing then Fired(row, StartTimer(retry), false)
    else
      var (outcome, row') := SubmitRow(row, owner, now, budget);
      Fired(row', if outcome == LeasedElsewhere then StartTimer(retry) else KeepTimer, outcome == Started)
  }

  /** `_resume_recoverable`. The guards look at the row as it was `seen`; the claim is made on `row`, which
      another controller may have changed since. */
  function RecoveryFired(seen: Row, row: Row, executing: bool, owner: Owner, now: Time, run: Identity,
                         reading: Reading, budget: Budget): Fired {
    match RecoverableDecision(seen, ForeignLeaseActive(seen, owner, now), run, reading)
    case SubmitWith(_) => SubmitOrRetry(row, executing, owner, now, budget, RunTimers.Recovery)
    case CloseAs(status) => Fired(Closed(row.(status := status, node := Some("done"))), KeepTimer, false)
    case InspectLater => Fired(row, StartTimer(RunTimers.Recovery), false)
    case LeaveAlone => Fired(row, KeepTimer, false)
    case Reject => Fired(row, KeepTimer, false)
  }

  /** The interrupt that a timer's callback resumes. */
  function KindOf(callback: RunTimers.Callback): string {
    match callback
    case CiWait => "ci_wait"
    case ReviewerWait => "reviewer_recovery_wait"
    case Recovery => ""
  }

  /** The retry of a CI wait is a CI wait; that of a reviewer wait is a recovery. */
  function RetryOf(callback: RunTimers.Callback): RunTimers.Callback {
    if callback == RunTimers.CiWait then RunTimers.CiWait else RunTimers.Recovery
  }

  /** `_resume_ci_wait` and `_resume_reviewer_recovery_wait`. A reading that raises ends the callback. */
  function WaitFired(callback: RunTimers.Callback, seen: Row, row: Row, executing: bool, owner: Owner, now: Time,
                     reading: Reading, budget: Budget): Fired {
    match WaitDecision(seen, ForeignLeaseActive(seen, owner, now), reading, KindOf(callback))
    case SubmitWith(_) => SubmitOrRetry(row, executing, owner, now, budget, RetryOf(callback))
    case _ => Fired(row, KeepTimer, false)
  }

  function CallbackFired(callback: RunTimers.Callback, seen: Row, row: Row, executing: bool, owner: Owner, now: Time,
                         run: Identity, reading: Reading, budget: Budget): Fired {
    if callback == RunTimers.Recovery then RecoveryFired(seen, row, executing, owner, now, run, reading, budget)
    else WaitFired(callback, seen, row, executing, owner, now, reading, budget)
  }

  /** What the callback of a wait does: nothing, unless its wait is still there and free to take; then it submits, and
      sets a timer again when the run is executing or leased elsewhere: the same one for a CI wait, a recovery for a
      reviewer's. */
  lemma WaitCallbackDoes(callback: RunTimers.Callback, seen: Row, row: Row, executing: bool, owner: Owner, now: Time,
                         run: Identity, reading: Reading, budget: Budget)
    requires callback != RunTimers.Recovery
    ensures var f := CallbackFired(callback, seen, row, executing, owner, now, run, reading, budget);
            var kind := if callback == RunTimers.CiWait then "ci_wait" else "reviewer_recovery_wait";
            var retry := if callback == RunTimers.CiWait then RunTimers.CiWait else RunTimers.Recovery;
            var goes := !seen.finished && !ForeignLeaseActive(seen, owner, now)
                && reading.Readable? && reading.checkpoint.interrupt == Some(kind);
            var (outcome, row') := SubmitRow(row, owner, now, budget);
            if !goes then f == Fired(row, KeepTimer, false)
            else if executing then f == Fired(row, StartTimer(retry), false)
            else f == Fired(row', if outcome == LeasedElsewhere then StartTimer(retry)
                else KeepTimer, outcome == Started)
  {
    hide SubmitRow, IsInitialInput, TerminalStatus;
  }

  /** What the callback of a recovery does with a run that it may submit, and when it looks again. */
  lemma RecoveryCallbackDoes(seen: Row, row: Row, executing: bool, owner: Owner, now: Time, run: Identity,
                             reading: Reading, budget: Budget)
    ensures var f := CallbackFired(RunTimers.Recovery, seen, row, executing, owner, now, run, reading, budget);
            var decision := RecoverableDecision(seen, ForeignLeaseActive(seen, owner, now), run, reading);
            var (outcome, row') := SubmitRow(row, owner, now, budget);
            && (f.started <==> decision.SubmitWith? && !executing && outcome == Started)
            && (decision.SubmitWith? && !executing ==> f.row == row')
            && (f.timer == StartTimer(RunTimers.Recovery) <==>
                  || decision.InspectLater? || (decision.SubmitWith? && (executing || outcome == LeasedElsewhere)))
            && f.timer in {KeepTimer, StartTimer(RunTimers.Recovery)}
            && (!decision.SubmitWith? && !decision.CloseAs? ==> f.row == row)
            && (decision.SubmitWith? && executing ==> f.row == row)
            && (decision.InspectLater? <==>
                  !seen.finished && !ForeignLeaseActive(seen, owner, now) && reading == DatabaseError(true))
  {
    hide SubmitRow, IsInitialInput, TerminalStatus;
  }

  /** The run is finished, executed by this controller or watched by one of its timers. */
  predicate Attended(f: Fired, executing: bool) {
    f.row.finished || executing || f.started || f.timer.StartTimer?
  }

  /** The reading shows that the run waits for what the callback resumes. */
  predicate ShowsWait(reading: Reading, callback: RunTimers.Callback) {
    reading.Readable? && reading.checkpoint.interrupt == Some(KindOf(callback))
  }

  /** After the callback of a wait has passed, an unfinished run that this controller does not execute has a
      worker or a pending timer, or is closed, exactly when no other controller was seen to lease it, the
      checkpoint could be read and shows the wait, and the lease column parses. */
  lemma WaitIsAttendedIff(callback: RunTimers.Callback, seen: Row, row: Row, executing: bool, owner: Owner, now: Time,
                          reading: Reading, budget: Budget)
    requires callback != RunTimers.Recovery && !row.finished && !seen.finished
    ensures Attended(WaitFired(callback, seen, row, executing, owner, now, reading, budget), executing) <==>
              executing || (!ForeignLeaseActive(seen, owner, now) && ShowsWait(reading, callback)
                  && row.expiry != Malformed)
  {
  }

  /** A waiting run whose timer is a recovery keeps a timer only as long as the checkpoint cannot be read:
      once the wait is seen, the recovery gives the run up. */
  lemma RecoveryDropsWaits(seen: Row, row: Row, executing: bool, owner: Owner, now: Time, run: Identity,
                           reading: Reading, budget: Budget)
    requires !row.finished && !seen.finished && (reading.Readable? ==> reading.checkpoint.interrupt.Some?)
    ensures Attended(RecoveryFired(seen, row, executing, owner, now, run, reading, budget), executing) <==>
              executing || (!ForeignLeaseActive(seen, owner, now) && reading == DatabaseError(true))
  {
  }

  /** One turn of `_restore_ci_waits` or `_restore_reviewer_recovery_waits`, or nothing if reading the
      checkpoint raises, which ends the whole restart. */
  function RestoreWait(row: Row, foreign: bool, reading: Reading, callback: RunTimers.Callback): Option<(Row,
      TimerAction)> {
    if foreign then Some((row, KeepTimer))
    else
      match Snapshot(reading)
      case None => None
      case Some(c) =>
        if c.interrupt == Some(KindOf(callback)) then
          Some((row.(status := if callback == RunTimers.CiWait then "waiting_ci" else "waiting_review",
                     node := Some(KindOf(callback))), StartTimer(callback)))
        else Some((row, KeepTimer))
  }

  /** A restart marks a waiting run that nobody else leases and sets the timer of its wait; every other run it leaves
      alone, and a reading that raises ends the loop. */
  lemma RestoredWaits(row: Row, foreign: bool, reading: Reading, callback: RunTimers.Callback)
    requires callback != RunTimers.Recovery
    ensures var step := RestoreWait(row, foreign, reading, callback);
            var kind := if callback == RunTimers.CiWait then "ci_wait" else "reviewer_recovery_wait";
            && (step.None? <==> !foreign && reading == OtherError)
            && (step.Some? ==>
                  step.value ==
                    if !foreign && reading.Readable? && reading.checkpoint.interrupt == Some(kind) then
                      (row.(status := if callback == RunTimers.CiWait then "waiting_ci" else "waiting_review",
                            node := Some(kind)), StartTimer(callback))
                    else (row, KeepTimer))
  {
  }

  class RunController {
    const owner: Owner
    const registry: ControlRegistry
    const timers: RunTimers.TimerTable
    var workers: set<RunId>

    constructor (owner: Owner, registry: ControlRegistry, timers: RunTimers.TimerTable)
      ensures this.owner == owner && this.registry == registry && this.timers == timers && workers == {}
    {
      this.owner, this.registry, this.timers, workers := owner, registry, timers, {};
    }

    /** `_submit`. */
    method Submit(id: RunId, now: Time, budget: Budget) returns (outcome: Submission)
      requires id in registry.runs
      modifies this, registry
      ensures outcome == if id in old(workers) then AlreadyExecuting
                         else SubmitRow(old(registry.runs)[id], owner, now, budget).0
      ensures registry.runs == if id in old(workers) then old(registry.runs)
                               else old(registry.runs)[id := SubmitRow(old(registry.runs)[id], owner, now, budget).1]
      ensures workers == if outcome == Started then old(workers) + {id} else old(workers)
    {
      if id in workers {
        return AlreadyExecuting;
      }
      ghost var before := registry.runs;
      var claimed := registry.ClaimRunLease(id, owner, now, 120);
      if claimed != Success(true) {
        assert before == before[id := before[id]];
        return if claimed == Success(false) then LeasedElsewhere else Failed;
      }
      match budget
      case WithinBudget =>
        var _ := registry.UpdateRun(id, Some("running"), None, false);
        workers := workers + {id};
        outcome := Started;
      case Exhausted =>
        var _ := registry.UpdateRun(id, Some("budget_exhausted"), Some("done"), true);
        var _ := registry.ReleaseRunLease(id, owner);
        outcome := ClosedByBudget;
      case BrokenLedger =>
        var _ := registry.UpdateRun(id, Some("failed"), Some("done"), true);
        var _ := registry.ReleaseRunLease(id, owner);
        outcome := ClosedByBudget;
    }

    /** `start_run`: create the row and submit the initial input. A new row is never turned away. */
    method StartRun(id: RunId, now: Time, budget: Budget) returns (outcome: Option<Submission>)
      requires id !in workers
      modifies this, registry
      ensures outcome == if id in old(registry.runs) then None
                         else Some(if budget.WithinBudget? then Started else ClosedByBudget)
      ensures outcome.None? ==> registry.runs == old(registry.runs) && workers == old(workers)
      ensures outcome.Some? ==>
                && registry.runs == old(registry.runs)[id := SubmitRow(QUEUED, owner, now, budget).1]
                && workers == if outcome.value == Started then old(workers) + {id} else old(workers)
    {
      var created := registry.CreateRun(id);
      if created.Failure? {
        assert registry.runs == old(registry.runs);
        return None;
      }
      assert registry.runs == old(registry.runs)[id := QUEUED];
      var submitted := Submit(id, now, budget);
      return Some(submitted);
    }

    /** The end of every callback: submit, or start a timer after contention. */
    method TrySubmit(id: RunId, now: Time, budget: Budget, retry: RunTimers.Callback) returns (started: bool)
      requires id in registry.runs
      modifies this, registry, timers
      ensures var f := SubmitOrRetry(old(registry.runs)[id], id in old(workers), owner, now, budget, retry);
              && started == f.started && registry.runs == old(registry.runs)[id := f.row]
              && timers.State() == TimersAfter(old(timers.State()), id, f.timer)
      ensures workers == if started then old(workers) + {id} else old(workers)
    {
      ghost var before := registry.runs;
      assert before == before[id := before[id]];
      var outcome := Submit(id, now, budget);
      if outcome == AlreadyExecuting || outcome == LeasedElsewhere {
        var _ := timers.ReplaceTimer(id, retry);
      }
      started := outcome == Started;
    }

    /** `_resume_recoverable`: the callback of a recovery timer. */
    method ResumeRecoverable(run: Identity, generation: RunTimers.Generation, now: Time, reading: Reading,
        budget: Budget)
        returns (submitted: Option<Input>)
      requires run.id in registry.runs
      modifies this, registry, timers
      ensures submitted.Some? <==>
                var row := old(registry.runs)[run.id];
                var decision := RecoverableDecision(row, ForeignLeaseActive(row, owner, now), run, reading);
                && RunTimers.Valid(old(timers.State()), run.id, generation) && decision.SubmitWith?
                && run.id !in old(workers) && SubmitRow(row, owner, now, budget).0 == Started
      ensures submitted.Some? ==> reading.Readable? && TerminalStatus(reading.checkpoint).None?
      ensures submitted == Some(InitialInput) ==>
                reading.checkpoint == EMPTY_CHECKPOINT || IsInitialInput(reading.checkpoint, run)
      ensures submitted.Some? ==> workers == old(workers) + {run.id}
      ensures submitted.None? ==> workers == old(workers)
      ensures !RunTimers.Valid(old(timers.State()), run.id, generation) ==>
                registry.runs == old(registry.runs) && timers.State() == old(timers.State())
      ensures RunTimers.Valid(old(timers.State()), run.id, generation) ==>
                var row := old(registry.runs)[run.id];
                var f := RecoveryFired(row, row, run.id in old(workers), owner, now, run, reading, budget);
                && registry.runs == old(registry.runs)[run.id := f.row] && (submitted.Some? <==> f.started)
                && timers.State() == TimersAfter(RunTimers.Taken(old(timers.State()), run.id), run.id, f.timer)
      ensures var row := old(registry.runs)[run.id];
              && RunTimers.Valid(old(timers.State()), run.id, generation) && !row.finished
              && !ForeignLeaseActive(row, owner, now) && reading.Readable? && Concluded(reading.checkpoint) ==>
                registry.runs[run.id] == ClosedAs(reading.checkpoint.values["status"].text)
    {
      var row := registry.runs[run.id];
      ghost var before := registry.runs;
      assert before == before[run.id := row];
      if reading.Readable? {
        TerminalStatusIs(reading.checkpoint);
      }
      var passes := timers.TakeTimerGeneration(run.id, generation);
      if !passes {
        return None;
      }
      var foreign := ForeignLeaseActive(row, owner, now);
      var decision := RecoverableDecision(row, foreign, run, reading);
      match decision
      case LeaveAlone => return None;
      case Reject => return None;
      case InspectLater =>
        var _ := timers.ReplaceTimer(run.id, RunTimers.Recovery);
        return None;
      case CloseAs(status) =>
        var _ := registry.UpdateRun(run.id, Some(status), Some("done"), true);
        return None;
      case SubmitWith(input) =>
        SubmissionIsSafe(TimerFired, row, foreign, run, reading);
        var started := TrySubmit(run.id, now, budget, RunTimers.Recovery);
        return if started then Some(input) else None;
    }

    /** `_resume_ci_wait` and `_resume_reviewer_recovery_wait`. */
    method ResumeWait(callback: RunTimers.Callback, id: RunId, generation: RunTimers.Generation, now: Time,
        reading: Reading,
                      budget: Budget) returns (started: bool)
      requires id in registry.runs && callback != RunTimers.Recovery
      modifies this, registry, timers
      ensures workers == if started then old(workers) + {id} else old(workers)
      ensures !RunTimers.Valid(old(timers.State()), id, generation) ==>
                !started && registry.runs == old(registry.runs) && timers.State() == old(timers.State())
      ensures RunTimers.Valid(old(timers.State()), id, generation) ==>
                var row := old(registry.runs)[id];
                var f := WaitFired(callback, row, row, id in old(workers), owner, now, reading, budget);
                && started == f.started && registry.runs == old(registry.runs)[id := f.row]
                && timers.State() == TimersAfter(RunTimers.Taken(old(timers.State()), id), id, f.timer)
    {
      var row := registry.runs[id];
      ghost var before := registry.runs;
      assert before == before[id := row];
      var passes := timers.TakeTimerGeneration(id, generation);
      if !passes {
        return false;
      }
      if row.finished || ForeignLeaseActive(row, owner, now) {
        return false;
      }
      var snapshot := Snapshot(reading);
      if snapshot.None? || snapshot.value.interrupt != Some(KindOf(callback)) {
        return false;
      }
      started := TrySubmit(id, now, budget, RetryOf(callback));
    }

    /** `_restore_ci_waits` or `_restore_reviewer_recovery_waits`: an unreadable checkpoint ends the loop. */
    method RestoreWaits(callback: RunTimers.Callback, records: seq<Identity>, now: Time, readings: RunId -> Reading)
        returns (completed: bool)
      requires forall i :: 0 <= i < |records| ==> records[i].id in registry.runs
      modifies registry, timers
      ensures (Ledger(registry.runs, timers.State()), completed) ==
                RestoreWaitsAll(callback, records, Ledger(old(registry.runs), old(timers.State())), owner, now,
                    readings)
    {
      hide RestoreWait, ForeignLeaseActive, TimersAfter;
      completed := true;
      for i := 0 to |records|
        invariant completed && registry.runs.Keys == old(registry.runs).Keys
        invariant (Ledger(registry.runs, timers.State()), true) ==
                    RestoreWaitsAll(callback, records[..i], Ledger(old(registry.runs), old(timers.State())), owner,
                        now, readings)
      {
        var id := records[i].id;
        assert records[..i + 1][..i] == records[..i];
        completed := RestoreOneWait(callback, id, now, readings(id));
        if !completed {
          WaitsStop(callback, records, i + 1, Ledger(old(registry.runs), old(timers.State())), owner, now, readings);
          return;
        }
      }
      assert records[..|records|] == records;
    }

    method RestoreOneWait(callback: RunTimers.Callback, id: RunId, now: Time, reading: Reading)
        returns (completed: bool)
      requires id in registry.runs
      modifies registry, timers
      ensures var step := RestoreWait(old(registry.runs)[id], ForeignLeaseActive(old(registry.runs)[id], owner, now),
                reading, callback);
              && (completed <==> step.Some?)
              && registry.runs == (if completed then old(registry.runs)[id := step.value.0] else old(registry.runs))
              && timers.State() == (if completed then TimersAfter(old(timers.State()), id, step.value.1)
                  else old(timers.State()))
    {
      var row := registry.runs[id];
      ghost var before := registry.runs;
      assert before == before[id := row];
      if ForeignLeaseActive(row, owner, now) {
        return true;
      }
      var snapshot := Snapshot(reading);
      if snapshot.None? {
        return false;
      }
      if snapshot.value.interrupt == Some(KindOf(callback)) {
        var status := if callback == RunTimers.CiWait then "waiting_ci" else "waiting_review";
        var _ := registry.UpdateRun(id, Some(status), Some(KindOf(callback)), false);
        var _ := timers.ReplaceTimer(id, callback);
      }
      return true;
    }

    /** The body of the loop of `_restore_recoverable_runs`. */
    method RestoreRun(run: Identity, now: Time, reading: Reading)
      requires run.id in registry.runs
      modifies registry, timers
      ensures var row := old(registry.runs)[run.id];
              var (row', action) := Restart(row, ForeignLeaseActive(row, owner, now), run, reading);
              && registry.runs == old(registry.runs)[run.id := row']
              && timers.State() == TimersAfter(old(timers.State()), run.id, action)
      ensures !ForeignLeaseActive(old(registry.runs)[run.id], owner, now) && reading.Readable?
              && Concluded(reading.checkpoint) ==>
                registry.runs[run.id] == ClosedAs(reading.checkpoint.values["status"].text)
    {
      var row := registry.runs[run.id];
      ghost var before := registry.runs;
      assert before == before[run.id := row];
      if reading.Readable? {
        TerminalStatusIs(reading.checkpoint);
      }
      if ForeignLeaseActive(row, owner, now) {
        return;
      }
      match reading
      case NoSuchKey => return;
      case OtherError => return;
      case DatabaseError(transient) =>
        if transient {
          var _ := timers.ReplaceTimer(run.id, RunTimers.Recovery);
        }
        return;
      case Readable(c) =>
        if c.interrupt.Some? {
          return;
        }
        var terminal := TerminalStatus(c);
        if terminal.Some? {
          var _ := registry.UpdateRun(run.id, Some(terminal.value), Some("done"), true);
          timers.CancelTimer(run.id);
          return;
        }
        var node;
        if c.next != [] {
          node := c.next[0];
        } else if row.status in PRECHECKPOINT_STATUSES && (c.values == map[] || IsInitialInput(c, run)) {
          node := "start";
        } else {
          return;
        }
        var _ := registry.UpdateRun(run.id, Some("recoverable"), Some(node), false);
        var _ := timers.ReplaceTimer(run.id, RunTimers.Recovery);
    }

    /** `_restore_recoverable_runs`: `records` are the unfinished runs. */
    method RestoreRecoverableRuns(records: seq<Identity>, now: Time, readings: RunId -> Reading)
      requires forall i :: 0 <= i < |records| ==> records[i].id in registry.runs
      modifies registry, timers
      ensures Ledger(registry.runs, timers.State()) ==
                RestartAll(records, Ledger(old(registry.runs), old(timers.State())), owner, now, readings)
    {
      hide Restart, ForeignLeaseActive, TimersAfter;
      for i := 0 to |records|
        invariant registry.runs.Keys == old(registry.runs).Keys
        invariant Ledger(registry.runs, timers.State()) ==
                    RestartAll(records[..i], Ledger(old(registry.runs), old(timers.State())), owner, now, readings)
      {
        RestoreRun(records[i], now, readings(records[i].id));
        assert records[..i + 1][..i] == records[..i];
      }
      assert records[..|records|] == records;
    }
  }

  /** The rows and the timers. */
  datatype Ledger = Ledger(runs: map<RunId, Row>, timers: RunTimers.Table)

  /** The restart of the waits of one kind: the rows and timers, and whether it reached the end. */
  function RestoreWaitsAll(callback: RunTimers.Callback, records: seq<Identity>, l: Ledger, owner: Owner, now: Time,
                           readings: RunId -> Reading): (Ledger, bool) {
    if records == [] then (l, true)
    else
      var (before, completed) := RestoreWaitsAll(callback, records[..|records| - 1], l, owner, now, readings);
      var id := records[|records| - 1].id;
      if !completed || id !in before.runs then (before, completed)
      else
        match RestoreWait(before.runs[id], ForeignLeaseActive(before.runs[id], owner, now), readings(id), callback)
        case None => (before, false)
        case Some(step) => (Ledger(before.runs[id := step.0], TimersAfter(before.timers, id, step.1)), true)
  }

  /** A loop that has stopped leaves the remaining records alone. */
  lemma {:induction false} WaitsStop(callback: RunTimers.Callback, records: seq<Identity>, i: nat, l: Ledger,
      owner: Owner, now: Time,
                                     readings: RunId -> Reading)
    requires i <= |records| && !RestoreWaitsAll(callback, records[..i], l, owner, now, readings).1
    ensures RestoreWaitsAll(callback, records, l, owner, now, readings)
              == RestoreWaitsAll(callback, records[..i], l, owner, now, readings)
    decreases |records|
  {
    hide RestoreWait, ForeignLeaseActive, TimersAfter;
    if i == |records| {
      assert records[..i] == records;
    } else {
      var init := records[..|records| - 1];
      assert init[..i] == records[..i];
      WaitsStop(callback, init, i, l, owner, now, readings);
    }
  }

  function RestartOne(run: Identity, l: Ledger, owner: Owner, now: Time, reading: Reading): Ledger {
    if run.id !in l.runs then l
    else
      var (row, action) := Restart(l.runs[run.id], ForeignLeaseActive(l.runs[run.id], owner, now), run, reading);
      Ledger(l.runs[run.id := row], TimersAfter(l.timers, run.id, action))
  }

  function RestartAll(records: seq<Identity>, l: Ledger, owner: Owner, now: Time, readings: RunId -> Reading): Ledger {
    if records == [] then l
    else
      var run := records[|records| - 1];
      RestartOne(run, RestartAll(records[..|records| - 1], l, owner, now, readings), owner, now, readings(run.id))
  }

  /** One turn of the restart writes the row and the timer that `Restart` decides on. */
  lemma RestartOneWrites(run: Identity, l: Ledger, owner: Owner, now: Time, reading: Reading)
    requires run.id in l.runs
    ensures var (row, action) := Restart(l.runs[run.id], ForeignLeaseActive(l.runs[run.id], owner, now), run, reading);
            var l' := RestartOne(run, l, owner, now, reading);
            l'.runs[run.id] == row && l'.timers == TimersAfter(l.timers, run.id, action)
  {
    hide Restart, TimersAfter;
  }

  lemma RestartOneLeavesOthers(run: Identity, l: Ledger, owner: Owner, now: Time, reading: Reading, id: RunId)
    requires id != run.id
    ensures SameRun(RestartOne(run, l, owner, now, reading), l, id)
  {
    hide Restart;
  }

  /** A restart treats every unfinished run by itself, and leaves the others alone. */
  lemma {:induction false} RestartsAreIndependent(records: seq<Identity>, l: Ledger, owner: Owner, now: Time,
                                                  readings: RunId -> Reading, id: RunId)
    requires forall i, j :: 0 <= i < j < |records| ==> records[i].id != records[j].id
    ensures forall run :: run in records && run.id == id ==>
              SameRun(RestartAll(records, l, owner, now, readings), RestartOne(run, l, owner, now, readings(id)), id)
    ensures (forall run :: run in records ==> run.id != id) ==>
              SameRun(RestartAll(records, l, owner, now, readings), l, id)
  {
    hide RestartOne, SameRun;
    if records == [] {
      SameAsItself(l, id);
    } else {
      var init, last := records[..|records| - 1], records[|records| - 1];
      RestartsAreIndependent(init, l, owner, now, readings, id);
      var before := RestartAll(init, l, owner, now, readings);
      if last.id == id {
        forall run | run in init ensures run.id != id {
          var i :| 0 <= i < |init| && init[i] == run;
          assert records[i].id != records[|records| - 1].id;
        }
        SameBefore(last, before, l, owner, now, readings(id), id);
      } else {
        RestartOneLeavesOthers(last, before, owner, now, readings(last.id), id);
        SameIsTransitive(RestartAll(records, l, owner, now, readings), before, id);
      }
      assert forall run :: run in records ==> run == last || run in init;
      assert last in records;
    }
  }

  lemma SameAsItself(l: Ledger, id: RunId)
    ensures SameRun(l, l, id)
  {
  }

  lemma SameBefore(run: Identity, a: Ledger, b: Ledger, owner: Owner, now: Time, reading: Reading, id: RunId)
    requires SameRun(a, b, id) && run.id == id
    ensures SameRun(RestartOne(run, a, owner, now, reading), RestartOne(run, b, owner, now, reading), id)
  {
    hide Restart;
  }

  lemma SameIsTransitive(a: Ledger, b: Ledger, id: RunId)
    requires SameRun(a, b, id)
    ensures forall c :: SameRun(b, c, id) ==> SameRun(a, c, id)
  {
  }

  /** The timers of one run after a restart has looked at it. */
  function TimersAfter(t: RunTimers.Table, id: RunId, action: TimerAction): RunTimers.Table {
    match action
    case KeepTimer => t
    case StartTimer(callback) => RunTimers.Replaced(t, id, callback)
    case StopTimer => RunTimers.Cancelled(t, id)
  }

  /** The ledgers agree on one run. */
  predicate SameRun(a: Ledger, b: Ledger, id: RunId) {
    && (id in a.runs <==> id in b.runs) && (id in a.runs ==> a.runs[id] == b.runs[id])
    && (id in a.timers.timers <==> id in b.timers.timers)
        && (id in a.timers.timers ==> a.timers.timers[id] == b.timers.timers[id])
    && (id in a.timers.generations <==> id in b.timers.generations)
    && (id in a.timers.generations ==> a.timers.generations[id] == b.timers.generations[id])
  }

  /** A restart of the waits that reaches its end treats every run by itself, and leaves the others alone. */
  lemma {:induction false} WaitsAreIndependent(callback: RunTimers.Callback, records: seq<Identity>, l: Ledger,
                                               owner: Owner, now: Time, readings: RunId -> Reading, id: RunId)
    requires forall i, j :: 0 <= i < j < |records| ==> records[i].id != records[j].id
    requires forall i :: 0 <= i < |records| ==> records[i].id in l.runs
    requires RestoreWaitsAll(callback, records, l, owner, now, readings).1
    ensures var after := RestoreWaitsAll(callback, records, l, owner, now, readings).0;
            && after.runs.Keys == l.runs.Keys
            && if exists i :: 0 <= i < |records| && records[i].id == id then
                 var step := RestoreWait(l.runs[id], ForeignLeaseActive(l.runs[id], owner, now), readings(id),
                     callback);
                 && step.Some?
                 && SameRun(after, Ledger(l.runs[id := step.value.0], TimersAfter(l.timers, id, step.value.1)), id)
               else SameRun(after, l, id)
  {
    hide RestoreWait, ForeignLeaseActive, SameRun, TimersAfter;
    if records == [] {
      SameAsItself(l, id);
    } else {
      var init, last := records[..|records| - 1], records[|records| - 1];
      WaitsAreIndependent(callback, init, l, owner, now, readings, id);
      WaitsAreIndependent(callback, init, l, owner, now, readings, last.id);
      var before := RestoreWaitsAll(callback, init, l, owner, now, readings).0;
      assert records[|records| - 1].id == last.id;
      assert !exists i :: 0 <= i < |init| && init[i].id == last.id;
      assert (exists i :: 0 <= i < |records| && records[i].id == id) <==>
             id == last.id || exists i :: 0 <= i < |init| && init[i].id == id;
      var row := before.runs[last.id];
      var step := RestoreWait(row, ForeignLeaseActive(row, owner, now), readings(last.id), callback);
      OneWaitOnly(before, l, last.id, step.value.0, step.value.1, id);
    }
  }

  /** The restart of the waits reaches its end when no reading raises. */
  lemma {:induction false} WaitsComplete(callback: RunTimers.Callback, records: seq<Identity>, l: Ledger, owner: Owner,
                                         now: Time, readings: RunId -> Reading)
    requires callback != RunTimers.Recovery
    requires forall i :: 0 <= i < |records| ==> records[i].id in l.runs && readings(records[i].id) != OtherError
    ensures RestoreWaitsAll(callback, records, l, owner, now, readings).1
    ensures RestoreWaitsAll(callback, records, l, owner, now, readings).0.runs.Keys == l.runs.Keys
  {
    hide RestoreWait, ForeignLeaseActive, TimersAfter;
    if records != [] {
      var init, id := records[..|records| - 1], records[|records| - 1].id;
      WaitsComplete(callback, init, l, owner, now, readings);
      var row := RestoreWaitsAll(callback, init, l, owner, now, readings).0.runs[id];
      RestoredWaits(row, ForeignLeaseActive(row, owner, now), readings(id), callback);
    }
  }

  /** Writing the row and the timer of one run, on two ledgers that agree on that run. */
  lemma OneWaitOnly(a: Ledger, b: Ledger, written: RunId, row: Row, action: TimerAction, id: RunId)
    requires SameRun(a, b, written) && written in b.runs
    ensures a.runs[written] == b.runs[written]
    ensures var a' := Ledger(a.runs[written := row], TimersAfter(a.timers, written, action));
            if id == written then SameRun(a', Ledger(b.runs[id := row], TimersAfter(b.timers, id, action)), id)
            else forall c :: SameRun(a, c, id) ==> SameRun(a', c, id)
  {
  }

  /** A restarted timer is a new generation of its run's timer with the wanted callback; a stopped one is gone. Timers
      of other runs stay. */
  lemma TimersAre(t: RunTimers.Table, id: RunId, action: TimerAction)
    ensures var t' := TimersAfter(t, id, action);
            && (action == KeepTimer ==> t' == t)
            && (action.StartTimer? ==>
                  && id in t'.timers && t'.timers[id].callback == action.callback
                  && t'.timers[id].generation == RunTimers.Current(t', id) == RunTimers.Current(t, id) + 1)
            && (action == StopTimer ==> id !in t'.timers && RunTimers.Current(t', id) == RunTimers.Current(t, id) + 1)
            && forall other :: other != id ==>
                 && (other in t'.timers <==> other in t.timers)
                 && (other in t.timers ==> t'.timers[other] == t.timers[other])
                 && RunTimers.Current(t', other) == RunTimers.Current(t, other)
    ensures RunTimers.Taken(t, id).timers == t.timers - {id} && RunTimers.Taken(t, id).generations == t.generations
  {
  }
}
