/**
 Whether a run that waits for CI or for a reviewer is ever forgotten by its controller
 (`runtime_service.py`, lines 118-122, 163-186, 202-297, 370-449 and 468-608; `runtime.py`, lines 265-304).
 One controller's worker and
 timer for one run, over every history; other controllers may change the row at any time.
 */
module RunWaits {
  import opened Wrappers
  import opened RunRegistry
  import opened RunTimers
  import opened RunRecovery
  import RunHistories

  /** `timer` is the pending timer of the current generation; a superseded one does nothing. */
  datatype World = World(now: Time, row: Row, checkpoint: Checkpoint, executing: bool, timer: Option<Callback>)

  datatype Event =
    | Tick(elapsed: Time)
    | Others(row: Row)                                        // other controllers write the row
    | Advance(checkpoint: Checkpoint)                         // the graph writes its next checkpoint
    | Elapse(seen: Row, reading: Reading, budget: Budget)       // the pending timer's callback passes
    | End(failed: bool, reading: Reading)                     // the worker ends and looks at the checkpoint
    | Die                                                     // the process is gone, with worker and timers
    | Restarted(ci: Reading, reviewer: Reading, recovery: Reading)
    | Resume(reading: Reading, budget: Budget)                // the operator resumes
    | View(reading: Reading)                                  // the operator asks for the status

  /** The run whose histories these are, and its controller. */
  datatype Setting = Setting(me: Owner, run: Identity)

  function TimerAfter(timer: Option<Callback>, action: TimerAction): Option<Callback> {
    match action
    case KeepTimer => timer
    case StartTimer(callback) => Some(callback)
    case StopTimer => None
  }

  predicate Honest(w: World, reading: Reading) {
    reading.Readable? ==> reading.checkpoint == w.checkpoint
  }

  /** What the row could have been when a callback looked at it: finished rows stay finished. */
  predicate Plausible(w: World, seen: Row) {
    seen.finished ==> w.row.finished
  }

  /** The timer that `_execute` and the operator's `resume` start for a checkpoint. */
  function WaitTimer(c: Checkpoint): Option<Callback> {
    if c.interrupt == Some(KindOf(CiWait)) then Some(CiWait)
    else if c.interrupt == Some(KindOf(ReviewerWait)) then Some(ReviewerWait)
    else None
  }

  function Ended(s: Setting, w: World, failed: bool, reading: Reading): World {
    var row := RunHistories.EndRow(w.row, w.checkpoint, s.me, failed);
    var ended := w.(row := row, executing := false);
    if row.finished then ended.(timer := None)
    else
      match Snapshot(reading)
      case None => ended
      case Some(c) =>
        if WaitTimer(c).Some? then ended.(timer := WaitTimer(c))
        else if c.interrupt.None? && c.next != [] then ended.(timer := Some(Recovery))
        else ended.(timer := None)
  }

  /** One of the two loops over waits; None if reading the checkpoint raises. */
  function WaitRestored(s: Setting, w: World, callback: Callback, reading: Reading): Option<World> {
    match RestoreWait(w.row, ForeignLeaseActive(w.row, s.me, w.now), reading, callback)
    case None => None
    case Some(step) => Some(w.(row := step.0, timer := TimerAfter(w.timer, step.1)))
  }

  /** The three loops of `restore_durable_runs`. */
  function AllRestored(s: Setting, w: World, ci: Reading, reviewer: Reading, recovery: Reading): World {
    if w.row.finished then w
    else
      match WaitRestored(s, w, CiWait, ci)
      case None => w
      case Some(w1) =>
        match WaitRestored(s, w1, ReviewerWait, reviewer)
        case None => w1
        case Some(w2) =>
          var (row, action) := Restart(w2.row, ForeignLeaseActive(w2.row, s.me, w2.now), s.run, recovery);
          w2.(row := row, timer := TimerAfter(w2.timer, action))
  }

  /** The operator's `resume`: a submission cancels the timer, a failed one of a machine wait restarts it. */
  function Resumed(s: Setting, w: World, reading: Reading, budget: Budget): World {
    if !ResumeDecision(reading).SubmitWith? then w
    else
      var wait := WaitTimer(Snapshot(reading).value);
      var (outcome, row) := if w.executing then (AlreadyExecuting, w.row) else SubmitRow(w.row, s.me, w.now, budget);
      if outcome == Started || outcome == ClosedByBudget then
        w.(row := row, executing := outcome == Started, timer := None)
      else if wait.Some? then w.(timer := wait) else w
  }

  /** The status that a view writes first. */
  function ViewedStatus(row: Row, c: Checkpoint, idle: bool): string {
    if c.interrupt.Some? then (if c.interrupt.value == "controlled_pause" then "paused" else "interrupted")
    else if c.next != [] then (if idle && row.status in {"queued", "running"} then "recoverable" else row.status)
    else if c.values != map[] && idle && "status" in c.values && c.values["status"].Text? then c.values["status"].text
    else row.status
  }

  /** `status`: it reconciles the row, and restarts the timer of a run that nobody executes. */
  function Viewed(s: Setting, w: World, reading: Reading): World {
    match Snapshot(reading)
    case None => w
    case Some(c) =>
      var idle := !w.executing && !ForeignLeaseActive(w.row, s.me, w.now);
      var node := if c.next != [] then c.next[0] else if w.row.node.Some? then w.row.node.value else "done";
      var row := w.row.(status := ViewedStatus(w.row, c, idle), node := Some(node));
      if TerminalStatus(c).Some? && idle && !row.finished then
        w.(row := Closed(row.(status := TerminalStatus(c).value, node := Some("done"))), timer := None)
      else if WaitTimer(c).Some? then
        var wait := WaitTimer(c).value;
        w.(row := row.(status := if wait == CiWait then "waiting_ci" else "waiting_review", node := Some(KindOf(wait))),
           timer := if idle then Some(wait) else w.timer)
      else if c.interrupt.None? && c.next != [] && idle && !row.finished then
        w.(row := row.(status := "recoverable", node := Some(c.next[0])), timer := Some(Recovery))
      else if idle && !row.finished && row.status in PRECHECKPOINT_STATUSES && IsInitialInput(c, s.run) then
        w.(row := row.(status := "recoverable", node := Some("start")), timer := Some(Recovery))
      else w.(row := row)
  }

  function Next(s: Setting, w: World, e: Event): World {
    match e
    case Tick(elapsed) => if elapsed >= 0.0 then w.(now := w.now + elapsed) else w
    case Others(row) => if w.row.finished && !row.finished then w else w.(row := row)
    case Advance(c) => if w.executing then w.(checkpoint := c) else w
    case Elapse(seen, reading, budget) =>
      if w.timer.None? || !Honest(w, reading) || !Plausible(w, seen) then w
      else
        var f := CallbackFired(w.timer.value, seen, w.row, w.executing, s.me, w.now, s.run, reading, budget);
        w.(row := f.row, executing := w.executing || f.started, timer := TimerAfter(None, f.timer))
    case End(failed, reading) => if w.executing && Honest(w, reading) then Ended(s, w, failed, reading) else w
    case Die => w.(executing := false, timer := None)
    case Restarted(ci, reviewer, recovery) =>
      if Honest(w, ci) && Honest(w, reviewer)
          && Honest(w, recovery) then AllRestored(s, w, ci, reviewer, recovery) else w
    case Resume(reading, budget) => if Honest(w, reading) then Resumed(s, w, reading, budget) else w
    case View(reading) => if Honest(w, reading) then Viewed(s, w, reading) else w
  }

  function After(s: Setting, w: World, events: seq<Event>): World {
    if events == [] then w else Next(s, After(s, w, events[..|events| - 1]), events[|events| - 1])
  }

  // ----- what it means to be watched -----

  /** The run is unfinished and its checkpoint waits for CI or a reviewer. */
  predicate Waiting(w: World) {
    !w.row.finished && WaitTimer(w.checkpoint).Some?
  }

  /** A waiting run is executed here or has the timer that will resume it. */
  predicate Watched(w: World) {
    Waiting(w) ==> w.executing || w.timer == WaitTimer(w.checkpoint)
  }

  /** The callback of a wait will not lose the run: no foreign lease was seen, the checkpoint can be read, the
      lease column parses and, for a reviewer wait, nobody took the lease in between. */
  predicate CallbackGoesOn(s: Setting, w: World, seen: Row, reading: Reading) {
    && !ForeignLeaseActive(seen, s.me, w.now) && reading.Readable? && w.row.expiry != Malformed
    && (w.timer == Some(ReviewerWait) ==> !HeldByOther(w.row, s.me, w.now))
  }

  /** The worker's last look at the checkpoint keeps a timer: it can be read, or it raises before the timer is
      touched and the right one is pending already. */
  predicate EndGoesOn(w: World, reading: Reading) {
    reading.Readable? || (reading == OtherError && w.timer == WaitTimer(w.checkpoint))
  }

  /** A restart of a watched run goes wrong only if it gets as far as the third loop and that loop finds the
      database busy: it replaces the timer of the wait by a recovery. */
  predicate RestartGoesOn(s: Setting, w: World, ci: Reading, reviewer: Reading, recovery: Reading) {
    || ForeignLeaseActive(w.row, s.me, w.now) || ci == OtherError || reviewer == OtherError
        || recovery != DatabaseError(true)
  }

  /** The condition, per event, under which a watched run stays watched. */
  predicate GoesOn(s: Setting, w: World, e: Event) {
    !Waiting(w)
    || match e
       case Elapse(seen, reading, budget) =>
         w.executing || !Honest(w, reading) || !Plausible(w, seen) || CallbackGoesOn(s, w, seen, reading)
       case End(failed, reading) => !w.executing || !Honest(w, reading) || failed || EndGoesOn(w, reading)
       case Die => false
       case Restarted(ci, reviewer, recovery) =>
         w.executing || !Honest(w, ci) || !Honest(w, reviewer) || !Honest(w, recovery)
         || RestartGoesOn(s, w, ci, reviewer, recovery)
       case _ => true
  }

  /** A look at a run that has come to its end, with nobody executing it, closes it with the status the graph wrote. */
  lemma ViewClosesAsItsStatus(s: Setting, w: World)
    requires !w.executing && !w.row.finished && !ForeignLeaseActive(w.row, s.me, w.now) && Concluded(w.checkpoint)
    ensures Next(s, w, View(Readable(w.checkpoint))) ==
              w.(row := ClosedAs(w.checkpoint.values["status"].text), timer := None)
  {
    TerminalStatusIs(w.checkpoint);
  }

  // ----- what the events do -----

  /** The timer a waiting run needs. */
  lemma WaitTimerIs(c: Checkpoint)
    ensures WaitTimer(c) == Some(CiWait) <==> c.interrupt == Some("ci_wait")
    ensures WaitTimer(c) == Some(ReviewerWait) <==> c.interrupt == Some("reviewer_recovery_wait")
    ensures WaitTimer(c) != Some(Recovery)
  {
  }

  /** What a worker leaves at its end: a closed run has no timer; else the checkpoint, as far as it can be read, decides
      between the timer of its wait, a recovery for pending nodes and none; a reading that raises keeps what
      there is. */
  lemma EndLeaves(s: Setting, w: World, failed: bool, reading: Reading)
    requires w.executing && Honest(w, reading)
    ensures var w' := Next(s, w, End(failed, reading));
            var row := RunHistories.EndRow(w.row, w.checkpoint, s.me, failed);
            && w'.now == w.now && w'.row == row && w'.checkpoint == w.checkpoint && !w'.executing
            && w'.timer ==
               if row.finished then None
               else if reading == OtherError then w.timer
               else if !reading.Readable? then None
               else if w.checkpoint.interrupt.Some? then WaitTimer(w.checkpoint)
               else if w.checkpoint.next != [] then Some(Recovery)
               else None
  {
    hide RunHistories.EndRow;
  }

  /** Nobody executes the run, no other controller leases it, and it is not finished. */
  predicate Idle(s: Setting, w: World) {
    !w.executing && !w.row.finished && !ForeignLeaseActive(w.row, s.me, w.now)
  }

  /** A look at an idle run that waits, has a next node, has come to its end or is at its initial input leaves the same
      row and the same timer as a restart of the controller. */
  lemma ViewAgreesWithRestart(s: Setting, w: World)
    requires Idle(s, w)
    requires var c := w.checkpoint;
             || WaitTimer(c).Some? || (c.interrupt.None? && c.next != []) || Concluded(c)
             || (IsInitialInput(c, s.run) && w.row.status in PRECHECKPOINT_STATUSES)
    ensures var seen := Readable(w.checkpoint);
            Next(s, w, View(seen)) == Next(s, w, Restarted(seen, seen, seen))
  {
    TerminalStatusIs(w.checkpoint);
    if IsInitialInput(w.checkpoint, s.run) {
      assert "status" !in w.checkpoint.values;
    }
  }

  /** What a restart makes of an idle run whose checkpoint can be read. */
  lemma RestartWrites(s: Setting, w: World)
    requires Idle(s, w)
    ensures var c, seen := w.checkpoint, Readable(w.checkpoint);
            var w' := Next(s, w, Restarted(seen, seen, seen));
            && (c.interrupt == Some("ci_wait") ==>
                  w' == w.(row := w.row.(status := "waiting_ci", node := Some("ci_wait")), timer := Some(CiWait)))
            && (c.interrupt == Some("reviewer_recovery_wait") ==>
                  w' == w.(row := w.row.(status := "waiting_review", node := Some("reviewer_recovery_wait")),
                           timer := Some(ReviewerWait)))
            && (c.interrupt.None? && c.next != [] ==>
                  w' == w.(row := w.row.(status := "recoverable", node := Some(c.next[0])), timer := Some(Recovery)))
            && (Concluded(c) ==> w' == w.(row := ClosedAs(c.values["status"].text), timer := None))
            && (c.interrupt.None? && c.next == [] && Restartable(w.row, s.run, c) && !Concluded(c) ==>
                  w' == w.(row := w.row.(status := "recoverable", node := Some("start")), timer := Some(Recovery)))
            && (c.interrupt.Some? && WaitTimer(c).None? ==> w' == w)
  {
    hide IsInitialInput;
    TerminalStatusIs(w.checkpoint);
  }

  /** What a look at a run writes otherwise: nothing but the status and the node it shows. A run that somebody executes
      or leases keeps its own status while nodes are pending or after its end. */
  lemma ViewShows(s: Setting, w: World)
    ensures var c := w.checkpoint;
            var w' := Next(s, w, View(Readable(c)));
            var node := if c.next != [] then c.next[0] else if w.row.node.Some? then w.row.node.value else "done";
            && (c.interrupt.Some? && WaitTimer(c).None? ==>
                  w' == w.(row := w.row.(status := if c.interrupt == Some("controlled_pause") then "paused"
                                                   else "interrupted", node := Some(node))))
            && (WaitTimer(c).Some? ==>
                  && w'.row == w.row.(status := if c.interrupt == Some("ci_wait") then "waiting_ci"
                      else "waiting_review",
                                      node := c.interrupt)
                  && w'.timer == if w.executing || ForeignLeaseActive(w.row, s.me, w.now) then w.timer
                      else WaitTimer(c))
            && (c.interrupt.None? && (w.executing || ForeignLeaseActive(w.row, s.me, w.now)) ==>
                  w' == w.(row := w.row.(node := Some(node))))
            && w'.now == w.now && w'.checkpoint == c && w'.executing == w.executing
            && (w'.row.finished <==>
                  || w.row.finished
                  || (!w.executing && !ForeignLeaseActive(w.row, s.me, w.now) && Concluded(c)))
  {
    hide IsInitialInput;
    TerminalStatusIs(w.checkpoint);
  }

  /** A look at an idle run without an interrupt or a next node that has not come to its end: it shows the status the
      graph wrote, if it wrote one, and restarts only the initial input. */
  lemma ViewOfTheRest(s: Setting, w: World)
    requires Idle(s, w) && w.checkpoint.interrupt.None? && w.checkpoint.next == [] && !Concluded(w.checkpoint)
    ensures var c := w.checkpoint;
            var w' := Next(s, w, View(Readable(c)));
            && (IsInitialInput(c, s.run) && w.row.status in PRECHECKPOINT_STATUSES ==>
                  w' == w.(row := w.row.(status := "recoverable", node := Some("start")), timer := Some(Recovery)))
            && (!(IsInitialInput(c, s.run) && w.row.status in PRECHECKPOINT_STATUSES) ==>
                  && w'.timer == w.timer
                  && w'.row.node == Some(if w.row.node.Some? then w.row.node.value else "done")
                  && (forall status :: "status" in c.values && c.values["status"] == Text(status) ==>
                                         w'.row.status == status)
                  && ("status" !in c.values || c.values["status"] == Structured ==> w'.row.status == w.row.status))
  {
    TerminalStatusIs(w.checkpoint);
    if IsInitialInput(w.checkpoint, s.run) {
      assert "status" !in w.checkpoint.values;
    }
  }

  /** A look at a finished run that nothing holds never reopens it and leaves the timer alone; it may still show another
      status: that of the graph, or "recoverable" for a row that says it is queued or running. */
  lemma ViewKeepsFinished(s: Setting, w: World)
    requires w.row.finished && !w.executing && !ForeignLeaseActive(w.row, s.me, w.now) && w.checkpoint.interrupt.None?
    ensures var c := w.checkpoint;
            var w' := Next(s, w, View(Readable(c)));
            && w' == w.(row := w.row.(status := w'.row.status, node := w'.row.node))
            && (c.next != [] ==>
                  && w'.row.node == Some(c.next[0])
                  && w'.row.status == if w.row.status == "queued" || w.row.status == "running" then "recoverable"
                                      else w.row.status)
            && (c.next == [] ==>
                  forall status :: "status" in c.values && c.values["status"] == Text(status) ==>
                      w'.row.status == status)
  {
    hide IsInitialInput;
  }

  /** What the operator's `resume` does: it starts a worker, or finds the budget used up, and then no timer is left; or
      it cannot, and then it makes sure of the timer of a machine's wait. */
  lemma ResumeDoes(s: Setting, w: World, reading: Reading, budget: Budget)
    requires Honest(w, reading)
    ensures var w' := Next(s, w, Resume(reading, budget));
            var goes := ResumeDecision(reading).SubmitWith?;
            var (outcome, row) := SubmitRow(w.row, s.me, w.now, budget);
            && (!goes ==> w' == w)
            && (goes && !w.executing && outcome == Started ==> w' == w.(row := row, executing := true, timer := None))
            && (goes && !w.executing && outcome == ClosedByBudget ==> w' == w.(row := row, timer := None))
            && (goes && (w.executing || outcome in {LeasedElsewhere, Failed}) ==>
                  w' == w.(timer := if WaitTimer(w.checkpoint).Some? then WaitTimer(w.checkpoint) else w.timer))
  {
    OperatorsMoveRuns(reading);
    SubmissionWrites(w.row, s.me, w.now, budget);
    hide SubmitRow;
  }

  /** Time, other controllers and the graph are free to do anything but go back, revive a finished row, or write without
      a worker; a death takes the worker and the timer. */
  lemma OthersDo(s: Setting, w: World, row: Row, c: Checkpoint)
    ensures forall elapsed :: elapsed >= 0.0 ==> Next(s, w, Tick(elapsed)) == w.(now := w.now + elapsed)
    ensures Next(s, w, Others(row)) == if w.row.finished && !row.finished then w else w.(row := row)
    ensures Next(s, w, Advance(c)) == if w.executing then w.(checkpoint := c) else w
    ensures Next(s, w, Die) == w.(executing := false, timer := None)
  {
  }

  /** A callback that passes uses up its timer; what it leaves is what the controller's callback leaves. */
  lemma ElapseDoes(s: Setting, w: World, seen: Row, reading: Reading, budget: Budget)
    requires w.timer.Some? && Honest(w, reading) && Plausible(w, seen)
    ensures var w' := Next(s, w, Elapse(seen, reading, budget));
            var f := CallbackFired(w.timer.value, seen, w.row, w.executing, s.me, w.now, s.run, reading, budget);
            && w'.row == f.row && w'.now == w.now && w'.checkpoint == w.checkpoint
            && (w'.executing <==> w.executing || f.started)
            && (w'.timer.Some? <==> f.timer.StartTimer?) && (f.timer.StartTimer? ==> w'.timer == Some(f.timer.callback))
  {
    hide CallbackFired;
  }

  // ----- one step -----

  lemma ElapseStaysWatchedIff(s: Setting, w: World, e: Event)
    requires Watched(w) && e.Elapse?
    ensures Watched(Next(s, w, e)) <==> GoesOn(s, w, e)
  {
    hide IsInitialInput, TerminalStatus;
  }

  lemma EndStaysWatchedIff(s: Setting, w: World, e: Event)
    requires Watched(w) && e.End?
    ensures Watched(Next(s, w, e)) <==> GoesOn(s, w, e)
  {
  }

  lemma RestartStaysWatchedIff(s: Setting, w: World, e: Event)
    requires Watched(w) && e.Restarted?
    ensures Watched(Next(s, w, e)) <==> GoesOn(s, w, e)
  {
    hide IsInitialInput, TerminalStatus;
  }

  lemma ViewStaysWatched(s: Setting, w: World, e: Event)
    requires Watched(w) && e.View?
    ensures Watched(Next(s, w, e))
  {
    hide TerminalStatus, ViewedStatus;
    if Honest(w, e.reading) && Snapshot(e.reading).Some? {
      EmptyIsNotInitial(s.run);
      TerminalHasNoInterrupt(Snapshot(e.reading).value);
    }
  }

  lemma EmptyIsNotInitial(run: Identity)
    ensures !IsInitialInput(EMPTY_CHECKPOINT, run)
  {
    assert "run_id" in INITIAL_INPUT_KEYS && "run_id" !in EMPTY_CHECKPOINT.values;
  }

  lemma TerminalHasNoInterrupt(c: Checkpoint)
    ensures TerminalStatus(c).Some? ==> c.interrupt.None? && c.next == [] && c != EMPTY_CHECKPOINT
  {
  }

  /** A watched run stays watched through an event exactly when the event goes on. */
  lemma StepStaysWatchedIff(s: Setting, w: World, e: Event)
    requires Watched(w)
    ensures Watched(Next(s, w, e)) <==> GoesOn(s, w, e)
  {
    hide Viewed, AllRestored, Ended, CallbackFired;
    match e
    case Elapse(_, _, _) => ElapseStaysWatchedIff(s, w, e);
    case End(_, _) => EndStaysWatchedIff(s, w, e);
    case Restarted(_, _, _) => RestartStaysWatchedIff(s, w, e);
    case View(_) => ViewStaysWatched(s, w, e);
    case _ =>
  }

  // ----- whole histories -----

  ghost predicate AlwaysWatched(s: Setting, w: World, events: seq<Event>) {
    forall k :: 0 <= k <= |events| ==> Watched(After(s, w, events[..k]))
  }

  ghost predicate AlwaysGoesOn(s: Setting, w: World, events: seq<Event>) {
    forall k :: 0 <= k < |events| ==> GoesOn(s, After(s, w, events[..k]), events[k])
  }

  lemma OneMoreEvent(s: Setting, w: World, events: seq<Event>, k: nat, k': nat)
    requires k' == k + 1 <= |events|
    ensures After(s, w, events[..k']) == Next(s, After(s, w, events[..k]), events[k])
  {
    hide Next;
    assert events[..k'][..k] == events[..k] && events[..k'][k] == events[k];
  }

  lemma {:induction false} WatchedUpTo(s: Setting, w: World, events: seq<Event>, k: nat)
    requires Watched(w) && AlwaysGoesOn(s, w, events) && k <= |events|
    ensures Watched(After(s, w, events[..k]))
  {
    hide Next, Watched, GoesOn;
    if k > 0 {
      var before: nat := k - 1;
      WatchedUpTo(s, w, events, before);
      OneMoreEvent(s, w, events, before, k);
      StepStaysWatchedIff(s, After(s, w, events[..before]), events[before]);
    }
  }

  /** Along every history a waiting run always has its worker or its timer exactly when it had one at the start
      and every event goes on. */
  lemma AlwaysWatchedIff(s: Setting, w: World, events: seq<Event>)
    ensures AlwaysWatched(s, w, events) <==> Watched(w) && AlwaysGoesOn(s, w, events)
  {
    hide Next, Watched, GoesOn;
    assert events[..0] == [];
    assert After(s, w, []) == w;
    if AlwaysWatched(s, w, events) {
      assert Watched(After(s, w, events[..0]));
      forall k | 0 <= k < |events| ensures GoesOn(s, After(s, w, events[..k]), events[k]) {
        OneMoreEvent(s, w, events, k, k + 1);
        assert Watched(After(s, w, events[..k])) && Watched(After(s, w, events[..k + 1]));
        StepStaysWatchedIff(s, After(s, w, events[..k]), events[k]);
      }
    }
    if Watched(w) && AlwaysGoesOn(s, w, events) {
      forall k | 0 <= k <= |events| ensures Watched(After(s, w, events[..k])) {
        WatchedUpTo(s, w, events, k);
      }
    }
  }

  /** A fresh process watches a waiting run exactly when nobody else leases it, its own loop reads the
      checkpoint, no loop before it raises, and the last loop does not find the database busy. */
  lemma FreshRestartWatchesIff(s: Setting, w: World, ci: Reading, reviewer: Reading, recovery: Reading)
    requires Waiting(w) && !w.executing && w.timer == None
    requires Honest(w, ci) && Honest(w, reviewer) && Honest(w, recovery)
    ensures Watched(Next(s, w, Restarted(ci, reviewer, recovery))) <==>
              && !ForeignLeaseActive(w.row, s.me, w.now)
              && (if WaitTimer(w.checkpoint) == Some(CiWait)
                  then ci.Readable? && (reviewer == OtherError || recovery != DatabaseError(true))
                  else ci != OtherError && reviewer.Readable? && recovery != DatabaseError(true))
  {
    hide IsInitialInput, TerminalStatus;
  }

  /** Nothing but a restart, an operator or another controller that finishes the run helps. */
  predicate Unhelped(e: Event) {
    !e.Restarted? && !e.Resume? && !e.View? && (e.Others? ==> !e.row.finished)
  }

  lemma StepStaysForgotten(s: Setting, w: World, e: Event)
    requires !Watched(w) && Unhelped(e)
    ensures !Watched(Next(s, w, e)) && Next(s, w, e).checkpoint == w.checkpoint
  {
    hide IsInitialInput, TerminalStatus, SubmitRow;
    if e.Elapse? && w.timer == Some(Recovery) && Honest(w, e.reading) && e.reading.Readable? {
      assert w.checkpoint.interrupt.Some?;
    }
  }

  /** A waiting run without its worker and its timer stays so, through all timers, lease changes and time, until
      a restart, an operator or another controller ends it. */
  lemma {:induction false} ForgottenStaysForgotten(s: Setting, w: World, events: seq<Event>)
    requires !Watched(w) && forall k :: 0 <= k < |events| ==> Unhelped(events[k])
    ensures !Watched(After(s, w, events)) && After(s, w, events).checkpoint == w.checkpoint
  {
    hide Next, Watched, Unhelped;
    if events != [] {
      var init := events[..|events| - 1];
      assert forall k :: 0 <= k < |init| ==> init[k] == events[k];
      ForgottenStaysForgotten(s, w, init);
      StepStaysForgotten(s, After(s, w, init), events[|init|]);
    }
  }

  /** A busy database forgets a waiting run whose timer fires, and it stays forgotten; the same reading makes a
      recovery look again. */
  lemma BusyDatabaseForgets(s: Setting, w: World, seen: Row, budget: Budget, events: seq<Event>)
    requires Waiting(w) && !w.executing && Watched(w) && Plausible(w, seen)
    requires forall k :: 0 <= k < |events| ==> Unhelped(events[k])
    ensures !Watched(After(s, Next(s, w, Elapse(seen, DatabaseError(true), budget)), events))
    ensures !ForeignLeaseActive(seen, s.me, w.now) ==>
              RecoverableDecision(seen, false, s.run, DatabaseError(true)) == InspectLater
  {
    hide After, Next, Unhelped;
    StepStaysWatchedIff(s, w, Elapse(seen, DatabaseError(true), budget));
    ForgottenStaysForgotten(s, Next(s, w, Elapse(seen, DatabaseError(true), budget)), events);
  }
}
