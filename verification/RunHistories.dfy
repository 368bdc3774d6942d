/**
 The histories of one run: controllers that restart, fire timers, obey operators, execute the graph and
 die, in any order (`runtime.py`, lines 237-263 and 350-484; `runtime_service.py`, lines 163-200, 414-449
 and 508-608). A timer may fire at any time, which covers every table of timers.
 */
module RunHistories {
  import opened Wrappers
  import opened RunRegistry
  import opened RunRecovery

  /** The row, the durable checkpoint and the controllers whose worker executes the graph. */
  datatype World = World(now: Time, row: Row, checkpoint: Checkpoint, workers: set<Owner>)

  datatype Event =
    | Tick(elapsed: Time)
    | Try(who: Owner, path: Path, reading: Reading, budget: Budget)
    | Restarted(who: Owner, reading: Reading)
    | Advance(who: Owner, checkpoint: Checkpoint)  // the graph of a worker writes its next checkpoint
    | End(who: Owner, failed: bool)                // the graph has returned or raised
    | Die(who: Owner)

  /** A checkpoint that can be read is read as it is. */
  predicate Honest(w: World, reading: Reading) {
    reading.Readable? ==> reading.checkpoint == w.checkpoint
  }

  /** The row a worker writes when its graph has ended (`_execute`); then its lease is released. */
  function EndRow(row: Row, c: Checkpoint, who: Owner, failed: bool): Row {
    var ended :=
      if failed then Closed(row.(status := "failed"))
      else if c.interrupt.Some? then
        row.(status := if c.interrupt.value == "controlled_pause" then "paused" else "interrupted",
             node := Some(if c.next != [] then c.next[0] else "done"))
      else if c.next != [] then row.(status := "recoverable", node := Some(c.next[0]))
      else
        var status := if "status" in c.values && c.values["status"].Text? then c.values["status"].text else "completed";
        Closed(row.(status := status, node := Some("done")));
    if ended.owner == Some(who) then Unleased(ended) else ended
  }

  /** One attempt to submit the run, by whatever path. */
  function Tried(w: World, run: Identity, who: Owner, path: Path, reading: Reading, budget: Budget): World {
    match Decide(path, w.row, ForeignLeaseActive(w.row, who, w.now), run, reading)
    case SubmitWith(_) =>
      if who in w.workers then w
      else
        var (outcome, row) := SubmitRow(w.row, who, w.now, budget);
        w.(row := row, workers := if outcome == Started then w.workers + {who} else w.workers)
    case CloseAs(status) => w.(row := Closed(w.row.(status := status, node := Some("done"))))
    case _ => w
  }

  function Next(w: World, run: Identity, e: Event): World {
    match e
    case Tick(elapsed) => if elapsed >= 0.0 then w.(now := w.now + elapsed) else w
    case Try(who, path, reading, budget) => if Honest(w, reading) then Tried(w, run, who, path, reading, budget) else w
    case Restarted(who, reading) =>
      if Honest(w, reading) && !w.row.finished
      then w.(row := Restart(w.row, ForeignLeaseActive(w.row, who, w.now), run, reading).0) else w
    case Advance(who, c) => if who in w.workers then w.(checkpoint := c) else w
    case End(who, failed) =>
      if who in w.workers then w.(row := EndRow(w.row, w.checkpoint, who, failed), workers := w.workers - {who}) else w
    case Die(who) => w.(workers := w.workers - {who})
  }

  function After(w: World, run: Identity, events: seq<Event>): World {
    if events == [] then w else Next(After(w, run, events[..|events| - 1]), run, events[|events| - 1])
  }

  /** The input with which event `e` starts a worker, if it starts one. */
  function StartedWith(w: World, run: Identity, e: Event): Option<Input> {
    if !e.Try? || Next(w, run, e).workers == w.workers then None
    else
      match Decide(e.path, w.row, ForeignLeaseActive(w.row, e.who, w.now), run, e.reading)
      case SubmitWith(input) => Some(input)
      case _ => None
  }

  // ----- what the events do -----

  /** What a worker writes at its end: a failed graph closes the run as failed; an interrupt leaves it open, as paused
      or interrupted; a pending node leaves it recoverable; and a graph that has run through closes it with the status
      it wrote, or as completed. Its own lease is dropped in every case. */
  lemma EndWrites(row: Row, c: Checkpoint, who: Owner, failed: bool)
    ensures var row' := EndRow(row, c, who, failed);
            var kept := if row.owner == Some(who) then row.(owner := None, expiry := NoExpiry) else row;
            if failed then row' == Row("failed", row.node, true, None, NoExpiry)
            else if c.interrupt.Some? then
              row' == kept.(status := if c.interrupt == Some("controlled_pause") then "paused" else "interrupted",
                            node := if c.next == [] then Some("done") else Some(c.next[0]))
            else if c.next != [] then row' == kept.(status := "recoverable", node := Some(c.next[0]))
            else
              && (forall status :: "status" in c.values && c.values["status"] == Text(status) ==>
                  row' == ClosedAs(status))
              && ("status" !in c.values || c.values["status"] == Structured ==> row' == ClosedAs("completed"))
  {
  }

  /** A try that is told the truth does what its path decides: a submission claims the row and, within the budget,
      starts a worker; anything else starts none. A reading that lies is no event. */
  lemma TriesDo(w: World, run: Identity, who: Owner, path: Path, reading: Reading, budget: Budget)
    ensures var w' := Next(w, run, Try(who, path, reading, budget));
            var decision := Decide(path, w.row, ForeignLeaseActive(w.row, who, w.now), run, reading);
            var (outcome, row') := SubmitRow(w.row, who, w.now, budget);
            && w'.now == w.now && w'.checkpoint == w.checkpoint
            && (w'.workers == w.workers + if who in w'.workers then {who} else {})
            && (who in w'.workers && who !in w.workers <==>
                who !in w.workers && Honest(w, reading) && decision.SubmitWith? && outcome == Started)
            && (Honest(w, reading) && decision.SubmitWith? && who !in w.workers ==> w'.row == row')
            && (Honest(w, reading) && decision.SubmitWith? && who in w.workers ==> w' == w)
            && (forall status :: Honest(w, reading) && decision == CloseAs(status) ==> w'.row == ClosedAs(status))
            && (!Honest(w, reading) || (!decision.SubmitWith? && !decision.CloseAs?) ==> w' == w)
  {
    hide Decide, SubmitRow;
  }

  /** Only the graph of an executing worker writes checkpoints; a worker leaves by its end, which writes the row, or by
      its death, which does not; a restart looks at unfinished rows only. */
  lemma EventsDo(w: World, run: Identity, who: Owner, c: Checkpoint, failed: bool, reading: Reading)
    ensures Next(w, run, Advance(who, c)) == if who in w.workers then w.(checkpoint := c) else w
    ensures who in w.workers ==>
              Next(w, run, End(who, failed)) ==
                World(w.now, EndRow(w.row, w.checkpoint, who, failed), w.checkpoint, w.workers - {who})
    ensures who !in w.workers ==> Next(w, run, End(who, failed)) == w
    ensures Next(w, run, Die(who)) == World(w.now, w.row, w.checkpoint, w.workers - {who})
    ensures forall elapsed :: elapsed >= 0.0 ==>
              Next(w, run, Tick(elapsed)) == World(w.now + elapsed, w.row, w.checkpoint, w.workers)
    ensures var w' := Next(w, run, Restarted(who, reading));
            && w'.workers == w.workers && w'.checkpoint == w.checkpoint && w'.now == w.now
            && w'.row == if w.row.finished || (reading.Readable? && reading.checkpoint != w.checkpoint) then w.row
                         else Restart(w.row, ForeignLeaseActive(w.row, who, w.now), run, reading).0
  {
    hide Restart, EndRow, Tried;
  }

  // ----- starts -----

  /** A worker starts only from a readable checkpoint that is not terminal, on an unfinished row, and with
      the initial input only if the checkpoint is empty or the initial envelope. */
  lemma StartsAreJustified(w: World, run: Identity, e: Event)
    requires !(Next(w, run, e).workers <= w.workers)
    ensures e.Try? && !w.row.finished && e.reading == Readable(w.checkpoint) && TerminalStatus(w.checkpoint).None?
    ensures StartedWith(w, run, e).Some?
    ensures StartedWith(w, run, e) == Some(InitialInput) ==>
              w.checkpoint == EMPTY_CHECKPOINT || IsInitialInput(w.checkpoint, run)
  {
    hide IsInitialInput, TerminalStatus, Decide;
    if e.Try? {
      var foreign := ForeignLeaseActive(w.row, e.who, w.now);
      if Decide(e.path, w.row, foreign, run, e.reading).SubmitWith? {
        SubmissionIsSafe(e.path, w.row, foreign, run, e.reading);
      }
    }
  }

  /** The graph has left its initial input behind. */
  predicate Begun(c: Checkpoint, run: Identity) {
    c != EMPTY_CHECKPOINT && !IsInitialInput(c, run)
  }

  /** Once begun, graphs do not write the initial envelope again. */
  ghost predicate NeverRewinds(run: Identity, events: seq<Event>) {
    forall k :: 0 <= k < |events| && events[k].Advance? ==> Begun(events[k].checkpoint, run)
  }

  /** The checkpoint changes only when a worker's graph writes it. */
  lemma OnlyWorkersWrite(w: World, run: Identity, e: Event)
    ensures Next(w, run, e).checkpoint == if e.Advance? && e.who in w.workers then e.checkpoint else w.checkpoint
  {
    hide Decide, SubmitRow, EndRow, Restart;
  }

  lemma {:induction false} BegunStaysBegun(w: World, run: Identity, events: seq<Event>)
    requires Begun(w.checkpoint, run) && NeverRewinds(run, events)
    ensures Begun(After(w, run, events).checkpoint, run)
  {
    hide Begun, Next;
    if events != [] {
      var init, last := events[..|events| - 1], events[|events| - 1];
      assert forall k :: 0 <= k < |init| ==> init[k] == events[k];
      BegunStaysBegun(w, run, init);
      OnlyWorkersWrite(After(w, run, init), run, last);
      assert last.Advance? ==> Begun(last.checkpoint, run);
    }
  }

  /** In every history a run that has begun is never started from its initial input again. */
  lemma NoSecondBeginning(w: World, run: Identity, events: seq<Event>, k: nat)
    requires Begun(w.checkpoint, run) && NeverRewinds(run, events) && k < |events|
    ensures StartedWith(After(w, run, events[..k]), run, events[k]) != Some(InitialInput)
  {
    hide Next, After, Decide, IsInitialInput;
    assert forall j :: 0 <= j < k ==> events[..k][j] == events[j];
    BegunStaysBegun(w, run, events[..k]);
    var before := After(w, run, events[..k]);
    if StartedWith(before, run, events[k]) == Some(InitialInput) {
      var e := events[k];
      SubmissionIsSafe(e.path, before.row, ForeignLeaseActive(before.row, e.who, before.now), run, e.reading);
      StartedIsHonest(before, run, e);
    }
  }

  lemma StartedIsHonest(w: World, run: Identity, e: Event)
    requires StartedWith(w, run, e).Some?
    ensures e.Try? && Honest(w, e.reading)
  {
    hide Decide, Tried;
  }

  // ----- the end of a run -----

  /** Nobody executes a run whose checkpoint is terminal. */
  predicate Over(w: World) {
    w.workers == {} && Concluded(w.checkpoint)
  }

  lemma StepKeepsOver(w: World, run: Identity, e: Event)
    requires Over(w)
    ensures Over(Next(w, run, e)) && Next(w, run, e).checkpoint == w.checkpoint
    ensures w.row.finished ==> Next(w, run, e).row == w.row
  {
    hide TerminalStatus, Decide, Restart, EndRow, SubmitRow;
    TerminalStatusIs(w.checkpoint);
    if e.Try? && Honest(w, e.reading) {
      var foreign := ForeignLeaseActive(w.row, e.who, w.now);
      var decision := Decide(e.path, w.row, foreign, run, e.reading);
      if decision.SubmitWith? {
        SubmissionIsSafe(e.path, w.row, foreign, run, e.reading);
      }
      OnlyTimersClose(e.path, w.row, foreign, run, e.reading);
    }
  }

  lemma OnlyTimersClose(path: Path, row: Row, foreign: bool, run: Identity, reading: Reading)
    ensures Decide(path, row, foreign, run, reading).CloseAs? ==>
              !row.finished && !foreign && reading.Readable?
              && Decide(path, row, foreign, run, reading) == CloseAs(TerminalStatus(reading.checkpoint).value)
              && TerminalStatus(reading.checkpoint).Some?
  {
    hide TerminalStatus, IsInitialInput;
  }

  /** In every history, once a terminal checkpoint has no worker, no worker ever executes the run again
      and its checkpoint stays; once its row is finished, that stays too. */
  lemma {:induction false} OverIsForEver(w: World, run: Identity, events: seq<Event>)
    requires Over(w)
    ensures Over(After(w, run, events)) && After(w, run, events).checkpoint == w.checkpoint
    ensures w.row.finished ==> After(w, run, events).row == w.row
  {
    hide Next, Over;
    if events != [] {
      OverIsForEver(w, run, events[..|events| - 1]);
      StepKeepsOver(After(w, run, events[..|events| - 1]), run, events[|events| - 1]);
    }
  }

  /** A restart or a recovery timer that reads a terminal checkpoint, without a foreign lease, closes the
      run with that checkpoint's status, and no later event changes the row or starts a worker. */
  lemma TerminalRunIsClosedForEver(w: World, run: Identity, e: Event, events: seq<Event>)
    requires Over(w) && !w.row.finished && (e.Restarted? || (e.Try? && e.path.TimerFired?))
    requires e.reading == Readable(w.checkpoint) && !ForeignLeaseActive(w.row, e.who, w.now)
    ensures After(Next(w, run, e), run, events).row == ClosedAs(w.checkpoint.values["status"].text)
    ensures After(Next(w, run, e), run, events).workers == {}
  {
    hide After, TerminalStatus, IsInitialInput;
    TerminalStatusIs(w.checkpoint);
    var closed := Next(w, run, e);
    StepKeepsOver(w, run, e);
    OverIsForEver(closed, run, events);
  }
}
