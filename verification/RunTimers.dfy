/**
 Generation-stamped timers (`runtime_service.py`, lines 468-499). Cancelling a timer may come too
 late, so a callback can fire at any moment after its timer was started, but only once.
 */
module RunTimers {
  import opened RunRegistry

  type Generation = nat

  /** What a timer calls: `_resume_ci_wait`, `_resume_reviewer_recovery_wait` or `_resume_recoverable`. */
  datatype Callback = CiWait | ReviewerWait | Recovery

  datatype Timer = Timer(generation: Generation, callback: Callback)

  /** What the controller's lock protects. */
  class TimerTable {
    var timers: map<RunId, Timer>
    var generations: map<RunId, Generation>

    constructor ()
      ensures State() == EMPTY
    {
      timers, generations := map[], map[];
    }

    ghost function State(): Table
      reads this
    {
      Table(timers, generations)
    }

    method ReplaceTimer(id: RunId, callback: Callback) returns (started: Generation)
      modifies this
      ensures State() == Replaced(old(State()), id, callback) && started == Current(old(State()), id) + 1
    {
      started := (if id in generations then generations[id] else 0) + 1;
      generations := generations[id := started];
      timers := timers[id := Timer(started, callback)];
    }

    method CancelTimer(id: RunId)
      modifies this
      ensures State() == Cancelled(old(State()), id)
    {
      timers := timers - {id};
      generations := generations[id := (if id in generations then generations[id] else 0) + 1];
    }

    method TakeTimerGeneration(id: RunId, generation: Generation) returns (passes: bool)
      modifies this
      ensures passes <==> Valid(old(State()), id, generation)
      ensures State() == if passes then Taken(old(State()), id) else old(State())
    {
      passes := id in generations && generations[id] == generation;
      if passes {
        timers := timers - {id};
      }
    }
  }

  datatype Table = Table(timers: map<RunId, Timer>, generations: map<RunId, Generation>)

  const EMPTY := Table(map[], map[])

  function Current(t: Table, id: RunId): Generation {
    if id in t.generations then t.generations[id] else 0
  }

  function Replaced(t: Table, id: RunId, callback: Callback): Table {
    var g := Current(t, id) + 1;
    Table(t.timers[id := Timer(g, callback)], t.generations[id := g])
  }

  function Cancelled(t: Table, id: RunId): Table {
    Table(t.timers - {id}, t.generations[id := Current(t, id) + 1])
  }

  predicate Valid(t: Table, id: RunId, g: Generation) {
    id in t.generations && t.generations[id] == g
  }

  function Taken(t: Table, id: RunId): Table {
    t.(timers := t.timers - {id})
  }

  // ----- interleavings -----

  datatype Event =
    | Replace(run: RunId, callback: Callback)
    | Cancel(run: RunId)
    | Fire(run: RunId, generation: Generation)

  /** The table, the started timers whose callback has not run yet, and the callbacks that passed. */
  datatype History = History(table: Table, pending: set<(RunId, Generation)>, passed: seq<(RunId, Generation)>)

  function Next(h: History, e: Event): History {
    match e
    case Replace(run, callback) =>
      h.(table := Replaced(h.table, run, callback), pending := h.pending + {(run, Current(h.table, run) + 1)})
    case Cancel(run) => h.(table := Cancelled(h.table, run))
    case Fire(run, g) =>
      if (run, g) !in h.pending then h
      else if Valid(h.table, run, g) then
        History(Taken(h.table, run), h.pending - {(run, g)}, h.passed + [(run, g)])
      else h.(pending := h.pending - {(run, g)})
  }

  function After(events: seq<Event>): History {
    if events == [] then History(EMPTY, {}, []) else Next(After(events[..|events| - 1]), events[|events| - 1])
  }

  // ----- reference: the events alone -----

  /** How often timers of the run were replaced or cancelled. */
  function Resets(events: seq<Event>, run: RunId): nat {
    if events == [] then 0
    else
      var last := events[|events| - 1];
      Resets(events[..|events| - 1], run) + (if !last.Fire? && last.run == run then 1 else 0)
  }

  /** The last replacement or cancellation of the run was a replacement. */
  predicate Armed(events: seq<Event>, run: RunId) {
    if events == [] then false
    else
      var last := events[|events| - 1];
      if !last.Fire? && last.run == run then last.Replace? else Armed(events[..|events| - 1], run)
  }

  /** The run's timer number `g` was started by the `g`-th reset. */
  predicate Started(events: seq<Event>, run: RunId, g: Generation) {
    if events == [] then false
    else
      var init, last := events[..|events| - 1], events[|events| - 1];
      Started(init, run, g) || (last.Replace? && last.run == run && g == Resets(init, run) + 1)
  }

  /** Its callback has fired since. */
  predicate Fired(events: seq<Event>, run: RunId, g: Generation) {
    if events == [] then false
    else
      var init, last := events[..|events| - 1], events[|events| - 1];
      Fired(init, run, g) || (last == Fire(run, g) && Started(init, run, g))
  }

  lemma {:induction false} StartedBounds(events: seq<Event>, run: RunId, g: Generation)
    ensures Started(events, run, g) ==> 1 <= g <= Resets(events, run)
    ensures Armed(events, run) <==> Resets(events, run) > 0 && Started(events, run, Resets(events, run))
  {
    if events != [] {
      var init := events[..|events| - 1];
      StartedBounds(init, run, g);
      StartedBounds(init, run, Resets(events, run));
    }
  }

  lemma {:induction false} HistoryFollowsEvents(events: seq<Event>, run: RunId, g: Generation)
    ensures Current(After(events).table, run) == Resets(events, run)
    ensures run in After(events).table.generations <==> Resets(events, run) > 0
    ensures (run, g) in After(events).pending <==> Started(events, run, g) && !Fired(events, run, g)
    ensures Fired(events, run, g) ==> Started(events, run, g)
  {
    if events != [] {
      var init := events[..|events| - 1];
      HistoryFollowsEvents(init, run, g);
      StartedBounds(init, run, g);
    }
  }

  /** A callback passes exactly when its timer is the one that the run's last reset started and it has
      not fired before. A superseded or cancelled timer never reaches submission. */
  lemma PassesIff(events: seq<Event>, run: RunId, g: Generation)
    ensures After(events + [Fire(run, g)]).passed ==
              After(events).passed
              + (if Armed(events, run) && g == Resets(events, run) && !Fired(events, run, g) then [(run, g)] else [])
  {
    assert (events + [Fire(run, g)])[..|events|] == events;
    HistoryFollowsEvents(events, run, g);
    StartedBounds(events, run, g);
  }

  /** Generations of a run only grow, and strictly with every replacement and cancellation. */
  lemma GenerationsGrow(events: seq<Event>, e: Event, run: RunId)
    ensures var before, after := Current(After(events).table, run), Current(After(events + [e]).table, run);
            after == if !e.Fire? && e.run == run then before + 1 else before
  {
    assert (events + [e])[..|events|] == events;
    HistoryFollowsEvents(events, run, 0);
    HistoryFollowsEvents(events + [e], run, 0);
  }

  function Passes(passed: seq<(RunId, Generation)>, run: RunId, g: Generation): nat {
    multiset(passed)[(run, g)]
  }

  /** Every started timer passes at most once. */
  lemma {:induction false} PassesAtMostOnce(events: seq<Event>, run: RunId, g: Generation)
    ensures Passes(After(events).passed, run, g) <= 1
    ensures Passes(After(events).passed, run, g) == 1 ==> Fired(events, run, g)
  {
    if events != [] {
      var init := events[..|events| - 1];
      PassesAtMostOnce(init, run, g);
      HistoryFollowsEvents(init, run, g);
      var before := After(init);
      if last: (RunId, Generation) :| After(events).passed == before.passed + [last] {
        assert multiset(After(events).passed) == multiset(before.passed) + multiset{last};
      }
    }
  }

  /** At most one timer of a run is tracked, and it is the current generation. */
  lemma {:induction false} TrackedTimerIsCurrent(events: seq<Event>, run: RunId)
    ensures var t := After(events).table; run in t.timers ==> t.timers[run].generation == Current(t, run)
  {
    if events != [] {
      TrackedTimerIsCurrent(events[..|events| - 1], run);
    }
  }
}
