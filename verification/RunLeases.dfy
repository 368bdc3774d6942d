/**
 Which controllers execute a run's graph, over time (`runtime.py`, lines 58-59 and 350-484).

 Any number of controllers share one registry row. A controller claims the lease and starts a worker;
 a heartbeat renews the lease; the worker stops when its graph ends or its process dies, but not when
 a renewal fails.
 */
module RunLeases {
  import opened Wrappers
  import opened RunRegistry

  const LEASE_TTL := 120.0
  const HEARTBEAT := 30.0

  /** A worker that is executing the graph, and its heartbeat thread. */
  datatype Worker = Worker(lastRenewal: Time, lastBeat: Time, missed: nat, beating: bool)

  datatype World = World(now: Time, row: Row, workers: map<Owner, Worker>)

  datatype Event =
    | Tick(elapsed: Time)
    | Submit(who: Owner)               // claim the lease and start the worker, unless one is alive
    | Beat(who: Owner, reached: bool)  // one heartbeat; the database may not be reachable
    | StrayRenewal(who: Owner)         // a heartbeat that outlives its worker
    | Finish                          // update_run(finished=True) by anyone
    | End(who: Owner)                  // the worker's graph has ended; the lease is released
    | Die(who: Owner)                  // the process is gone

  function Renewed(w: World, who: Owner): Row {
    if MayRenew(w.row, who) then Leased(w.row, who, w.now + LEASE_TTL) else w.row
  }

  /** One heartbeat: a failed renewal stops the heartbeat, an unreachable database does not. */
  function AfterBeat(w: World, who: Owner, reached: bool): World
    requires who in w.workers
  {
    var worker := w.workers[who];
    if !worker.beating then w
    else if !reached then w.(workers := w.workers[who := worker.(lastBeat := w.now, missed := worker.missed + 1)])
    else if MayRenew(w.row, who) then
      w.(row := Renewed(w, who), workers := w.workers[who := Worker(w.now, w.now, 0, true)])
    else w.(workers := w.workers[who := worker.(lastBeat := w.now, beating := false)])
  }

  function Next(w: World, e: Event): World {
    match e
    case Tick(elapsed) => if elapsed >= 0.0 then w.(now := w.now + elapsed) else w
    case Submit(who) =>
      if who in w.workers || w.row.expiry.Malformed? || !MayClaim(w.row, who, w.now) then w
      else w.(row := Leased(w.row, who, w.now + LEASE_TTL), workers := w.workers[who := Worker(w.now, w.now, 0, true)])
    case Beat(who, reached) => if who in w.workers then AfterBeat(w, who, reached) else w
    case StrayRenewal(who) => w.(row := Renewed(w, who))
    case Finish => w.(row := Closed(w.row))
    case End(who) =>
      if who in w.workers
      then w.(workers := w.workers - {who}, row := if w.row.owner == Some(who) then Unleased(w.row) else w.row)
      else w
    case Die(who) => w.(workers := w.workers - {who})
  }

  function After(w: World, events: seq<Event>): World {
    if events == [] then w else Next(After(w, events[..|events| - 1]), events[|events| - 1])
  }

  /** A row that nobody has claimed yet. */
  predicate Initial(w: World) {
    w.workers == map[] && w.row.owner.None? && w.row.expiry.NoExpiry?
  }

  // ----- what the events do -----

  /** A claim succeeds exactly on an unfinished row with a readable lease column that nobody else leases; it gives the
      claimant the lease for 120 seconds and a worker whose beats start. */
  lemma SubmitDoes(w: World, who: Owner)
    ensures var w' := Next(w, Submit(who));
            var free := w.row.owner.None? || w.row.owner.value == who || w.row.expiry.NoExpiry?
                || (w.row.expiry.At? && w.row.expiry.time <= w.now);
            if who !in w.workers && !w.row.finished && !w.row.expiry.Malformed? && free then
              && w'.row == Row(w.row.status, w.row.node, false, Some(who), At(w.now + 120.0))
              && w'.workers == w.workers[who := Worker(w.now, w.now, 0, true)] && w'.now == w.now
            else w' == w
  {
  }

  /** A beat that reaches the database renews its owner's lease on an unfinished row for 120 seconds, and otherwise is
      the last one; a beat that does not is counted as missed. Nothing else changes. */
  lemma BeatDoes(w: World, who: Owner, reached: bool)
    requires who in w.workers
    ensures var w' := Next(w, Beat(who, reached));
            var renews := reached && w.row.owner == Some(who) && !w.row.finished;
            var worker := w.workers[who];
            && w'.now == w.now && w'.workers.Keys == w.workers.Keys
            && (forall other :: other in w.workers && other != who ==> w'.workers[other] == w.workers[other])
            && w'.row == (if worker.beating && renews then w.row.(expiry := At(w.now + 120.0)) else w.row)
            && w'.workers[who] ==
               if !worker.beating then worker
               else if renews then Worker(w.now, w.now, 0, true)
               else Worker(worker.lastRenewal, w.now, worker.missed + (if reached then 0 else 1), !reached)
  {
  }

  /** A worker's end releases its own lease only; a death releases nothing; finishing drops any lease and stops no
      worker; a beat that outlives its worker renews only its own owner's lease. */
  lemma EndingsDo(w: World, who: Owner)
    requires who in w.workers
    ensures Next(w, End(who)) == w.(workers := w.workers - {who},
                                    row := if w.row.owner == Some(who) then w.row.(owner := None, expiry := NoExpiry)
                                           else w.row)
    ensures Next(w, Die(who)) == w.(workers := w.workers - {who})
    ensures Next(w, Finish) == w.(row := Row(w.row.status, w.row.node, true, None, NoExpiry))
    ensures Next(w, StrayRenewal(who)).workers == w.workers
    ensures Next(w, StrayRenewal(who)).row == if w.row.owner == Some(who) && !w.row.finished
                                              then w.row.(expiry := At(w.now + 120.0)) else w.row
    ensures forall elapsed :: elapsed >= 0.0 ==> Next(w, Tick(elapsed)) == w.(now := w.now + elapsed)
  {
  }

  // ----- a finished run -----

  /** `finished_at` is absorbing, and a finished row is never claimed or renewed again. */
  lemma {:induction false} FinishedForEver(w: World, events: seq<Event>)
    requires w.row.finished && w.row.owner.None?
    ensures After(w, events).row.finished && After(w, events).row.owner.None?
    ensures After(w, events).workers.Keys <= w.workers.Keys
  {
    if events != [] {
      FinishedForEver(w, events[..|events| - 1]);
    }
  }

  /** A beat that comes after the lease was released or taken over leaves the row alone. */
  lemma LateBeatRevivesNothing(w: World, who: Owner, reached: bool)
    requires w.row.owner != Some(who)
    ensures Next(w, StrayRenewal(who)).row == w.row && Next(w, Beat(who, reached)).row == w.row
  {
  }

  // ----- mutual exclusion -----

  /** Successful renewals of every executing worker are less than the TTL apart. */
  ghost predicate RenewedInTime(w: World) {
    w.row.finished || forall c :: c in w.workers ==> w.now < w.workers[c].lastRenewal + LEASE_TTL
  }

  /** The hypothesis holds before every step of the run and at its end. */
  ghost predicate AlwaysRenewedInTime(w: World, events: seq<Event>) {
    forall k :: 0 <= k <= |events| ==> RenewedInTime(After(w, events[..k]))
  }

  /** Unless the run is finished, an executing worker owns a lease that lasts at least one TTL from its
      last renewal. */
  ghost predicate Exclusive(w: World) {
    && (forall c, d :: c in w.workers && d in w.workers ==> c == d)
    && (w.row.finished ==> w.row.owner.None?)
    && !w.row.expiry.Malformed?
    && (!w.row.finished ==> forall c :: c in w.workers ==>
          w.row.owner == Some(c) && w.row.expiry.At? && w.row.expiry.time >= w.workers[c].lastRenewal + LEASE_TTL)
    && (!w.row.finished ==> forall c :: c in w.workers ==> w.workers[c].lastRenewal <= w.now)
  }

  lemma StepKeepsExclusion(w: World, e: Event)
    requires Exclusive(w) && RenewedInTime(w)
    ensures Exclusive(Next(w, e))
  {
  }

  lemma {:induction false} ExclusionAlongRuns(w: World, events: seq<Event>)
    requires Initial(w) && AlwaysRenewedInTime(w, events)
    ensures Exclusive(After(w, events))
  {
    hide Next;
    if events != [] {
      var init := events[..|events| - 1];
      assert forall k :: 0 <= k <= |init| ==> init[..k] == events[..k];
      assert events[..|init|] == init;
      ExclusionAlongRuns(w, init);
      StepKeepsExclusion(After(w, init), events[|init|]);
    }
  }

  /** In every timed interleaving at most one controller executes the run's graph, provided that
      successful renewals are less than the TTL apart. */
  lemma AtMostOneExecutes(w: World, events: seq<Event>)
    requires Initial(w) && AlwaysRenewedInTime(w, events)
    ensures |After(w, events).workers| <= 1
  {
    hide Next, After, AlwaysRenewedInTime;
    ExclusionAlongRuns(w, events);
    var workers := After(w, events).workers;
    if c :| c in workers {
      assert workers.Keys == {c};
      assert |workers| == |workers.Keys|;
    }
  }

  /** The hypothesis is needed exactly: while one worker executes an unfinished run, another controller
      can start a second one if and only if the lease has run out. */
  lemma SecondWorkerIff(w: World, c: Owner, d: Owner)
    requires Exclusive(w) && c in w.workers && d != c && !w.row.finished
    ensures |Next(w, Submit(d)).workers| == 2 <==> w.row.expiry.time <= w.now
    ensures w.row.expiry.time > w.now ==> Next(w, Submit(d)) == w
  {
    assert w.workers.Keys == {c};
    var after := Next(w, Submit(d)).workers;
    if w.row.expiry.time <= w.now {
      assert after.Keys == {c, d};
      assert |after| == |after.Keys| == 2;
    } else {
      assert |w.workers| == |w.workers.Keys| == 1;
    }
  }

  // ----- the heartbeat schedule -----

  const LATENESS := 10.0
  const TOLERATED_MISSES := 2

  /** Beats are due every 30 s and come less than 10 s late; at most two in a row miss the database. */
  ghost predicate BeatsInTime(w: World) {
    forall c :: c in w.workers && w.workers[c].beating ==>
      w.now < w.workers[c].lastBeat + HEARTBEAT + LATENESS && w.workers[c].missed <= TOLERATED_MISSES
  }

  ghost predicate AlwaysBeatsInTime(w: World, events: seq<Event>) {
    forall k :: 0 <= k <= |events| ==> BeatsInTime(After(w, events[..k]))
  }

  /** The last beat is at most one late beat per miss after the last renewal. */
  ghost predicate Paced(w: World) {
    !w.row.finished ==> forall c :: c in w.workers ==>
      var k := w.workers[c];
      k.beating && k.lastBeat <= k.lastRenewal + (HEARTBEAT + LATENESS) * k.missed as real
  }

  lemma PacedIsRenewed(w: World)
    requires Paced(w) && BeatsInTime(w)
    ensures RenewedInTime(w)
  {
    forall c | c in w.workers && !w.row.finished ensures w.now < w.workers[c].lastRenewal + LEASE_TTL {
      var missed := w.workers[c].missed;
      assert missed == 0 || missed == 1 || missed == 2;
    }
  }

  lemma StepKeepsPace(w: World, e: Event)
    requires Exclusive(w) && Paced(w) && BeatsInTime(w)
    ensures Paced(Next(w, e))
  {
    if e.Beat? && e.who in w.workers && !w.row.finished {
      var k := w.workers[e.who];
      assert (HEARTBEAT + LATENESS) * (k.missed + 1) as real
          == (HEARTBEAT + LATENESS) * k.missed as real + (HEARTBEAT + LATENESS);
    }
  }

  lemma {:induction false} PaceAlongRuns(w: World, events: seq<Event>)
    requires Initial(w) && AlwaysBeatsInTime(w, events)
    ensures Exclusive(After(w, events)) && Paced(After(w, events))
  {
    hide Next;
    if events != [] {
      var init := events[..|events| - 1];
      assert forall k :: 0 <= k <= |init| ==> init[..k] == events[..k];
      assert events[..|init|] == init;
      PaceAlongRuns(w, init);
      PacedIsRenewed(After(w, init));
      StepKeepsExclusion(After(w, init), events[|init|]);
      StepKeepsPace(After(w, init), events[|init|]);
    }
  }

  /** Beats every 30 s that come under 10 s late keep renewals less than the TTL apart, although up to
      two consecutive ones fail. */
  lemma TwoMissedBeatsAreHarmless(w: World, events: seq<Event>)
    requires Initial(w) && AlwaysBeatsInTime(w, events)
    ensures AlwaysRenewedInTime(w, events) && |After(w, events).workers| <= 1
  {
    hide Next;
    forall k | 0 <= k <= |events| ensures RenewedInTime(After(w, events[..k])) {
      assert forall j :: 0 <= j <= k ==> events[..k][..j] == events[..j];
      PaceAlongRuns(w, events[..k]);
      assert events[..k][..k] == events[..k];
      PacedIsRenewed(After(w, events[..k]));
    }
    AtMostOneExecutes(w, events);
  }

  /** Three missed beats, each less than 10 s late, let a second controller start the same run: the
      first worker does not stop when its lease has run out. */
  lemma ThirdMissedBeatIsFatal(row: Row)
    requires !row.finished && row.owner.None? && row.expiry.NoExpiry?
    ensures Initial(World(0.0, row, map[]))
    ensures var miss := [Tick(39.0), Beat("a", false)];
            After(World(0.0, row, map[]), [Submit("a")] + miss + miss + miss
                + [Tick(3.0), Submit("b")]).workers.Keys == {"a", "b"}
  {
    var w0 := World(0.0, row, map[]);
    var miss := [Tick(39.0), Beat("a", false)];
    var events := [Submit("a")] + miss + miss + miss + [Tick(3.0), Submit("b")];
    var w1 := Next(w0, Submit("a"));
    var w2 := Next(Next(w1, Tick(39.0)), Beat("a", false));
    var w3 := Next(Next(w2, Tick(39.0)), Beat("a", false));
    var w4 := Next(Next(w3, Tick(39.0)), Beat("a", false));
    var w5 := Next(Next(w4, Tick(3.0)), Submit("b"));
    assert w5.workers.Keys == {"a", "b"};
    Unroll(w0, [Submit("a")], miss);
    Unroll(w0, [Submit("a")] + miss, miss);
    Unroll(w0, [Submit("a")] + miss + miss, miss);
    Unroll(w0, [Submit("a")] + miss + miss + miss, [Tick(3.0), Submit("b")]);
    assert [Submit("a")][..0] == [];
    assert After(w0, []) == w0;
  }

  lemma Unroll(w: World, events: seq<Event>, two: seq<Event>)
    requires |two| == 2
    ensures After(w, events + two) == Next(Next(After(w, events), two[0]), two[1])
  {
    hide Next;
    var longer := events + two;
    assert longer[..|longer| - 1] == events + [two[0]];
    assert (events + [two[0]])[..|events|] == events;
  }
}
