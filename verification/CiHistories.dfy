/**
 Every history of polls of one task, with deaths at any point and restarts from any earlier
 checkpoint: what the retry ledger bounds (`ci.py`, lines 34-175).
 */
module CiHistories {
  import opened Wrappers
  import opened RequiredChecks
  import opened CiRetries
  import opened TextOrder

  datatype World = World(checkpoints: seq<CiState>, ledger: Ledger, log: seq<Reservation>)

  /** A poll that starts from the checkpoint with index `from`. */
  datatype Event = Event(from: nat, o: Observation, death: Death)

  const Initial := World([FreshCi], NoLedger, [])

  ghost predicate Step(policy: FlakyPolicy, timeout: nat, w: World, e: Event, w': World) {
    && e.from < |w.checkpoints|
    && exists next ::
         && PollStep(policy, timeout, w.checkpoints[e.from], e.o, e.death, w.ledger, w.log, w'.ledger, w'.log, next)
         && w'.checkpoints == w.checkpoints + if next.Some? then [next.value] else []
  }

  /** `worlds` are the successive states of a history whose polls are `events`. */
  ghost predicate IsHistory(policy: FlakyPolicy, timeout: nat, events: seq<Event>, worlds: seq<World>) {
    && |worlds| == |events| + 1 && worlds[0] == Initial
    && forall i :: 0 <= i < |events| ==> Step(policy, timeout, worlds[i], events[i], worlds[i + 1])
  }

  // ----- counting -----

  /** The reservations made since the ledger was last written for another head than `head`. */
  function Since(log: seq<Reservation>, head: string): seq<Reservation> {
    if log == [] || log[|log| - 1].head != head then []
    else Since(log[..|log| - 1], head) + [log[|log| - 1]]
  }

  /** How often the rerun of `name` was called. */
  function Calls(log: seq<Reservation>, name: string): nat {
    if log == [] then 0
    else
      Calls(log[..|log| - 1], name) + if log[|log| - 1].name == name && log[|log| - 1].called then 1 else 0
  }

  /** How often a rerun of `name` was reserved. */
  function Reserved(log: seq<Reservation>, name: string): nat {
    if log == [] then 0 else Reserved(log[..|log| - 1], name) + if log[|log| - 1].name == name then 1 else 0
  }

  lemma {:induction false} CallsAreReserved(log: seq<Reservation>, name: string)
    ensures Calls(log, name) <= Reserved(log, name)
  {
    if log != [] {
      CallsAreReserved(log[..|log| - 1], name);
    }
  }

  lemma ReserveOne(log: seq<Reservation>, one: Reservation, name: string)
    ensures Reserved(log + [one], name) == Reserved(log, name) + if one.name == name then 1 else 0
    ensures Since(log + [one], one.head) == Since(log, one.head) + [one]
    ensures forall head :: head != one.head ==> Since(log + [one], head) == []
  {
    var longer := log + [one];
    assert longer[..|longer| - 1] == log && longer[|longer| - 1] == one;
  }

  lemma {:induction false} SinceAnotherHead(log: seq<Reservation>, head: string)
    requires log == [] || log[|log| - 1].head != head
    ensures Since(log, head) == []
  {
  }

  // ----- every history -----

  /** The ledger covers what was reserved since it was taken over, and no count passes the limit. */
  ghost predicate Covered(policy: FlakyPolicy, w: World) {
    && (w.ledger.NoLedger? <==> w.log == [])
    && (w.log != [] ==> w.log[|w.log| - 1].head == w.ledger.head)
    && (forall name :: w.ledger.Ledger? ==> Reserved(Since(w.log, w.ledger.head), name) <= Count(w.ledger.counts, name))
    && (forall name :: w.ledger.Ledger? ==> Count(w.ledger.counts, name) <= policy.maxRetries)
    && (forall i, name :: 0 <= i < |w.checkpoints| ==> Count(w.checkpoints[i].counts, name) <= policy.maxRetries)
  }

  lemma MergedIsBounded(policy: FlakyPolicy, w: World, state: CiState, o: Observation, name: string)
    requires Covered(policy, w) && state in w.checkpoints
    ensures Count(DurableCounts(w.ledger, o.head), name) <= Count(Merged(state, o, w.ledger), name) <= policy.maxRetries
  {
    hide Since, Reserved;
    var i :| 0 <= i < |w.checkpoints| && w.checkpoints[i] == state;
    assert Count(w.checkpoints[i].counts, name) <= policy.maxRetries;
  }

  lemma DueIsBelowTheLimit(policy: FlakyPolicy, timeout: nat, state: CiState, o: Observation, ledger: Ledger,
      name: string)
    requires Due(policy, timeout, state, o, ledger, name)
    ensures Count(Merged(state, o, ledger), name) < policy.maxRetries
  {
    hide Failures, AtMost, Recovered;
    var failures := Failures(o.result.items);
    var item :| item in failures && item.check.name == name;
    var i :| 0 <= i < |failures| && failures[i] == item;
    assert Count(Merged(state, o, ledger), failures[i].check.name) < policy.maxRetries;
  }

  lemma StepKeepsCovered(policy: FlakyPolicy, timeout: nat, w: World, e: Event, w': World)
    requires Covered(policy, w) && Step(policy, timeout, w, e, w')
    ensures Covered(policy, w')
  {
    hide Since, Reserved, Due, PolledVerdict, Merged, Count;
    var state := w.checkpoints[e.from];
    var merged := Merged(state, e.o, w.ledger);
    forall name ensures Count(DurableCounts(w.ledger, e.o.head), name) <= Count(merged, name) <= policy.maxRetries {
      MergedIsBounded(policy, w, state, e.o, name);
    }
    var next :| && PollStep(policy, timeout, state, e.o, e.death, w.ledger, w.log, w'.ledger, w'.log, next)
                && w'.checkpoints == w.checkpoints + if next.Some? then [next.value] else [];
    if w'.log != w.log {
      var name, called :|
        && RetryStep(policy, timeout, state, e.o, e.death, w.ledger, name, called, w'.ledger, next)
        && w'.log == w.log + [Reservation(e.o.head, name, called)];
      DueIsBelowTheLimit(policy, timeout, state, e.o, w.ledger, name);
      forall n
        ensures Count(w'.ledger.counts, n) == Count(merged, n) + (if n == name then 1 else 0)
        ensures Reserved(Since(w'.log, e.o.head), n) <= Count(w'.ledger.counts, n)
      {
        CountOneMore(merged, name, n);
        ReserveOne(w.log, Reservation(e.o.head, name, called), n);
        ReserveOne(Since(w.log, e.o.head), Reservation(e.o.head, name, called), n);
        TakenOver(policy, w, e.o.head, n);
      }
    }
  }

  lemma CountOneMore(counts: Counts, name: string, n: string)
    ensures Count(counts[name := Count(counts, name) + 1], n) == Count(counts, n) + if n == name then 1 else 0
  {
  }

  /** What the ledger durably counts for a head covers the reservations since it was taken over. */
  lemma TakenOver(policy: FlakyPolicy, w: World, head: string, name: string)
    requires Covered(policy, w)
    ensures Reserved(Since(w.log, head), name) <= Count(DurableCounts(w.ledger, head), name)
  {
    hide Count;
    if w.ledger.NoLedger? || w.ledger.head != head {
      SinceAnotherHead(w.log, head);
    }
  }

  lemma {:induction false} EveryHistoryIsCovered(policy: FlakyPolicy, timeout: nat, events: seq<Event>,
      worlds: seq<World>, i: nat)
    requires IsHistory(policy, timeout, events, worlds) && i < |worlds|
    ensures Covered(policy, worlds[i])
  {
    hide Step;
    if i > 0 {
      var before: nat := i - 1;
      EveryHistoryIsCovered(policy, timeout, events, worlds, before);
      StepKeepsCovered(policy, timeout, worlds[before], events[before], worlds[i]);
    }
  }

  /** Whatever heads are polled, from whatever checkpoints and with whatever deaths: since the ledger
      was last written for another head, a check is rerun at most as often as the ledger says, and
      never more than the policy allows. */
  lemma RerunsSinceTakeoverAreBounded(policy: FlakyPolicy, timeout: nat, events: seq<Event>, worlds: seq<World>, i: nat,
                                      head: string, name: string)
    requires IsHistory(policy, timeout, events, worlds) && i < |worlds|
    ensures Calls(Since(worlds[i].log, head), name) <= Count(DurableCounts(worlds[i].ledger, head), name)
              <= policy.maxRetries
  {
    hide Since, Reserved, Calls, IsHistory;
    EveryHistoryIsCovered(policy, timeout, events, worlds, i);
    CallsAreReserved(Since(worlds[i].log, head), name);
    TakenOver(policy, worlds[i], head, name);
  }

  // ----- one head -----

  ghost predicate PollsOnly(events: seq<Event>, head: string) {
    forall i :: 0 <= i < |events| ==> events[i].o.head == head
  }

  /** With one head the ledger counts exactly the reservations, and no checkpoint is ahead of it. */
  ghost predicate Exact(w: World, head: string) {
    && (w.ledger.Ledger? ==> w.ledger.head == head)
    && (forall i :: 0 <= i < |w.log| ==> w.log[i].head == head)
    && (forall name :: Count(DurableCounts(w.ledger, head), name) == Reserved(w.log, name))
    && (forall i, name :: 0 <= i < |w.checkpoints| ==> Count(w.checkpoints[i].counts, name) <= Reserved(w.log, name))
  }

  lemma StepKeepsExact(policy: FlakyPolicy, timeout: nat, w: World, e: Event, w': World)
    requires Exact(w, e.o.head) && Step(policy, timeout, w, e, w')
    ensures Exact(w', e.o.head)
    ensures forall name :: Reserved(w.log, name) <= Reserved(w'.log, name)
  {
    hide Reserved, Due, PolledVerdict, Count, Merged;
    var state := w.checkpoints[e.from];
    var merged := Merged(state, e.o, w.ledger);
    forall name ensures Count(merged, name) == Reserved(w.log, name) {
      MergedIsExact(w, e.from, e.o, name);
    }
    var next :| && PollStep(policy, timeout, state, e.o, e.death, w.ledger, w.log, w'.ledger, w'.log, next)
                && w'.checkpoints == w.checkpoints + if next.Some? then [next.value] else [];
    if w'.log != w.log {
      var name, called :|
        && RetryStep(policy, timeout, state, e.o, e.death, w.ledger, name, called, w'.ledger, next)
        && w'.log == w.log + [Reservation(e.o.head, name, called)];
      forall n
        ensures Count(w'.ledger.counts, n) == Count(merged, n) + (if n == name then 1 else 0)
        ensures Reserved(w'.log, n) == Reserved(w.log, n) + (if n == name then 1 else 0)
      {
        CountOneMore(merged, name, n);
        ReserveOne(w.log, Reservation(e.o.head, name, called), n);
      }
    }
  }

  lemma MergedIsExact(w: World, from: nat, o: Observation, name: string)
    requires Exact(w, o.head) && from < |w.checkpoints|
    ensures Count(Merged(w.checkpoints[from], o, w.ledger), name) == Reserved(w.log, name)
  {
    hide Reserved;
    assert Count(w.checkpoints[from].counts, name) <= Reserved(w.log, name);
  }

  lemma {:induction false} OneHeadIsExact(policy: FlakyPolicy, timeout: nat, events: seq<Event>, worlds: seq<World>,
      i: nat, head: string)
    requires IsHistory(policy, timeout, events, worlds) && i < |worlds| && PollsOnly(events, head)
    ensures Exact(worlds[i], head)
  {
    hide Step;
    if i > 0 {
      var before: nat := i - 1;
      OneHeadIsExact(policy, timeout, events, worlds, before, head);
      StepKeepsExact(policy, timeout, worlds[before], events[before], worlds[i]);
    }
  }

  /** For one head, over all polls, deaths and rollbacks: a check's rerun calls never exceed its
      durable count, and that count never exceeds the limit of the policy. */
  lemma RerunsAreBounded(policy: FlakyPolicy, timeout: nat, events: seq<Event>, worlds: seq<World>, i: nat,
      head: string, name: string)
    requires IsHistory(policy, timeout, events, worlds) && i < |worlds| && PollsOnly(events, head)
    ensures Calls(worlds[i].log, name) <= Reserved(worlds[i].log, name)
            == Count(DurableCounts(worlds[i].ledger, head), name) <= policy.maxRetries
  {
    hide Since, Reserved, Calls, IsHistory, PollsOnly;
    RerunsSinceTakeoverAreBounded(policy, timeout, events, worlds, i, head, name);
    OneHeadIsExact(policy, timeout, events, worlds, i, head);
    CallsAreReserved(worlds[i].log, name);
  }

  /** For one head the durable count of no check ever decreases. */
  lemma {:induction false} LedgerNeverForgets(policy: FlakyPolicy, timeout: nat, events: seq<Event>,
      worlds: seq<World>, i: nat, j: nat,
                                              head: string, name: string)
    requires IsHistory(policy, timeout, events, worlds) && i <= j < |worlds| && PollsOnly(events, head)
    ensures Count(DurableCounts(worlds[i].ledger, head), name) <= Count(DurableCounts(worlds[j].ledger, head), name)
    decreases j
  {
    hide Step, Reserved, Count;
    OneHeadIsExact(policy, timeout, events, worlds, i, head);
    OneHeadIsExact(policy, timeout, events, worlds, j, head);
    if i < j {
      var before: nat := j - 1;
      LedgerNeverForgets(policy, timeout, events, worlds, i, before, head, name);
      OneHeadIsExact(policy, timeout, events, worlds, before, head);
      StepKeepsExact(policy, timeout, worlds[before], events[before], worlds[j]);
    }
  }

  /** A reservation whose poll died, before or after the rerun call, makes the next poll from the same
      checkpoint wait instead of rerunning anything: an outcome that is not known is never repeated. */
  lemma LostReservationWaits(policy: FlakyPolicy, timeout: nat, w0: World, e0: Event, w1: World, e1: Event, w2: World)
    requires Exact(w0, e0.o.head) && Step(policy, timeout, w0, e0, w1) && Step(policy, timeout, w1, e1, w2)
    requires e0.death != Lives && w1.log != w0.log
    requires e1.from == e0.from && e1.o.head == e0.o.head
    ensures w2.log == w1.log && w2.ledger == w1.ledger
    ensures e1.death == Lives && e1.o.result.status == CiFail
            && e1.o.now - Started(w1.checkpoints[e1.from], e1.o) < timeout
            ==> w2.checkpoints[|w1.checkpoints|].verdict == CiPending
  {
    hide Reserved, Count, MayRetry, Failures, AtMost;
    var head, state := e0.o.head, w0.checkpoints[e0.from];
    var next0 :| && PollStep(policy, timeout, state, e0.o, e0.death, w0.ledger, w0.log, w1.ledger, w1.log, next0)
                 && w1.checkpoints == w0.checkpoints + if next0.Some? then [next0.value] else [];
    var name, called :| RetryStep(policy, timeout, state, e0.o, e0.death, w0.ledger, name, called, w1.ledger, next0);
    CountOneMore(Merged(state, e0.o, w0.ledger), name, name);
    var durable := DurableCounts(w1.ledger, head);
    assert name in durable && Count(durable, name) > Count(StateCounts(state, head), name);
    assert Recovered(state, w1.ledger, head);
  }

  /** A poll passes only what the remote passed. */
  lemma OnlyPassesPass(policy: FlakyPolicy, timeout: nat, w: World, e: Event, w': World)
    requires Step(policy, timeout, w, e, w') && e.death == Lives
    ensures |w'.checkpoints| == |w.checkpoints| + 1
    ensures w'.checkpoints[|w.checkpoints|].verdict == CiPass <==> e.o.result.status == CiPass
    ensures e.o.result.status == CiPass ==> w'.log == w.log
  {
    hide Count, Failures, AtMost, Recovered, Merged;
  }

  // ----- several heads -----

  /** How often the rerun of `name` was called for `head`. */
  function CallsFor(log: seq<Reservation>, head: string, name: string): nat {
    if log == [] then 0
    else
      var last := log[|log| - 1];
      CallsFor(log[..|log| - 1], head, name) + if last == Reservation(head, name, true) then 1 else 0
  }

  lemma CallsForOneMore(log: seq<Reservation>, one: Reservation, head: string, name: string)
    ensures CallsFor(log + [one], head, name) == CallsFor(log, head, name) + if one == Reservation(head, name, true)
              then 1 else 0
  {
    assert (log + [one])[..|log|] == log;
  }

  lemma {:induction false} CallsForAreCalls(log: seq<Reservation>, head: string, name: string)
    ensures CallsFor(log, head, name) <= Calls(log, name)
  {
    if log != [] {
      CallsForAreCalls(log[..|log| - 1], head, name);
    }
  }

  /** A head on which exactly the check `name` has failed, and whose rerun can be called. */
  function OnlyFailing(head: string, name: string): Observation {
    Observation(head, 0, CiResult(CiFail,
        [PolicyItem(true, false), RunItem(CheckRun(name, None, "completed", "failure"), false)]), true)
  }

  /** A poll of such a head from the first checkpoint, whose process dies right after the rerun call. */
  function Poll(head: string, name: string): Event {
    Event(0, OnlyFailing(head, name), DiesAfterCalling)
  }

  /** `n` rounds of polls of two heads. */
  function Rounds(a: string, b: string, name: string, n: nat): seq<Event> {
    if n == 0 then [] else Rounds(a, b, name, n - 1) + [Poll(a, name), Poll(b, name)]
  }

  lemma {:induction false} RoundsPollTheHeads(a: string, b: string, name: string, n: nat, i: nat)
    requires i < |Rounds(a, b, name, n)|
    ensures Rounds(a, b, name, n)[i].o.head in {a, b}
  {
    if n > 0 && i < |Rounds(a, b, name, n - 1)| {
      RoundsPollTheHeads(a, b, name, n - 1, i);
    }
  }

  /** The world after a poll of `head`: the ledger has forgotten every other head. */
  function Polled(w: World, head: string, name: string): World {
    World(w.checkpoints, Ledger(head, map[name := 1]), w.log + [Reservation(head, name, true)])
  }

  lemma PolledIsStep(policy: FlakyPolicy, timeout: nat, w: World, head: string)
    requires policy.Enabled() && timeout > 0 && w.checkpoints == [FreshCi] && DurableCounts(w.ledger, head) == map[]
    ensures Step(policy, timeout, w, Poll(head, policy.checks[0]), Polled(w, head, policy.checks[0]))
  {
    hide Failures, AllRetryable;
    var name := policy.checks[0];
    var o := OnlyFailing(head, name);
    var run := o.result.items[1];
    OnlyFailingShows(head, name);
    OneFailureIsRetryable(policy, run);
    assert Merged(FreshCi, o, w.ledger) == map[];
    OrderIsTotal(name, name);
    assert Due(policy, timeout, FreshCi, o, w.ledger, name) by {
      assert run in Failures(o.result.items) && run.check.name == name;
    }
    var w' := Polled(w, head, name);
    assert RetryStep(policy, timeout, FreshCi, o, DiesAfterCalling, w.ledger, name, true, w'.ledger, None);
    assert PollStep(policy, timeout, FreshCi, o, DiesAfterCalling, w.ledger, w.log, w'.ledger, w'.log, None);
  }

  lemma OnlyFailingShows(head: string, name: string)
    ensures Failures(OnlyFailing(head, name).result.items) == [OnlyFailing(head, name).result.items[1]]
  {
    var items := OnlyFailing(head, name).result.items;
    assert items[..|items| - 1] == [items[0]];
    assert [items[0]][..0] == [] && FailuresIn([items[0]], false) == [];
  }

  lemma OneFailureIsRetryable(policy: FlakyPolicy, run: Item)
    requires policy.Enabled() && run.RunItem? && run.check.name == policy.checks[0]
    ensures AllRetryable([run], policy, map[])
  {
  }

  lemma ExtendHistory(policy: FlakyPolicy, timeout: nat, events: seq<Event>, worlds: seq<World>, e: Event, w: World)
    requires IsHistory(policy, timeout, events, worlds) && Step(policy, timeout, worlds[|events|], e, w)
    ensures IsHistory(policy, timeout, events + [e], worlds + [w])
  {
    hide Step;
    var events', worlds' := events + [e], worlds + [w];
    forall i | 0 <= i < |events'| ensures Step(policy, timeout, worlds'[i], events'[i], worlds'[i + 1]) {
      if i == |events| {
        assert worlds'[i] == worlds[|events|] && worlds'[i + 1] == w && events'[i] == e;
      } else {
        assert worlds'[i] == worlds[i] && worlds'[i + 1] == worlds[i + 1] && events'[i] == events[i];
      }
    }
  }

  /** The limit does not survive a change of head: under every enabled policy, `n` rounds of polls of two heads
      rerun the same check of the same head `n` times. */
  lemma {:induction false} AlternatingHeadsForget(policy: FlakyPolicy, timeout: nat, a: string, b: string, n: nat)
    returns (worlds: seq<World>)
    requires policy.Enabled() && timeout > 0 && a != b
    ensures IsHistory(policy, timeout, Rounds(a, b, policy.checks[0], n), worlds)
    ensures |worlds| == 2 * n + 1 && CallsFor(worlds[2 * n].log, a, policy.checks[0]) == n
    ensures worlds[2 * n].checkpoints == [FreshCi] && DurableCounts(worlds[2 * n].ledger, a) == map[]
  {
    hide Step, IsHistory, FlakyPolicy.Enabled;
    var name := FirstCheck(policy);
    if n == 0 {
      worlds := [Initial];
      NoPolls(policy, timeout);
    } else {
      var n': nat := n - 1;
      var before := AlternatingHeadsForget(policy, timeout, a, b, n');
      var events := Rounds(a, b, name, n');
      HistoryLength(policy, timeout, events, before);
      var w0 := before[2 * n'];
      var w1 := Polled(w0, a, name);
      var w2 := Polled(w1, b, name);
      PolledIsStep(policy, timeout, w0, a);
      ExtendHistory(policy, timeout, events, before, Poll(a, name), w1);
      PolledIsStep(policy, timeout, w1, b);
      HistoryLength(policy, timeout, events + [Poll(a, name)], before + [w1]);
      ExtendHistory(policy, timeout, events + [Poll(a, name)], before + [w1], Poll(b, name), w2);
      worlds := before + [w1] + [w2];
      assert events + [Poll(a, name)] + [Poll(b, name)] == Rounds(a, b, name, n);
      CallsForOneMore(w0.log, Reservation(a, name, true), a, name);
      CallsForOneMore(w1.log, Reservation(b, name, true), a, name);
    }
  }

  function FirstCheck(policy: FlakyPolicy): (name: string)
    requires policy.Enabled()
  {
    policy.checks[0]
  }

  lemma NoPolls(policy: FlakyPolicy, timeout: nat)
    ensures IsHistory(policy, timeout, [], [Initial])
  {
  }

  lemma HistoryLength(policy: FlakyPolicy, timeout: nat, events: seq<Event>, worlds: seq<World>)
    requires IsHistory(policy, timeout, events, worlds)
    ensures |worlds| == |events| + 1
  {
  }

  ghost predicate PollsWithin(events: seq<Event>, heads: set<string>) {
    forall i :: 0 <= i < |events| ==> events[i].o.head in heads
  }

  /** No history that polls only these heads reruns a check of any head more often than the policy allows. */
  ghost predicate LimitHolds(policy: FlakyPolicy, timeout: nat, heads: set<string>) {
    forall events: seq<Event>, worlds: seq<World>, head: string, name: string ::
      IsHistory(policy, timeout, events, worlds) && PollsWithin(events, heads) ==>
        CallsFor(worlds[|events|].log, head, name) <= policy.maxRetries
  }

  /** The per-head limit of an enabled policy holds for every history over a set of heads exactly when there is at
      most one of them. */
  lemma LimitHoldsIff(policy: FlakyPolicy, timeout: nat, heads: set<string>)
    requires policy.Enabled() && timeout > 0
    ensures LimitHolds(policy, timeout, heads) <==> |heads| <= 1
  {
    hide Step, CallsFor, Rounds, FlakyPolicy.Enabled;
    if |heads| <= 1 {
      forall events: seq<Event>, worlds: seq<World>, head: string,
          name: string | IsHistory(policy, timeout, events, worlds) && PollsWithin(events, heads)
        ensures CallsFor(worlds[|events|].log, head, name) <= policy.maxRetries
      {
        OneHeadIsLimited(policy, timeout, heads, events, worlds, head, name);
      }
    } else {
      var a, b := TwoOf(heads);
      var n: nat := policy.maxRetries + 1;
      var worlds := AlternatingHeadsForget(policy, timeout, a, b, n);
      var events := Rounds(a, b, FirstCheck(policy), n);
      forall i | 0 <= i < |events| ensures events[i].o.head in heads {
        RoundsPollTheHeads(a, b, FirstCheck(policy), n, i);
      }
      HistoryLength(policy, timeout, events, worlds);
      assert PollsWithin(events, heads);
      assert CallsFor(worlds[|events|].log, a, FirstCheck(policy)) == n;
    }
  }

  lemma TwoOf(heads: set<string>) returns (a: string, b: string)
    requires |heads| > 1
    ensures a in heads && b in heads && a != b
  {
    a :| a in heads;
    var rest := heads - {a};
    assert |rest| > 0;
    b :| b in rest;
  }

  lemma OneHeadIsLimited(policy: FlakyPolicy, timeout: nat, heads: set<string>, events: seq<Event>, worlds: seq<World>,
                         head: string, name: string)
    requires |heads| <= 1 && IsHistory(policy, timeout, events, worlds) && PollsWithin(events, heads)
    ensures CallsFor(worlds[|events|].log, head, name) <= policy.maxRetries
  {
    hide IsHistory, CallsFor, Calls, Reserved;
    HistoryLength(policy, timeout, events, worlds);
    var only := "";
    if h :| h in heads {
      only := h;
      assert heads == {h} by {
        assert |heads - {h}| == 0;
      }
    }
    if events != [] {
      assert events[0].o.head in heads;
    }
    assert PollsOnly(events, only);
    RerunsAreBounded(policy, timeout, events, worlds, |events|, only, name);
    CallsForAreCalls(worlds[|events|].log, head, name);
  }
}
