/**
 Safety of the SQLite restore over all runs: any number of attempts, each dying between any two of
 its steps, and any number of disasters after a completed restore.
 */
module RestoreSafety {
  import opened Wrappers
  import opened BackupManifests
  import opened RestoreProtocol

  // ----- the publication order -----

  lemma {:induction false} OrderMembers(projects: seq<ProjectPlan>, k: Key)
    ensures k in FilesystemOrder(projects) <==> exists p :: p in projects && k in ProjectKeys(p)
  {
    hide ProjectKeys;
    if projects != [] {
      var init, last := projects[..|projects| - 1], projects[|projects| - 1];
      OrderMembers(init, k);
      assert projects == init + [last];
      if k in FilesystemOrder(init) {
        var p :| p in init && k in ProjectKeys(p);
        assert p in projects;
      }
    }
  }

  lemma ExpectedMembers(projects: seq<ProjectPlan>, k: Key)
    ensures k in ExpectedKeys(projects) <==> k == Database || exists p :: p in projects && k in ProjectKeys(p)
  {
    if p :| p in projects && k in ProjectKeys(p) {
      KeysOfProject(p, k);
    }
    if k in ExpectedKeys(projects) && k != Database {
      var p :| p in projects && p.id == k.project && (k.Worktree? ==> !p.worktreeInState);
      KeysOfProject(p, k);
    }
  }

  lemma KeysOfProject(p: ProjectPlan, k: Key)
    ensures k in ProjectKeys(p) <==> k != Database && k.project == p.id && (k.Worktree? ==> !p.worktreeInState)
  {
    var keys := ProjectKeys(p);
    assert keys[0] == Requirements(p.id) && keys[1] == Config(p.id) && keys[2] == Repository(p.id)
        && keys[3] == StateDir(p.id);
    assert !p.worktreeInState ==> keys[4] == Worktree(p.id);
  }

  predicate Distinct(keys: seq<Key>) {
    forall i, j :: 0 <= i < j < |keys| ==> keys[i] != keys[j]
  }

  lemma {:induction false} FilesystemOrderDistinct(projects: seq<ProjectPlan>)
    requires forall i, j :: 0 <= i < j < |projects| ==> projects[i].id != projects[j].id
    ensures Distinct(FilesystemOrder(projects))
  {
    hide ProjectKeys;
    if projects != [] {
      var init, last := projects[..|projects| - 1], projects[|projects| - 1];
      FilesystemOrderDistinct(init);
      var before, more := FilesystemOrder(init), ProjectKeys(last);
      ProjectKeysDistinct(last);
      forall i, j | 0 <= i < j < |before + more| ensures (before + more)[i] != (before + more)[j] {
        if i < |before| <= j {
          var k := before[i];
          OrderMembers(init, k);
          var p :| p in init && k in ProjectKeys(p);
          KeysOfProject(p, k);
          KeysOfProject(last, more[j - |before|]);
        }
      }
    }
  }

  lemma ProjectKeysDistinct(p: ProjectPlan)
    ensures Distinct(ProjectKeys(p))
  {
  }

  lemma OrderFacts(plan: Plan)
    requires ReadyPlan(plan)
    ensures Order(plan) != [] && Order(plan)[|Order(plan)| - 1] == Database
    ensures Distinct(Order(plan))
    ensures (set k | k in Order(plan)) == ExpectedKeys(plan.projects)
  {
    hide ExpectedKeys, FilesystemOrder, ProjectKeys;
    FilesystemOrderDistinct(plan.projects);
    forall k ensures k in Order(plan) <==> k in ExpectedKeys(plan.projects) {
      OrderMembers(plan.projects, k);
      ExpectedMembers(plan.projects, k);
    }
    OrderMembers(plan.projects, Database);
    if p :| p in plan.projects && Database in ProjectKeys(p) {
      KeysOfProject(p, Database);
    }
  }

  lemma StateDirIsPlanned(plan: Plan, p: ProjectPlan)
    requires ReadyPlan(plan) && p in plan.projects
    ensures StateDir(p.id) in Order(plan)
  {
    hide FilesystemOrder, ProjectKeys;
    KeysOfProject(p, StateDir(p.id));
    OrderMembers(plan.projects, StateDir(p.id));
  }

  // ----- the reachable hosts -----

  function Restored(plan: Plan, keys: seq<Key>): map<Key, Artifact> {
    map k | k in keys :: Wanted(plan, k)
  }

  /** The first `n` keys are published and recorded, in order. The next one may be staged, or already
      moved to its target without a record. */
  ghost predicate Position(plan: Plan, h: Host, n: nat, moved: bool) {
    var order := Order(plan);
    && n <= |order| && (moved ==> n < |order|)
    && h.journal == Some(order[..n])
    && h.targets == Restored(plan, order[..if moved then n + 1 else n])
    && h.stages.Keys <= (if moved || n == |order| then {} else {order[n]})
  }

  const FRESH := Host(map[], map[], None)

  /** All targets are gone after a restore that had completed. */
  ghost predicate Wiped(plan: Plan, h: Host) {
    h == Host(map[], map[], Some(Order(plan)))
  }

  ghost predicate Reachable(plan: Plan, h: Host) {
    h == FRESH || Wiped(plan, h) || exists n: nat, moved :: Position(plan, h, n, moved)
  }

  /** A half-copied database file lies inside a state directory. */
  ghost predicate Blocked(plan: Plan, h: Host) {
    Database in h.stages && DatabaseNested(plan)
  }

  predicate DatabaseNested(plan: Plan) {
    exists p :: p in plan.projects && p.databaseInState
  }

  // ----- one key -----

  /** A restored target passes its check unless a database stage lies inside it. */
  lemma RestoredIsAcceptable(plan: Plan, h: Host, key: Key)
    requires ReadyPlan(plan) && key in Order(plan) && key in h.targets && h.targets[key] == Wanted(plan, key)
    ensures Acceptable(plan, h, key) <==>
              !(key.StateDir? && DatabaseInside(plan, key.project) && Database in h.stages)
  {
    hide Order;
    KeyIsPlanned(plan, key);
    if key.StateDir? {
      var own := plan.states[key];
      var p :| p in plan.projects && key == StateDir(p.id);
      var files := StateFiles(plan, h, key, own);
      if DatabaseInside(plan, key.project) {
        if Database in h.stages {
          assert plan.databaseStage in files - Ignored(plan, key);
        } else {
          assert files - Ignored(plan, key) == own;
        }
      } else {
        assert files - {} == own;
      }
    }
  }

  /** Every key of the order has its artifact in the backup. */
  lemma KeyIsPlanned(plan: Plan, key: Key)
    requires ReadyPlan(plan) && key in Order(plan)
    ensures Wanted(plan, key) != Partial
    ensures key.StateDir? ==> exists p :: p in plan.projects && key == StateDir(p.id)
  {
    hide FilesystemOrder, ProjectKeys;
    OrderMembers(plan.projects, key);
    if key != Database {
      var p :| p in plan.projects && key in ProjectKeys(p);
      KeysOfProject(p, key);
    }
  }

  /** Ensuring a key that is already recorded changes nothing. */
  lemma RecordedKeyStays(plan: Plan, r: Run, n: nat, moved: bool, i: nat)
    requires ReadyPlan(plan) && r.status == Running && Position(plan, r.host, n, moved) && i < n
    ensures EnsureKey(plan, r, Order(plan)[i]) == r || EnsureKey(plan, r, Order(plan)[i]) == Refuse(r)
    ensures EnsureKey(plan, r, Order(plan)[i]) == r <==> Acceptable(plan, r.host, Order(plan)[i])
  {
    var key := Order(plan)[i];
    assert key == Order(plan)[..n][i];
  }

  /** Ensuring the next key records it, or dies on the way; it never refuses. */
  lemma NextKeyAdvances(plan: Plan, r: Run, n: nat, moved: bool)
    requires ReadyPlan(plan) && r.status == Running && Position(plan, r.host, n, moved) && n < |Order(plan)|
    ensures var r' := EnsureKey(plan, r, Order(plan)[n]);
            || (r'.status == Running && Position(plan, r'.host, n + 1, false) && r'.fuel + 5 >= r.fuel
                && r'.host.stages == map[])
            || (r'.status == Crashed && r.fuel < 5 && exists moved' :: Position(plan, r'.host, n, moved'))
    ensures var r' := EnsureKey(plan, r, Order(plan)[n]);
            !moved && r.host.stages == map[] && r.fuel >= 4 ==> r'.status == Running && r'.fuel == r.fuel - 4
  {
    hide Order, Acceptable, Publish, Mark;
    var order := Order(plan);
    var key := order[n];
    OrderFacts(plan);
    assert order[..n + 1] == order[..n] + [key];
    assert key !in order[..n];
    if moved {
      assert Restored(plan, order[..n + 1])[key] == Wanted(plan, key);
      RestoredIsAcceptable(plan, r.host, key);
      MarkAdvances(plan, r, n);
    } else {
      PublishMoves(plan, r, n);
      var out := Publish(plan, r, key);
      if out.status == Running {
        assert Restored(plan, order[..n + 1])[key] == Wanted(plan, key);
        RestoredIsAcceptable(plan, out.host, key);
        MarkAdvances(plan, out, n);
      }
    }
  }

  lemma MarkAdvances(plan: Plan, r: Run, n: nat)
    requires ReadyPlan(plan) && r.status == Running && n < |Order(plan)| && Position(plan, r.host, n, true)
    ensures var r' := Mark(r, Order(plan)[n]);
            if r.fuel > 0 then r'.status == Running && Position(plan, r'.host, n + 1, false) && r'.fuel == r.fuel - 1
                               && r'.host.stages == map[]
            else r'.status == Crashed && r'.host == r.host
  {
    hide Order;
    var order := Order(plan);
    OrderFacts(plan);
    assert order[..n + 1] == order[..n] + [order[n]];
    assert order[n] !in order[..n];
  }

  lemma PublishMoves(plan: Plan, r: Run, n: nat)
    requires ReadyPlan(plan) && r.status == Running && n < |Order(plan)| && Position(plan, r.host, n, false)
    ensures var out := Publish(plan, r, Order(plan)[n]);
            var cost := if Order(plan)[n] in r.host.stages then 4 else 3;
            if r.fuel >= cost then out.status == Running && Position(plan, out.host, n, true)
                && out.fuel == r.fuel - cost
            else out.status == Crashed && Position(plan, out.host, n, false)
  {
    hide Order, Wanted;
    var order := Order(plan);
    var key := order[n];
    assert order[..n + 1] == order[..n] + [key];
    var cleared := if key in r.host.stages then Act(r, r.host.(stages := r.host.stages - {key})) else r;
    assert cleared.status == Running ==> cleared.host == r.host.(stages := map[]) by {
      assert r.host.stages.Keys <= {key};
    }
    if cleared.status == Running {
      PublishFromClear(plan, cleared, n);
    }
  }

  lemma PublishFromClear(plan: Plan, r: Run, n: nat)
    requires r.status == Running && n < |Order(plan)| && Position(plan, r.host, n, false) && r.host.stages == map[]
    ensures var out := Publish(plan, r, Order(plan)[n]);
            if r.fuel >= 3 then out.status == Running && Position(plan, out.host, n, true) && out.fuel == r.fuel - 3
            else out.status == Crashed && Position(plan, out.host, n, false)
  {
    hide Order, Wanted;
    var order := Order(plan);
    var key := order[n];
    assert order[..n + 1] == order[..n] + [key];
    var out := Publish(plan, r, key);
    if out.status == Running {
      assert out.host.targets == Restored(plan, order[..n + 1]);
      assert out.host.stages == map[];
    }
  }

  // ----- an attempt -----

  /** From a position without a blocking stage, the keys up to `k` end recorded or the process dies at
      a position; it never refuses. */
  lemma {:induction false} KeysAdvance(plan: Plan, r: Run, n: nat, moved: bool, k: nat)
    requires ReadyPlan(plan) && r.status == Running && Position(plan, r.host, n, moved) && k <= |Order(plan)|
    requires !Blocked(plan, r.host)
    ensures var r' := EnsureAll(plan, r, Order(plan)[..k]);
            || (r'.status == Running && r'.fuel + 5 * k >= r.fuel
                && (if k <= n then r' == r else Position(plan, r'.host, k, false) && r'.host.stages == map[]))
            || (r'.status == Crashed && r.fuel < 5 * k && exists n': nat, moved' :: Position(plan, r'.host, n', moved'))
    decreases k
  {
    hide EnsureKey, Acceptable, Order, Position;
    if k > 0 {
      var order := Order(plan);
      assert order[..k][..k - 1] == order[..k - 1] && order[..k][k - 1] == order[k - 1];
      KeysAdvance(plan, r, n, moved, k - 1);
      var before := EnsureAll(plan, r, order[..k - 1]);
      if before.status == Running {
        if k <= n {
          RecordedKeyPasses(plan, r, n, moved, k - 1);
        } else if k - 1 == n {
          NextKeyAdvances(plan, before, n, moved && before == r);
        } else {
          NextKeyAdvances(plan, before, k - 1, false);
        }
      } else {
        CrashedStays(plan, before, order[k - 1]);
      }
    }
  }

  lemma CrashedStays(plan: Plan, r: Run, key: Key)
    requires r.status != Running
    ensures EnsureKey(plan, r, key) == r
  {
  }

  lemma RecordedKeyPasses(plan: Plan, r: Run, n: nat, moved: bool, i: nat)
    requires ReadyPlan(plan) && r.status == Running && Position(plan, r.host, n, moved) && i < n
    requires !Blocked(plan, r.host)
    ensures EnsureKey(plan, r, Order(plan)[i]) == r
  {
    hide EnsureKey, Acceptable, StateFiles;
    var order := Order(plan);
    var key := order[i];
    assert key == order[..n][i];
    assert order[..if moved then n + 1 else n][i] == key;
    RestoredIsAcceptable(plan, r.host, key);
    RecordedKeyStays(plan, r, n, moved, i);
  }

  function Finished(plan: Plan): Host {
    Host(Restored(plan, Order(plan)), map[], Some(Order(plan)))
  }

  function EnoughFuel(plan: Plan): nat {
    1 + 5 * |Order(plan)|
  }

  lemma FinishedIsLastPosition(plan: Plan, h: Host, moved: bool)
    requires Position(plan, h, |Order(plan)|, moved)
    ensures h == Finished(plan)
  {
    assert Order(plan)[..|Order(plan)|] == Order(plan);
  }

  /** A complete journal at a position means the database target is there. */
  lemma CompleteHasDatabase(plan: Plan, h: Host, n: nat, moved: bool)
    requires ReadyPlan(plan) && Position(plan, h, n, moved)
    ensures (set k | k in h.journal.value) <= ExpectedKeys(plan.projects)
    ensures Complete(plan, h.journal.value) ==> Database in h.targets
  {
    hide Order, ExpectedKeys;
    OrderFacts(plan);
    var order := Order(plan);
    assert forall k :: k in order[..n] ==> k in order && k in order[..if moved then n + 1 else n];
    if Complete(plan, h.journal.value) {
      DatabaseIsExpected(plan);
      assert Database in (set k | k in h.journal.value);
    }
  }

  lemma DatabaseIsExpected(plan: Plan)
    ensures Database in ExpectedKeys(plan.projects)
  {
  }

  lemma OpenReachable(plan: Plan, h: Host, fuel: nat)
    requires ReadyPlan(plan) && Reachable(plan, h)
    ensures var r := Open(plan, h, fuel);
            || (r.status == Crashed && fuel == 0 && r.host == h)
            || (r.status == Running && r.fuel + 1 >= fuel && exists n: nat, moved :: Position(plan, r.host, n, moved))
    ensures (exists n: nat, moved :: Position(plan, h, n, moved)) ==> Open(plan, h, fuel) == Run(h, fuel, Running)
    ensures (h == FRESH || Wiped(plan, h)) && fuel > 0 ==>
              Open(plan, h, fuel).status == Running && Position(plan, Open(plan, h, fuel).host, 0, false)
              && Open(plan, h, fuel).fuel == fuel - 1 && Open(plan, h, fuel).host.stages == map[]
  {
    hide Order, ExpectedKeys;
    OrderFacts(plan);
    assert Order(plan)[..0] == [] && Restored(plan, []) == map[];
    assert Position(plan, Host(map[], map[], Some([])), 0, false);
    if n: nat, moved :| Position(plan, h, n, moved) {
      CompleteHasDatabase(plan, h, n, moved);
    }
  }

  /** An attempt that nothing blocks leads from reachable hosts to reachable hosts whatever its fuel,
      and with enough fuel it always ends with the finished host. */
  lemma UnblockedAttempt(plan: Plan, h: Host, fuel: nat)
    requires ReadyPlan(plan) && Reachable(plan, h) && !Blocked(plan, h)
    ensures Reachable(plan, Attempt(plan, h, fuel).host) && Attempt(plan, h, fuel).status != Refused
    ensures fuel >= EnoughFuel(plan) || Attempt(plan, h, fuel).status == Running ==>
              Attempt(plan, h, fuel).status == Running && Attempt(plan, h, fuel).host == Finished(plan)
  {
    hide EnsureKey, EnsureAll;
    var order := Order(plan);
    assert order[..|order|] == order;
    OpenReachable(plan, h, fuel);
    var r := Open(plan, h, fuel);
    if r.status == Running {
      var n: nat, moved :| Position(plan, r.host, n, moved);
      KeysAdvance(plan, r, n, moved, |order|);
      var r' := EnsureAll(plan, r, order);
      if r'.status == Running {
        FinishedIsLastPosition(plan, r'.host, if n == |order| then moved else false);
      }
    } else {
      StoppedStays(plan, r, order);
    }
  }

  lemma {:induction false} StoppedStays(plan: Plan, r: Run, keys: seq<Key>)
    requires r.status != Running
    ensures EnsureAll(plan, r, keys) == r
  {
    if keys != [] {
      StoppedStays(plan, r, keys[..|keys| - 1]);
    }
  }

  /** With a half-copied database inside a state directory every attempt refuses and changes nothing. */
  lemma BlockedAttempt(plan: Plan, h: Host, fuel: nat)
    requires ReadyPlan(plan) && Reachable(plan, h) && Blocked(plan, h)
    ensures Attempt(plan, h, fuel) == Run(h, fuel, Refused)
  {
    hide EnsureKey, Acceptable, Order, ExpectedKeys, Wanted, Open;
    var order := Order(plan);
    var n: nat, moved :| Position(plan, h, n, moved);
    OrderFacts(plan);
    OpenReachable(plan, h, fuel);
    var r := Run(h, fuel, Running);
    assert Database == order[n] && n == |order| - 1;
    var p :| p in plan.projects && p.databaseInState;
    StateDirIsPlanned(plan, p);
    var i :| 0 <= i < |order| && order[i] == StateDir(p.id);
    assert order[..n][i] == order[i];
    RestoredIsAcceptable(plan, h, order[i]);
    KeysRefuse(plan, r, n, i, |order|);
    assert order[..|order|] == order;
  }

  lemma {:induction false} KeysRefuse(plan: Plan, r: Run, n: nat, i: nat, k: nat)
    requires ReadyPlan(plan) && r.status == Running && Position(plan, r.host, n, false) && i < n <= |Order(plan)|
    requires Order(plan)[i] in r.host.targets && !Acceptable(plan, r.host, Order(plan)[i])
    requires k <= |Order(plan)| && k <= n + 1
    ensures var r' := EnsureAll(plan, r, Order(plan)[..k]); r' == Refuse(r) || (r' == r && k <= i)
    decreases k
  {
    hide EnsureKey, EnsureAll, Acceptable, Order, Position, ReadyPlan;
    var order := Order(plan);
    if k == 0 {
      NoKeys(plan, r, order[..0]);
    } else {
      var k': nat := k - 1;
      KeysRefuse(plan, r, n, i, k');
      OneMoreKey(plan, r, order, k', k);
      var before := EnsureAll(plan, r, order[..k']);
      if before.status == Running {
        RefusingKey(plan, r, n, i, k');
      } else {
        CrashedStays(plan, before, order[k']);
      }
    }
  }

  lemma NoKeys(plan: Plan, r: Run, none: seq<Key>)
    requires none == []
    ensures EnsureAll(plan, r, none) == r
  {
  }

  lemma OneMoreKey(plan: Plan, r: Run, order: seq<Key>, k: nat, k': nat)
    requires k' == k + 1 <= |order|
    ensures EnsureAll(plan, r, order[..k']) == EnsureKey(plan, EnsureAll(plan, r, order[..k]), order[k])
  {
    hide EnsureKey;
    assert order[..k'][..k] == order[..k] && order[..k'][k] == order[k];
  }

  /** The next key, from a host in which key `i` was published and is no longer acceptable. */
  lemma RefusingKey(plan: Plan, r: Run, n: nat, i: nat, k: nat)
    requires ReadyPlan(plan) && r.status == Running && Position(plan, r.host, n, false) && i < n <= |Order(plan)|
    requires Order(plan)[i] in r.host.targets && !Acceptable(plan, r.host, Order(plan)[i])
    requires k < |Order(plan)| && k <= i
    ensures var r' := EnsureKey(plan, r, Order(plan)[k]); r' == Refuse(r) || (r' == r && k < i)
  {
    hide Acceptable, Order, Position, ReadyPlan;
    RecordedKeyStays(plan, r, n, false, k);
  }

  // ----- whole runs -----

  /** An attempt that dies after `fuel` steps if it needs more, or the loss of every target after a
      restore whose journal is complete. */
  datatype Event = TryRestore(fuel: nat) | LoseTargets

  function Apply(plan: Plan, h: Host, e: Event): Host {
    match e
    case TryRestore(fuel) => Attempt(plan, h, fuel).host
    case LoseTargets => if h.journal.Some? && Complete(plan, h.journal.value) then h.(targets := map[]) else h
  }

  function After(plan: Plan, events: seq<Event>): Host {
    if events == [] then FRESH else Apply(plan, After(plan, events[..|events| - 1]), events[|events| - 1])
  }

  lemma StepReachable(plan: Plan, h: Host, e: Event)
    requires ReadyPlan(plan) && Reachable(plan, h)
    ensures Reachable(plan, Apply(plan, h, e))
  {
    hide Attempt;
    match e
    case TryRestore(fuel) =>
      if Blocked(plan, h) {
        BlockedAttempt(plan, h, fuel);
      } else {
        UnblockedAttempt(plan, h, fuel);
      }
    case LoseTargets =>
      OrderFacts(plan);
      if h.journal.Some? && Complete(plan, h.journal.value) && !Wiped(plan, h) {
        CompleteIsLast(plan, h);
      }
  }

  lemma CompleteIsLast(plan: Plan, h: Host)
    requires ReadyPlan(plan) && Reachable(plan, h) && !Wiped(plan, h)
    requires h.journal.Some? && Complete(plan, h.journal.value)
    ensures h == Finished(plan)
  {
    var order := Order(plan);
    var n: nat, moved :| Position(plan, h, n, moved);
    OrderFacts(plan);
    assert Database in order[..n];
    assert n == |order|;
    FinishedIsLastPosition(plan, h, moved);
  }

  lemma {:induction false} RunsStayReachable(plan: Plan, events: seq<Event>)
    requires ReadyPlan(plan)
    ensures Reachable(plan, After(plan, events))
  {
    hide Apply, Reachable;
    if events == [] {
      FreshIsReachable(plan);
    } else {
      RunsStayReachable(plan, events[..|events| - 1]);
      StepReachable(plan, After(plan, events[..|events| - 1]), events[|events| - 1]);
    }
  }

  lemma FreshIsReachable(plan: Plan)
    ensures Reachable(plan, FRESH)
  {
  }

  /** After every run: a target is absent or exactly the manifest's content, a recorded key's target
      exists (unless the targets were lost after completion), and the database target exists only
      when the target of every other expected key does. */
  lemma RunsAreSafe(plan: Plan, events: seq<Event>)
    requires ReadyPlan(plan)
    ensures Safe(plan, After(plan, events))
  {
    hide Apply, Safe;
    RunsStayReachable(plan, events);
    ReachableIsSafe(plan, After(plan, events));
  }

  ghost predicate Safe(plan: Plan, h: Host) {
    && (forall k :: k in h.targets ==> k in ExpectedKeys(plan.projects) && h.targets[k] == Wanted(plan, k)
                                       && h.targets[k] != Partial)
    && (!Wiped(plan, h) ==> forall k :: Published(h, k) ==> k in h.targets)
    && (Database in h.targets ==> h.targets.Keys == ExpectedKeys(plan.projects))
    && (h.journal.Some? ==> Distinct(h.journal.value))
  }

  lemma ReachableIsSafe(plan: Plan, h: Host)
    requires ReadyPlan(plan) && Reachable(plan, h)
    ensures Safe(plan, h)
  {
    hide Order, ExpectedKeys, Wanted;
    OrderFacts(plan);
    var order := Order(plan);
    if n: nat, moved :| Position(plan, h, n, moved) {
      var m := if moved then n + 1 else n;
      forall k | k in h.targets ensures k in ExpectedKeys(plan.projects) && h.targets[k] != Partial {
        assert k in order[..m] && k in order;
        KeyIsPlanned(plan, k);
      }
      forall k | Published(h, k) ensures k in h.targets {
        var i :| 0 <= i < n && order[..n][i] == k;
        assert order[..m][i] == k;
      }
      if Database in h.targets {
        assert m == |order|;
        assert order[..m] == order;
      }
    }
  }

  /** An uninterrupted attempt from any point of any run ends with the same host as a run that never
      crashed, exactly when no half-copied database blocks it; otherwise it refuses. */
  lemma ResumeCompletesIff(plan: Plan, events: seq<Event>, fuel: nat)
    requires ReadyPlan(plan) && fuel >= EnoughFuel(plan)
    ensures var h := After(plan, events); var r := Attempt(plan, h, fuel);
            && (r.status == Running <==> !Blocked(plan, h))
            && (r.status == Running ==> r.host == Finished(plan) && r.host == Attempt(plan, FRESH, fuel).host)
            && (r.status != Running ==> r == Run(h, fuel, Refused))
  {
    hide Attempt, Reachable;
    RunsStayReachable(plan, events);
    FreshIsReachable(plan);
    UnblockedAttempt(plan, FRESH, fuel);
    var h := After(plan, events);
    if Blocked(plan, h) {
      BlockedAttempt(plan, h, fuel);
    } else {
      UnblockedAttempt(plan, h, fuel);
    }
  }

  /** A disaster after a completed restore loses every target, and the next attempt restores them all again. */
  lemma DisasterIsSurvived(plan: Plan, events: seq<Event>, fuel: nat)
    requires ReadyPlan(plan) && fuel >= EnoughFuel(plan) && !Blocked(plan, After(plan, events))
    ensures var restored := events + [TryRestore(fuel)];
            && After(plan, restored) == Finished(plan)
            && After(plan, restored + [LoseTargets]) == Finished(plan).(targets := map[])
            && After(plan, restored + [LoseTargets] + [TryRestore(fuel)]) == Finished(plan)
  {
    hide Attempt, Reachable, Order, ExpectedKeys, ReadyPlan, Blocked;
    var restored := events + [TryRestore(fuel)];
    var lost := restored + [LoseTargets];
    OneMoreEvent(plan, events, TryRestore(fuel));
    OneMoreEvent(plan, restored, LoseTargets);
    OneMoreEvent(plan, lost, TryRestore(fuel));
    ResumeCompletesIff(plan, events, fuel);
    OrderFacts(plan);
    assert !Blocked(plan, After(plan, lost)) by {
      NothingBlocks(plan, After(plan, lost));
    }
    ResumeCompletesIff(plan, lost, fuel);
  }

  lemma OneMoreEvent(plan: Plan, events: seq<Event>, e: Event)
    ensures After(plan, events + [e]) == Apply(plan, After(plan, events), e)
  {
    hide Apply;
    assert (events + [e])[..|events|] == events;
  }

  lemma NothingBlocks(plan: Plan, h: Host)
    requires h.stages == map[]
    ensures !Blocked(plan, h)
  {
  }

  // ----- when resuming always works -----

  lemma {:induction false} CleanKeysCostFour(plan: Plan, r: Run, k: nat)
    requires ReadyPlan(plan) && r.status == Running && Position(plan, r.host, 0, false) && r.host.stages == map[]
    requires k <= |Order(plan)| && r.fuel >= 4 * k
    ensures var r' := EnsureAll(plan, r, Order(plan)[..k]);
            r'.status == Running && Position(plan, r'.host, k, false) && r'.host.stages == map[]
                && r'.fuel == r.fuel - 4 * k
    decreases k
  {
    hide EnsureKey;
    if k > 0 {
      var order := Order(plan);
      assert order[..k][..k - 1] == order[..k - 1] && order[..k][k - 1] == order[k - 1];
      CleanKeysCostFour(plan, r, k - 1);
      NextKeyAdvances(plan, EnsureAll(plan, r, order[..k - 1]), k - 1, false);
    }
  }

  /** Dying between the copy of the database file and its move leaves the stage behind. */
  lemma DyingWhileCopying(plan: Plan)
    requires ReadyPlan(plan)
    ensures Database in After(plan, [TryRestore(2 + 4 * (|Order(plan)| - 1))]).stages
  {
    hide EnsureKey, Order, Open, Position, ReadyPlan;
    var order := Order(plan);
    OrderFacts(plan);
    var last := |order| - 1;
    var fuel := 2 + 4 * last;
    FreshIsReachable(plan);
    OpenReachable(plan, FRESH, fuel);
    var begun := Open(plan, FRESH, fuel);
    CleanKeysCostFour(plan, begun, last);
    DatabaseStaged(plan, EnsureAll(plan, begun, order[..last]));
    assert After(plan, [TryRestore(fuel)]) == Attempt(plan, FRESH, fuel).host by {
      assert [TryRestore(fuel)][..0] == [];
    }
  }

  lemma DatabaseStaged(plan: Plan, r: Run)
    requires ReadyPlan(plan) && r.status == Running && r.fuel == 1 && r.host.stages == map[]
    requires |Order(plan)| > 0 && Position(plan, r.host, |Order(plan)| - 1, false)
    ensures Database in EnsureKey(plan, r, Database).host.stages
  {
    hide Order, Acceptable, Wanted;
    var order := Order(plan);
    OrderFacts(plan);
    assert Database !in order[..|order| - 1];
  }

  /** Every run can be resumed to completion exactly when the database target lies outside every
      state directory, which is the guard of `_inside(database_target, target)`. */
  lemma ResumableIff(plan: Plan)
    requires ReadyPlan(plan)
    ensures (forall events :: Attempt(plan, After(plan, events), EnoughFuel(plan)).status == Running)
            <==> !DatabaseNested(plan)
  {
    hide Attempt, After;
    forall events | !DatabaseNested(plan)
        ensures Attempt(plan, After(plan, events), EnoughFuel(plan)).status == Running {
      ResumeCompletesIff(plan, events, EnoughFuel(plan));
    }
    if DatabaseNested(plan) {
      var events := [TryRestore(2 + 4 * (|Order(plan)| - 1))];
      DyingWhileCopying(plan);
      ResumeCompletesIff(plan, events, EnoughFuel(plan));
      assert Attempt(plan, After(plan, events), EnoughFuel(plan)).status != Running;
    }
  }
}
