/**
 The SQLite restore over hosts that others change too (`restore_apply.py`, lines 165-207, 259-460 and
 485-626): for every host, whatever occupies its targets, what an attempt accepts, refuses and leaves.
 */
module RestoreInterference {
  import opened Wrappers
  import opened BackupManifests
  import opened RestoreProtocol
  import opened RestoreSafety

  // ----- what the backup holds -----

  /** The path of the database target below the state directory `key`. */
  predicate IsNestedDatabase(plan: Plan, key: Key, path: RelPath)
    requires key.StateDir?
  {
    DatabaseInside(plan, key.project) && path == plan.databaseFile
  }

  /** Only the project whose state directory holds the database target sees it there. */
  lemma DatabaseNestsOnce(plan: Plan, p: ProjectPlan)
    requires ReadyPlan(plan) && p in plan.projects
    ensures DatabaseInside(plan, p.id) <==> p.databaseInState
  {
    var i :| 0 <= i < |plan.projects| && plan.projects[i] == p;
    if q :| q in plan.projects && q.id == p.id && q.databaseInState {
      var j :| 0 <= j < |plan.projects| && plan.projects[j] == q;
      assert i == j;
    }
  }

  /** Two directories hold the same file at a path, or none. */
  predicate SameAt(a: FileTree, b: FileTree, path: RelPath) {
    (path in a <==> path in b) && (path in a && path in b ==> a[path] == b[path])
  }

  /** The artifact is the backup's for this key: the text, the checkout, every file of the state but a
      nested database target, or an empty worktree. */
  ghost predicate Matches(plan: Plan, key: Key, a: Artifact) {
    match key
    case Requirements(_) => key in plan.texts && a == File(plan.texts[key])
    case Config(_) => key in plan.texts && a == File(plan.texts[key])
    case Repository(_) => key in plan.repos && a == Repo(plan.repos[key])
    case StateDir(_) =>
      key in plan.states && a.Tree?
      && forall path :: !IsNestedDatabase(plan, key, path) ==> SameAt(a.files, plan.states[key], path)
    case Worktree(_) => a == EmptyDir
    case Database => key in plan.texts && a == File(plan.texts[key])
  }

  /** A database stage is left over below this state directory. */
  predicate Shadowed(plan: Plan, h: Host, key: Key) {
    key.StateDir? && DatabaseInside(plan, key.project) && Database in h.stages
  }

  ghost predicate Holds(plan: Plan, h: Host, key: Key) {
    key in h.targets && Matches(plan, key, h.targets[key]) && !Shadowed(plan, h, key)
  }

  // ----- one key on any host -----

  lemma StateIsAcceptableIff(plan: Plan, h: Host, p: ProjectPlan)
    requires ReadyPlan(plan) && p in plan.projects && StateDir(p.id) in h.targets
    ensures Acceptable(plan, h, StateDir(p.id)) <==> Holds(plan, h, StateDir(p.id))
  {
    var key := StateDir(p.id);
    if h.targets[key].Tree? {
      var own := h.targets[key].files;
      var rest := StateFiles(plan, h, key, own) - Ignored(plan, key);
      if Shadowed(plan, h, key) {
        assert plan.databaseStage in rest;
      } else {
        StateRest(plan, h, key, own);
        if Matches(plan, key, h.targets[key]) {
          assert forall path :: path in rest <==> path in plan.states[key];
          assert rest == plan.states[key];
        }
      }
    }
  }

  lemma StateRest(plan: Plan, h: Host, key: Key, own: FileTree)
    requires key.StateDir? && !Shadowed(plan, h, key)
    ensures var rest := StateFiles(plan, h, key, own) - Ignored(plan, key);
            forall path :: if IsNestedDatabase(plan, key, path) then path !in rest else SameAt(rest, own, path)
  {
  }

  /** The check of an existing target passes exactly on the backup's content. */
  lemma AcceptableIff(plan: Plan, h: Host, key: Key)
    requires ReadyPlan(plan) && key in Order(plan) && key in h.targets
    ensures Acceptable(plan, h, key) <==> Holds(plan, h, key)
  {
    hide Order;
    KeyIsPlanned(plan, key);
    if key.StateDir? {
      var p :| p in plan.projects && key == StateDir(p.id);
      StateIsAcceptableIff(plan, h, p);
    }
  }

  /** What is published is the backup's. */
  lemma WantedMatches(plan: Plan, key: Key)
    requires ReadyPlan(plan) && key in Order(plan)
    ensures Matches(plan, key, Wanted(plan, key))
  {
    hide Order;
    KeyIsPlanned(plan, key);
  }

  /** Any other content at the target, or none although the key is recorded, ends the process and changes nothing. */
  lemma ForeignIsRefused(plan: Plan, r: Run, key: Key)
    requires ReadyPlan(plan) && key in Order(plan) && r.status == Running
    requires if key in r.host.targets then !Holds(plan, r.host, key) else Published(r.host, key)
    ensures EnsureKey(plan, r, key) == r.(status := Refused)
  {
    hide Order, Acceptable, Holds;
    if key in r.host.targets {
      AcceptableIff(plan, r.host, key);
    }
  }

  /** The key can be accepted, or published and then accepted. */
  ghost predicate Passes(plan: Plan, h: Host, key: Key) {
    if key in h.targets then Holds(plan, h, key) else !Published(h, key) && !Shadowed(plan, h, key)
  }

  /** What one key may change: targets are only added, and only at that key; other keys keep their stages and
      records. */
  ghost predicate Frame(plan: Plan, h: Host, h': Host, keys: seq<Key>) {
    && (forall k :: k in h.targets ==> k in h'.targets && h'.targets[k] == h.targets[k])
    && (forall k :: k in h'.targets && k !in h.targets ==>
                      k in keys && h'.targets[k] == Wanted(plan, k) && !Published(h, k))
    && (forall k :: k !in keys ==> (k in h.stages <==> k in h'.stages) && (Published(h, k) <==> Published(h', k)))
    && (forall k :: Published(h, k) ==> Published(h', k))
    && (h.journal.Some? <==> h'.journal.Some?)
  }

  /** Publishing alone: no record is written, and a process that lives has moved the backup's content into place. */
  ghost predicate PublishedAs(plan: Plan, r: Run, r': Run, key: Key) {
    && r'.host.journal == r.host.journal
    && r'.host.targets == (if r'.status == Running then r.host.targets[key := Wanted(plan, key)] else r.host.targets)
    && (forall k :: k != key ==> (k in r.host.stages <==> k in r'.host.stages))
    && (r'.status == Running ==> key !in r'.host.stages)
    && r'.status != Refused && (r.fuel >= 4 ==> r'.status == Running && r'.fuel >= r.fuel - 4)
  }

  lemma PublishFrame(plan: Plan, r: Run, key: Key)
    requires r.status == Running
    ensures PublishedAs(plan, r, Publish(plan, r, key), key)
  {
    hide Wanted;
    var start := if key in r.host.stages then Act(r, r.host.(stages := r.host.stages - {key})) else r;
    if start.status == Running {
      assert start.host.stages == r.host.stages - {key};
      var staged := start.host.stages[key := Partial];
      var full := staged[key := Wanted(plan, key)];
      assert staged - {key} == r.host.stages - {key} && full - {key} == r.host.stages - {key};
    }
  }

  lemma MarkFrame(plan: Plan, r: Run, key: Key)
    ensures Frame(plan, r.host, Mark(r, key).host, [key])
    ensures Mark(r, key).host.targets == r.host.targets && Mark(r, key).host.stages == r.host.stages
    ensures Mark(r, key).status == Running ==>
              r.status == Running && (r.host.journal.Some? ==> Published(Mark(r, key).host, key))
    ensures r.status == Running ==>
              Mark(r, key).status != Refused
              && (r.fuel > 0 ==> Mark(r, key).status == Running && Mark(r, key).fuel + 1 >= r.fuel)
  {
  }

  lemma FrameTrans(plan: Plan, a: Host, b: Host, c: Host, first: seq<Key>, more: seq<Key>)
    requires Frame(plan, a, b, first) && Frame(plan, b, c, more)
    ensures Frame(plan, a, c, first + more)
  {
    hide Wanted;
    forall k | k in c.targets && k !in a.targets
      ensures k in first + more && c.targets[k] == Wanted(plan, k) && !Published(a, k)
    {
      assert k in b.targets ==> k in first;
    }
  }

  lemma KeyFrame(plan: Plan, r: Run, key: Key)
    ensures Frame(plan, r.host, EnsureKey(plan, r, key).host, [key])
    ensures EnsureKey(plan, r, key).status == Running ==>
              r.status == Running && EnsureKey(plan, r, key).host.stages.Keys <= r.host.stages.Keys
  {
    hide Acceptable, Wanted, Publish, Mark, Frame;
    if r.status == Running && key !in r.host.targets && !Published(r.host, key) {
      PublishFrame(plan, r, key);
      var moved := Publish(plan, r, key);
      AddedFrame(plan, r, moved, key);
      MarkFrame(plan, moved, key);
      FrameTrans(plan, r.host, moved.host, Mark(moved, key).host, [key], [key]);
      OnlyKey(plan, r.host, Mark(moved, key).host, key);
    } else {
      MarkFrame(plan, r, key);
      NothingChanged(plan, r.host, [key]);
    }
  }

  lemma AddedFrame(plan: Plan, r: Run, r': Run, key: Key)
    requires PublishedAs(plan, r, r', key) && key !in r.host.targets && !Published(r.host, key)
    ensures Frame(plan, r.host, r'.host, [key])
  {
  }

  lemma OnlyKey(plan: Plan, a: Host, b: Host, key: Key)
    requires Frame(plan, a, b, [key] + [key])
    ensures Frame(plan, a, b, [key])
  {
    assert forall k :: k in [key] + [key] <==> k in [key];
  }

  lemma NothingChanged(plan: Plan, h: Host, keys: seq<Key>)
    ensures Frame(plan, h, h, keys)
  {
  }

  /** A key is recorded exactly when it passes, if the process lives; its target then holds the backup's content. */
  lemma KeyIff(plan: Plan, r: Run, key: Key)
    requires ReadyPlan(plan) && key in Order(plan) && r.status == Running && r.host.journal.Some?
    ensures var r' := EnsureKey(plan, r, key);
            && (r'.status == Running ==> Passes(plan, r.host, key))
            && (r'.status == Running ==> Holds(plan, r'.host, key) && Published(r'.host, key))
            && (Passes(plan, r.host, key) ==>
                  r'.status != Refused && (r.fuel >= 5 ==> r'.status == Running && r'.fuel + 5 >= r.fuel))
  {
    hide Order, Acceptable, Wanted, Matches, Publish, Mark, Frame;
    if key in r.host.targets {
      AcceptableIff(plan, r.host, key);
      MarkFrame(plan, r, key);
    } else if !Published(r.host, key) {
      PublishFrame(plan, r, key);
      WantedMatches(plan, key);
      var moved := Publish(plan, r, key);
      if moved.status == Running {
        AcceptableIff(plan, moved.host, key);
        MarkFrame(plan, moved, key);
        assert key != Database ==> (Database in moved.host.stages <==> Database in r.host.stages);
      }
    }
  }

  // ----- an attempt on any host -----

  /** A key outside those already handled still passes, or still fails. */
  lemma PassesAgree(plan: Plan, h: Host, h': Host, keys: seq<Key>, key: Key)
    requires Frame(plan, h, h', keys) && key !in keys && Database !in keys
    ensures Passes(plan, h, key) <==> Passes(plan, h', key)
  {
    hide Matches, Wanted;
  }

  lemma HoldsStays(plan: Plan, h: Host, h': Host, keys: seq<Key>, key: Key)
    requires Frame(plan, h, h', keys) && h'.stages.Keys <= h.stages.Keys && Holds(plan, h, key)
    ensures Holds(plan, h', key)
  {
    hide Matches, Wanted;
  }

  lemma BeforeTheLast(plan: Plan, k: nat, k': nat)
    requires ReadyPlan(plan) && k' == k + 1 <= |Order(plan)|
    ensures Order(plan)[k] !in Order(plan)[..k] && Database !in Order(plan)[..k]
    ensures Order(plan)[..k'] == Order(plan)[..k] + [Order(plan)[k]]
  {
    hide Order;
    OrderFacts(plan);
  }

  /** The keys up to `k`, in order: every one has passed if the process lives, and then holds the backup's content. */
  ghost predicate Through(plan: Plan, r: Run, r': Run, k: nat)
    requires k <= |Order(plan)|
  {
    && Frame(plan, r.host, r'.host, Order(plan)[..k])
    && (r'.status == Running ==> r'.host.stages.Keys <= r.host.stages.Keys)
    && (r'.status == Running ==>
          forall i :: 0 <= i < k ==>
                        && Passes(plan, r.host, Order(plan)[i])
                        && Holds(plan, r'.host, Order(plan)[i]) && Published(r'.host, Order(plan)[i]))
    && ((forall i :: 0 <= i < k ==> Passes(plan, r.host, Order(plan)[i])) ==>
          r'.status != Refused && (r.fuel >= 5 * k ==> r'.status == Running && r'.fuel + 5 * k >= r.fuel))
  }

  lemma {:induction false} KeysGoThrough(plan: Plan, r: Run, k: nat)
    requires ReadyPlan(plan) && r.status == Running && r.host.journal.Some? && k <= |Order(plan)|
    ensures Through(plan, r, EnsureAll(plan, r, Order(plan)[..k]), k)
    decreases k
  {
    hide Order, EnsureAll, EnsureKey, Through, Frame, Passes, Holds;
    if k == 0 {
      NoKeys(plan, r, Order(plan)[..0]);
      NoneThrough(plan, r);
    } else {
      var k': nat := k - 1;
      KeysGoThrough(plan, r, k');
      OneMoreKey(plan, r, Order(plan), k', k);
      OneMoreThrough(plan, r, EnsureAll(plan, r, Order(plan)[..k']), k', k);
    }
  }

  lemma NoneThrough(plan: Plan, r: Run)
    requires r.status == Running
    ensures Through(plan, r, r, 0)
  {
    hide Order, Frame, Passes, Holds;
    NothingChanged(plan, r.host, Order(plan)[..0]);
  }

  lemma OneMoreThrough(plan: Plan, r: Run, before: Run, k: nat, k': nat)
    requires ReadyPlan(plan) && r.status == Running && r.host.journal.Some? && k' == k + 1 <= |Order(plan)|
    requires Through(plan, r, before, k)
    ensures Through(plan, r, EnsureKey(plan, before, Order(plan)[k]), k')
  {
    hide Order, EnsureKey, Passes, Holds, Frame, ReadyPlan;
    var order := Order(plan);
    var after := EnsureKey(plan, before, order[k]);
    BeforeTheLast(plan, k, k');
    KeyFrame(plan, before, order[k]);
    FrameTrans(plan, r.host, before.host, after.host, order[..k], [order[k]]);
    PassesAgree(plan, r.host, before.host, order[..k], order[k]);
    if before.status == Running {
      FrameKeepsJournal(plan, r.host, before.host, order[..k]);
      KeyIff(plan, before, order[k]);
      forall i | 0 <= i < k && after.status == Running
        ensures Holds(plan, after.host, order[i]) && Published(after.host, order[i])
      {
        HoldsStays(plan, before.host, after.host, [order[k]], order[i]);
        FrameKeepsJournal(plan, before.host, after.host, [order[k]]);
      }
    } else {
      CrashedStays(plan, before, order[k]);
    }
  }

  lemma FrameKeepsJournal(plan: Plan, h: Host, h': Host, keys: seq<Key>)
    requires Frame(plan, h, h', keys)
    ensures h.journal.Some? ==> h'.journal.Some?
    ensures forall k :: Published(h, k) ==> Published(h', k)
  {
  }

  /** The journal starts empty: there is none, or a complete one over a host without targets. */
  predicate StartsFresh(plan: Plan, h: Host) {
    h.journal.None? || (Complete(plan, h.journal.value) && h.targets == map[])
  }

  /** The journal admits an attempt: without one every target is absent, and a journal records only expected keys. */
  predicate Admits(plan: Plan, h: Host) {
    match h.journal
    case None => h.targets == map[]
    case Some(published) => forall k :: k in published ==> k in Order(plan)
  }

  /** The host an admitted attempt works on. */
  function Begun(plan: Plan, h: Host): Host {
    if StartsFresh(plan, h) then h.(journal := Some([])) else h
  }

  lemma OpenIff(plan: Plan, h: Host, fuel: nat)
    requires ReadyPlan(plan)
    ensures var r := Open(plan, h, fuel);
            && (!Admits(plan, h) ==> r == Run(h, fuel, Refused))
            && (Admits(plan, h) && fuel > 0 ==>
                  r.status == Running && r.host == Begun(plan, h) && r.fuel + 1 >= fuel)
            && (r.status == Running ==> Admits(plan, h) && r.host == Begun(plan, h))
            && (r.status != Running ==> r.host == h)
  {
    hide Order, ExpectedKeys;
    OrderFacts(plan);
    assert forall k :: k in Order(plan) <==> k in ExpectedKeys(plan.projects);
    if h.journal.Some? {
      var recorded := set k | k in h.journal.value;
      assert recorded <= ExpectedKeys(plan.projects) <==> Admits(plan, h);
    }
  }

  /** Whatever the host holds, an attempt never changes a target that is there, only the backup's content is ever
      moved into place, and an attempt that returns leaves the backup's content at every key, recorded. */
  lemma AttemptFillsGaps(plan: Plan, h: Host, fuel: nat)
    requires ReadyPlan(plan)
    ensures var r := Attempt(plan, h, fuel);
            && (forall k :: k in h.targets ==> k in r.host.targets && r.host.targets[k] == h.targets[k])
            && (forall k :: k in r.host.targets && k !in h.targets ==>
                              k in Order(plan) && Matches(plan, k, r.host.targets[k]))
            && (r.status == Running ==> forall k :: k in Order(plan) ==>
                  && k in r.host.targets && Matches(plan, k, r.host.targets[k])
                  && Published(r.host, k) && !Shadowed(plan, r.host, k))
  {
    hide Order, EnsureAll, Open, Matches, Wanted, Shadowed, Published, Passes;
    AttemptGoesThrough(plan, h, fuel);
    var order := Order(plan);
    var r, begun := Attempt(plan, h, fuel), Open(plan, h, fuel);
    OpenIff(plan, h, fuel);
    if begun.status == Running {
      forall k | k in r.host.targets && k !in h.targets ensures k in order && Matches(plan, k, r.host.targets[k]) {
        assert k in order[..|order|];
        WantedMatches(plan, k);
      }
    }
  }

  lemma AttemptGoesThrough(plan: Plan, h: Host, fuel: nat)
    requires ReadyPlan(plan)
    ensures var begun := Open(plan, h, fuel);
            if begun.status == Running then Through(plan, begun, Attempt(plan, h, fuel), |Order(plan)|)
            else Attempt(plan, h, fuel) == begun
  {
    hide Order, EnsureAll, Open, Through, StartsFresh;
    var begun := Open(plan, h, fuel);
    OpenIff(plan, h, fuel);
    if begun.status == Running {
      assert begun.host.journal.Some? by {
        BegunHasJournal(plan, h);
      }
      KeysGoThrough(plan, begun, |Order(plan)|);
      assert Order(plan)[..|Order(plan)|] == Order(plan);
    } else {
      StoppedStays(plan, begun, Order(plan));
    }
  }

  lemma BegunHasJournal(plan: Plan, h: Host)
    ensures Begun(plan, h).journal.Some? && Begun(plan, h).targets == h.targets && Begun(plan, h).stages == h.stages
  {
  }

  /** From any host, an attempt that is not cut short returns exactly when the journal admits it, every target that
      is there holds the backup's content, no recorded one has gone, and no database stage lies below a state
      directory. */
  lemma AttemptReturnsIff(plan: Plan, h: Host, fuel: nat)
    requires ReadyPlan(plan) && fuel >= EnoughFuel(plan)
    ensures Attempt(plan, h, fuel).status == Running <==>
              && Admits(plan, h)
              && forall k :: k in Order(plan) ==>
                   && !Shadowed(plan, h, k)
                   && if k in h.targets then Matches(plan, k, h.targets[k])
                      else StartsFresh(plan, h) || !Published(h, k)
  {
    hide Order, EnsureAll, Open, Matches, Frame, Holds;
    AttemptGoesThrough(plan, h, fuel);
    OpenIff(plan, h, fuel);
    var order := Order(plan);
    var begun := Open(plan, h, fuel);
    if begun.status == Running {
      forall k | k in order ensures Passes(plan, begun.host, k) <==>
          && !Shadowed(plan, h, k)
          && if k in h.targets then Matches(plan, k, h.targets[k]) else StartsFresh(plan, h) || !Published(h, k)
      {
        PassesAtTheStart(plan, h, k);
      }
    }
  }

  lemma PassesAtTheStart(plan: Plan, h: Host, k: Key)
    ensures Passes(plan, Begun(plan, h), k) <==>
              && !Shadowed(plan, h, k)
              && if k in h.targets then Matches(plan, k, h.targets[k]) else StartsFresh(plan, h) || !Published(h, k)
  {
    hide Matches, Order, ExpectedKeys;
  }

  /** What a returned attempt leaves, artifact by artifact: each project's texts, checkout, state files and worktree at
      its own targets, and the control database. */
  lemma ReturnedContents(plan: Plan, h: Host, fuel: nat, p: ProjectPlan)
    requires ReadyPlan(plan) && p in plan.projects && Attempt(plan, h, fuel).status == Running
    ensures var left := Attempt(plan, h, fuel).host.targets;
            && {Requirements(p.id), Config(p.id), Repository(p.id), StateDir(p.id), Database} <= left.Keys
            && left[Requirements(p.id)] == File(plan.texts[Requirements(p.id)])
            && left[Config(p.id)] == File(plan.texts[Config(p.id)])
            && left[Repository(p.id)] == Repo(plan.repos[Repository(p.id)])
            && left[Database] == File(plan.texts[Database])
            && (!p.worktreeInState ==> Worktree(p.id) in left && left[Worktree(p.id)] == EmptyDir)
            && left[StateDir(p.id)].Tree?
            && forall path :: !(p.databaseInState && path == plan.databaseFile) ==>
                                SameAt(left[StateDir(p.id)].files, plan.states[StateDir(p.id)], path)
  {
    hide Attempt, Order, SameAt, Shadowed, Published, DatabaseInside;
    DatabaseNestsOnce(plan, p);
    AttemptFillsGaps(plan, h, fuel);
    PlannedKeys(plan, p);
  }

  lemma PlannedKeys(plan: Plan, p: ProjectPlan)
    requires p in plan.projects
    ensures Requirements(p.id) in Order(plan) && Config(p.id) in Order(plan) && Repository(p.id) in Order(plan)
    ensures StateDir(p.id) in Order(plan) && Database in Order(plan)
    ensures !p.worktreeInState ==> Worktree(p.id) in Order(plan)
  {
    hide FilesystemOrder, ProjectKeys;
    forall key | key in {Requirements(p.id), Config(p.id), Repository(p.id), StateDir(p.id)}
        || (key == Worktree(p.id) && !p.worktreeInState)
      ensures key in FilesystemOrder(plan.projects)
    {
      KeysOfProject(p, key);
      OrderMembers(plan.projects, key);
    }
    assert Order(plan)[|FilesystemOrder(plan.projects)|] == Database;
  }

  // ----- histories with outside changes -----

  /** An attempt that dies after `fuel` steps if it needs more, or a change of one target by someone else: it is
      put in place, replaced, or removed. */
  datatype Move = Attempted(fuel: nat) | Outside(key: Key, content: Option<Artifact>)

  function Made(plan: Plan, h: Host, move: Move): Host {
    match move
    case Attempted(fuel) => Attempt(plan, h, fuel).host
    case Outside(key, content) =>
      if content.Some? then h.(targets := h.targets[key := content.value]) else h.(targets := h.targets - {key})
  }

  function Later(plan: Plan, h: Host, moves: seq<Move>): Host {
    if moves == [] then h else Made(plan, Later(plan, h, moves[..|moves| - 1]), moves[|moves| - 1])
  }

  /** Others can put anything at a target or take it away, one target at a time, and touch neither stages nor
      journal. */
  lemma OutsideDoes(plan: Plan, h: Host, key: Key, a: Artifact)
    ensures var placed, removed := Later(plan, h, [Outside(key, Some(a))]), Later(plan, h, [Outside(key, None)]);
            && placed.targets == h.targets[key := a] && removed.targets == h.targets - {key}
            && placed.stages == removed.stages == h.stages && placed.journal == removed.journal == h.journal
  {
    assert [Outside(key, Some(a))][..0] == [] && [Outside(key, None)][..0] == [];
  }

  /** Nobody else changes the target. */
  predicate LeftAlone(moves: seq<Move>, key: Key) {
    forall i :: 0 <= i < |moves| && moves[i].Outside? ==> moves[i].key != key
  }

  /** A target is only ever changed from outside. */
  lemma {:induction false} TargetsStay(plan: Plan, h: Host, moves: seq<Move>, key: Key)
    requires ReadyPlan(plan) && key in h.targets && LeftAlone(moves, key)
    ensures key in Later(plan, h, moves).targets && Later(plan, h, moves).targets[key] == h.targets[key]
  {
    hide Attempt, Order, ReadyPlan, Matches;
    if moves != [] {
      var before := Later(plan, h, moves[..|moves| - 1]);
      TargetsStay(plan, h, moves[..|moves| - 1], key);
      if moves[|moves| - 1].Attempted? {
        AttemptFillsGaps(plan, before, moves[|moves| - 1].fuel);
      }
    }
  }

  /** Once a target holds something else than the backup's content, no attempt returns and the content stays,
      through any changes to other targets, until somebody changes that target. */
  lemma ForeignContentStops(plan: Plan, h: Host, moves: seq<Move>, key: Key, fuel: nat)
    requires ReadyPlan(plan) && key in Order(plan) && LeftAlone(moves, key)
    requires key in h.targets && !Matches(plan, key, h.targets[key])
    ensures var later := Later(plan, h, moves);
            && key in later.targets && later.targets[key] == h.targets[key]
            && Attempt(plan, later, fuel).status != Running
  {
    hide Attempt, Order, Matches, ReadyPlan;
    TargetsStay(plan, h, moves, key);
    AttemptFillsGaps(plan, Later(plan, h, moves), fuel);
  }

  /** A recorded target that has gone is not published again while any other target stays: every attempt refuses or
      dies, and the target stays away until somebody puts it back. */
  lemma {:induction false} DisappearedStops(plan: Plan, h: Host, moves: seq<Move>, key: Key, other: Key, fuel: nat)
    requires ReadyPlan(plan) && key in Order(plan) && LeftAlone(moves, key) && LeftAlone(moves, other)
    requires Published(h, key) && key !in h.targets && other in h.targets
    ensures var later := Later(plan, h, moves);
            && Published(later, key) && key !in later.targets
            && Attempt(plan, later, fuel).status != Running
  {
    hide Attempt, Order, ReadyPlan;
    if moves == [] {
      MissingIsNotReplaced(plan, h, key, fuel);
    } else {
      var init, last := moves[..|moves| - 1], moves[|moves| - 1];
      var before, later := Later(plan, h, init), Later(plan, h, moves);
      DisappearedStops(plan, h, init, key, other, fuel);
      TargetsStay(plan, h, moves, other);
      TargetsStay(plan, h, init, other);
      if last.Attempted? {
        MissingIsNotReplaced(plan, before, key, last.fuel);
      }
      MissingIsNotReplaced(plan, later, key, fuel);
    }
  }

  lemma MissingIsNotReplaced(plan: Plan, h: Host, key: Key, fuel: nat)
    requires ReadyPlan(plan) && key in Order(plan) && Published(h, key) && key !in h.targets && h.targets != map[]
    ensures var r := Attempt(plan, h, fuel);
            r.status != Running && Published(r.host, key) && key !in r.host.targets
  {
    hide Attempt, Order, EnsureAll, Open, Matches, Wanted, Shadowed, Holds, ReadyPlan;
    AttemptGoesThrough(plan, h, fuel);
    OpenIff(plan, h, fuel);
    var begun, r, order := Open(plan, h, fuel), Attempt(plan, h, fuel), Order(plan);
    var i :| 0 <= i < |order| && order[i] == key;
    if begun.status == Running {
      assert !Passes(plan, begun.host, order[i]);
    }
  }
}
