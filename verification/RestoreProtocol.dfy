/**
 The journalled, crash-resumable restore of a SQLite deployment (`restore_apply.py`, lines 165-207,
 259-460 and 485-626).

 `EnsureKey`, `EnsureAll` and `Attempt` specify one process on values; the class `RestoreProcess`
 runs it on mutable state. A process is given `fuel`, the number of atomic steps it lives for, so a
 crash can fall between any two steps.
 */
module RestoreProtocol {
  import opened Wrappers
  import opened BackupManifests

  // ----- what is restored -----

  datatype Key =
    | Requirements(project: string)
    | Config(project: string)
    | Repository(project: string)
    | StateDir(project: string)
    | Worktree(project: string)
    | Database

  /** The content of one target. A half-written copy holds some of the content. */
  datatype Artifact =
    | File(content: Bytes)
    | Repo(checkout: string)
    | Tree(files: FileTree)
    | EmptyDir
    | Partial

  datatype ProjectPlan = ProjectPlan(id: string, worktreeInState: bool, databaseInState: bool)

  /** A ready plan together with the verified backup it restores. `databaseFile` and `databaseStage`
      are the places, relative to the state directory that holds the database target, of the target
      and of its staging file (`_stage_path` stays in the parent of the target). */
  datatype Plan = Plan(
    projects: seq<ProjectPlan>,
    texts: map<Key, Bytes>,
    repos: map<Key, string>,
    states: map<Key, FileTree>,
    databaseFile: RelPath,
    databaseStage: RelPath)

  function ProjectKeys(p: ProjectPlan): seq<Key> {
    [Requirements(p.id), Config(p.id), Repository(p.id), StateDir(p.id)]
    + (if p.worktreeInState then [] else [Worktree(p.id)])
  }

  function FilesystemOrder(projects: seq<ProjectPlan>): seq<Key> {
    if projects == [] then [] else FilesystemOrder(projects[..|projects| - 1]) + ProjectKeys(projects[|projects| - 1])
  }

  /** The order in which targets are published; the database is last. */
  function Order(plan: Plan): seq<Key> {
    FilesystemOrder(plan.projects) + [Database]
  }

  /** `_expected_journal_keys`. */
  function ExpectedKeys(projects: seq<ProjectPlan>): set<Key> {
    {Database}
    + (set p | p in projects :: Requirements(p.id)) + (set p | p in projects :: Config(p.id))
    + (set p | p in projects :: Repository(p.id)) + (set p | p in projects :: StateDir(p.id))
    + (set p | p in projects && !p.worktreeInState :: Worktree(p.id))
  }

  /** A ready preflight has found the project ids distinct and every artifact in the backup. */
  ghost predicate ReadyPlan(plan: Plan) {
    && (forall i, j :: 0 <= i < j < |plan.projects| ==> plan.projects[i].id != plan.projects[j].id)
    && (forall p :: p in plan.projects ==>
          && Requirements(p.id) in plan.texts && Config(p.id) in plan.texts
          && Repository(p.id) in plan.repos && StateDir(p.id) in plan.states
          && plan.databaseFile !in plan.states[StateDir(p.id)]
          && plan.databaseStage !in plan.states[StateDir(p.id)])
    && Database in plan.texts
    && plan.databaseFile != plan.databaseStage
  }

  /** What the backup holds for a key. */
  function Wanted(plan: Plan, key: Key): Artifact {
    match key
    case Repository(_) => if key in plan.repos then Repo(plan.repos[key]) else Partial
    case StateDir(_) => if key in plan.states then Tree(plan.states[key]) else Partial
    case Worktree(_) => EmptyDir
    case _ => if key in plan.texts then File(plan.texts[key]) else Partial
  }

  // ----- the restore host -----

  /** Published targets, leftover staging areas and the journal's publication records. */
  datatype Host = Host(targets: map<Key, Artifact>, stages: map<Key, Artifact>, journal: Option<seq<Key>>)

  predicate DatabaseInside(plan: Plan, project: string) {
    exists p :: p in plan.projects && p.id == project && p.databaseInState
  }

  function Bits(a: Artifact): Bytes {
    if a.File? then a.content else []
  }

  /** The regular files below a state directory: its own, and a nested database target and stage. */
  function StateFiles(plan: Plan, h: Host, key: Key, own: FileTree): FileTree {
    if key.StateDir? && DatabaseInside(plan, key.project) then
      own
      + (if Database in h.targets then map[plan.databaseFile := Bits(h.targets[Database])] else map[])
      + (if Database in h.stages then map[plan.databaseStage := Bits(h.stages[Database])] else map[])
    else own
  }

  /** `_validate_state` accepts: outside the ignored paths, exactly the expected files. */
  ghost predicate StateAccepted(files: FileTree, ignored: set<RelPath>, expected: FileTree) {
    files - ignored == expected
  }

  function Ignored(plan: Plan, key: Key): set<RelPath> {
    if key.StateDir? && DatabaseInside(plan, key.project) then {plan.databaseFile} else {}
  }

  /** Does an existing target pass the check of its `_ensure_*` function? */
  predicate Acceptable(plan: Plan, h: Host, key: Key)
    requires key in h.targets
  {
    if key.StateDir? then
      h.targets[key].Tree? && key in plan.states
      && StateFiles(plan, h, key, h.targets[key].files) - Ignored(plan, key) == plan.states[key]
    else
      h.targets[key] == Wanted(plan, key) && h.targets[key] != Partial
  }

  /** `_validate_state`, as the loop over the tree. */
  method ValidateState(files: FileTree, ignored: set<RelPath>, expected: FileTree) returns (ok: bool)
    ensures ok <==> StateAccepted(files, ignored, expected)
  {
    var actual: set<RelPath> := {};
    var todo := files.Keys;
    while todo != {}
      invariant todo <= files.Keys
      invariant actual == files.Keys - todo - ignored
      invariant forall path :: path in actual ==> path in expected && expected[path] == files[path]
      decreases todo
    {
      var path :| path in todo;
      todo := todo - {path};
      if path !in ignored {
        actual := actual + {path};
        if path !in expected || Sha256(files[path]) != Sha256(expected[path]) {
          assert path in files - ignored;
          return false;
        }
      }
    }
    assert (files - ignored).Keys == actual;
    if actual != expected.Keys {
      return false;
    }
    assert files - ignored == expected;
    return true;
  }

  // ----- one process -----

  datatype Status = Running | Crashed | Refused

  datatype Run = Run(host: Host, fuel: nat, status: Status)

  /** One atomic step, unless the process is no longer running or dies first. */
  function Act(r: Run, next: Host): Run {
    if r.status != Running then r
    else if r.fuel == 0 then r.(status := Crashed)
    else Run(next, r.fuel - 1, Running)
  }

  function Refuse(r: Run): Run {
    if r.status == Running then r.(status := Refused) else r
  }

  predicate Published(h: Host, key: Key) {
    h.journal.Some? && key in h.journal.value
  }

  /** `_mark_published`. */
  function Mark(r: Run, key: Key): Run {
    if r.status != Running || Published(r.host, key) || r.host.journal.None? then r
    else Act(r, r.host.(journal := Some(r.host.journal.value + [key])))
  }

  /** Clear the old stage, copy into it, and move it over the absent target. */
  function Publish(plan: Plan, r: Run, key: Key): Run {
    var cleared := if key in r.host.stages then Act(r, r.host.(stages := r.host.stages - {key})) else r;
    var copying := Act(cleared, cleared.host.(stages := cleared.host.stages[key := Partial]));
    var copied := Act(copying, copying.host.(stages := copying.host.stages[key := Wanted(plan, key)]));
    Act(copied, copied.host.(stages := copied.host.stages - {key},
                             targets := copied.host.targets[key := Wanted(plan, key)]))
  }

  /** The `_ensure_*` functions: refuse, accept, or publish; then record. */
  function EnsureKey(plan: Plan, r: Run, key: Key): Run {
    if r.status != Running then r
    else if key in r.host.targets then
      if Acceptable(plan, r.host, key) then Mark(r, key) else Refuse(r)
    else if Published(r.host, key) then Refuse(r)
    else
      var moved := Publish(plan, r, key);
      if moved.status != Running then moved
      else if key in moved.host.targets && Acceptable(plan, moved.host, key) then Mark(moved, key)
      else Refuse(moved)
  }

  function EnsureAll(plan: Plan, r: Run, keys: seq<Key>): Run {
    if keys == [] then r
    else EnsureKey(plan, EnsureAll(plan, r, keys[..|keys| - 1]), keys[|keys| - 1])
  }

  /** The read-only preflight is ready when every target is absent. */
  predicate PreflightReady(h: Host) {
    h.targets == map[]
  }

  predicate Complete(plan: Plan, journal: seq<Key>) {
    (set k | k in journal) == ExpectedKeys(plan.projects)
  }

  /** The journal part of an attempt: create it, keep it, or start a fresh cycle. */
  function Open(plan: Plan, h: Host, fuel: nat): Run {
    var r := Run(h, fuel, Running);
    match h.journal
    case None => if PreflightReady(h) then Act(r, h.(journal := Some([]))) else Refuse(r)
    case Some(published) =>
      if !((set k | k in published) <= ExpectedKeys(plan.projects)) then Refuse(r)
      else if Complete(plan, published) && PreflightReady(h) then Act(r, h.(journal := Some([])))
      else r
  }

  /** `apply_sqlite_restore`. The status of a finished process is Running: it returned its result. */
  function Attempt(plan: Plan, h: Host, fuel: nat): Run {
    EnsureAll(plan, Open(plan, h, fuel), Order(plan))
  }

  // ----- the running process -----

  class RestoreProcess {
    const plan: Plan
    var targets: map<Key, Artifact>
    var stages: map<Key, Artifact>
    var journal: Option<seq<Key>>
    var fuel: nat
    var status: Status

    constructor (plan: Plan, h: Host, fuel: nat)
      ensures this.plan == plan && State() == Run(h, fuel, Running)
    {
      this.plan, this.fuel, status := plan, fuel, Running;
      targets, stages, journal := h.targets, h.stages, h.journal;
    }

    ghost function State(): Run
      reads this
    {
      Run(Host(targets, stages, journal), fuel, status)
    }

    /** The process lives through one more step, or dies before it. */
    method Tick() returns (alive: bool)
      requires status == Running
      modifies `fuel, `status
      ensures alive <==> old(fuel) > 0
      ensures if alive then fuel == old(fuel) - 1 && status == Running else fuel == old(fuel) && status == Crashed
    {
      alive := fuel > 0;
      if alive {
        fuel := fuel - 1;
      } else {
        status := Crashed;
      }
    }

    method MarkPublished(key: Key)
      requires status == Running
      modifies this
      ensures State() == Mark(old(State()), key)
    {
      if journal.Some? && key !in journal.value {
        var alive := Tick();
        if alive {
          journal := Some(journal.value + [key]);
        }
      }
    }

    /** Staging, copying and `os.replace`. */
    method PublishTarget(key: Key)
      requires status == Running
      modifies this
      ensures State() == Publish(plan, old(State()), key)
    {
      if key in stages {
        var alive := Tick();
        if !alive {
          return;
        }
        stages := stages - {key};
      }
      var alive := Tick();
      if !alive {
        return;
      }
      stages := stages[key := Partial];
      alive := Tick();
      if !alive {
        return;
      }
      stages := stages[key := Wanted(plan, key)];
      alive := Tick();
      if !alive {
        return;
      }
      stages, targets := stages - {key}, targets[key := Wanted(plan, key)];
    }

    method Check(key: Key) returns (ok: bool)
      requires key in targets
      ensures ok == Acceptable(plan, State().host, key)
    {
      if key.StateDir? {
        if !targets[key].Tree? || key !in plan.states {
          return false;
        }
        ok := ValidateState(StateFiles(plan, Host(targets, stages, journal), key, targets[key].files),
                            Ignored(plan, key), plan.states[key]);
      } else {
        ok := targets[key] == Wanted(plan, key) && targets[key] != Partial;
      }
    }

    /** `_ensure_file`, `_ensure_repo`, `_ensure_state` and `_ensure_empty_worktree`. */
    method Ensure(key: Key)
      modifies this
      ensures State() == EnsureKey(plan, old(State()), key)
    {
      if status != Running {
        return;
      }
      if key !in targets {
        if journal.Some? && key in journal.value {
          status := Refused;
          return;
        }
        PublishTarget(key);
        if status != Running {
          return;
        }
      }
      var ok := false;
      if key in targets {
        ok := Check(key);
      }
      if ok {
        MarkPublished(key);
      } else {
        status := Refused;
      }
    }

    method EnsureProject(p: ProjectPlan)
      modifies this
      ensures State() == EnsureAll(plan, old(State()), ProjectKeys(p))
    {
      ghost var start := State();
      Ensure(Requirements(p.id));
      Ensure(Config(p.id));
      Ensure(Repository(p.id));
      Ensure(StateDir(p.id));
      FourKeys(plan, start, Requirements(p.id), Config(p.id), Repository(p.id), StateDir(p.id));
      if p.worktreeInState {
        assert ProjectKeys(p) == [Requirements(p.id), Config(p.id), Repository(p.id), StateDir(p.id)];
      } else {
        Ensure(Worktree(p.id));
        assert ProjectKeys(p)[..4] == [Requirements(p.id), Config(p.id), Repository(p.id), StateDir(p.id)];
      }
    }

    method OpenJournal()
      requires status == Running
      modifies this
      ensures State() == Open(plan, old(State()).host, old(fuel))
    {
      if journal.None? {
        if targets != map[] {
          status := Refused;
          return;
        }
      } else {
        if !((set k | k in journal.value) <= ExpectedKeys(plan.projects)) {
          status := Refused;
          return;
        }
        if (set k | k in journal.value) != ExpectedKeys(plan.projects) || targets != map[] {
          return;
        }
      }
      var alive := Tick();
      if alive {
        journal := Some([]);
      }
    }

    /** `apply_sqlite_restore`. */
    method Apply()
      requires status == Running
      modifies this
      ensures State() == Attempt(plan, old(State()).host, old(fuel))
    {
      OpenJournal();
      EnsureProjects();
      Ensure(Database);
      assert Order(plan)[..|Order(plan)| - 1] == FilesystemOrder(plan.projects);
    }

    /** The loop over the projects; the PostgreSQL restore runs the same one. */
    method EnsureProjects()
      modifies this
      ensures State() == EnsureAll(plan, old(State()), FilesystemOrder(plan.projects))
    {
      for i := 0 to |plan.projects|
        invariant State() == EnsureAll(plan, old(State()), FilesystemOrder(plan.projects[..i]))
      {
        EnsureProject(plan.projects[i]);
        ghost var done := plan.projects[..i + 1];
        assert done[..i] == plan.projects[..i] && done[i] == plan.projects[i];
        EnsureAllAppend(plan, old(State()), FilesystemOrder(plan.projects[..i]), ProjectKeys(plan.projects[i]));
      }
      assert plan.projects[..|plan.projects|] == plan.projects;
    }
  }

  lemma FourKeys(plan: Plan, r: Run, a: Key, b: Key, c: Key, d: Key)
    ensures EnsureAll(plan, r, [a, b, c, d])
            == EnsureKey(plan, EnsureKey(plan, EnsureKey(plan, EnsureKey(plan, r, a), b), c), d)
  {
    hide EnsureKey;
    assert [a, b, c, d][..3] == [a, b, c] && [a, b, c][..2] == [a, b] && [a, b][..1] == [a] && [a][..0] == [];
    assert EnsureAll(plan, r, [a]) == EnsureKey(plan, r, a);
    assert EnsureAll(plan, r, [a, b]) == EnsureKey(plan, EnsureAll(plan, r, [a]), b);
    assert EnsureAll(plan, r, [a, b, c]) == EnsureKey(plan, EnsureAll(plan, r, [a, b]), c);
  }

  lemma {:induction false} EnsureAllAppend(plan: Plan, r: Run, a: seq<Key>, b: seq<Key>)
    ensures EnsureAll(plan, r, a + b) == EnsureAll(plan, EnsureAll(plan, r, a), b)
  {
    hide EnsureKey;
    if b == [] {
      assert a + b == a;
    } else {
      EnsureAllAppend(plan, r, a, b[..|b| - 1]);
      assert (a + b)[..|a + b| - 1] == a + b[..|b| - 1];
    }
  }
}
