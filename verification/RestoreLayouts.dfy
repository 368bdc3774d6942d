/**
 The layouts of accepted plans (`restore.py`, lines 339-411, and `restore_apply.py`, lines 560-615): which of
 them an attempt can publish, and which of those it accepts when it is run again.
 */
module RestoreLayouts {
  import opened Wrappers
  import opened RestorePlans
  import opened RestorePaths

  /** What the backup holds for one project. `state` is the state tree as it is staged, with the directories of a
      nested worktree. */
  datatype Artifacts = Artifacts(requirements: Bytes, config: Bytes, checkout: Tree, gitIgnored: Path -> bool,
      state: Tree)

  datatype Layout = Layout(projects: seq<ProjectTargets>, artifacts: map<string, Artifacts>, database: Path,
      content: Bytes)

  function Or(path: Option<Path>): Path {
    match path case None => [] case Some(p) => p
  }

  function File(path: Path, content: Bytes): Item {
    Item(path, map[[] := FileOf(content)], SingleFile)
  }

  /** The nested worktree and database of a state directory. */
  function Nested(p: ProjectTargets, database: Path): set<Path> {
    set q | q in {Or(p.worktree), database} && LiesIn(q, Or(p.state)) :: q
  }

  /** The targets of one project in the order of publication; a worktree inside its own state directory is none. */
  function ProjectItems(p: ProjectTargets, a: Artifacts, database: Path): seq<Item> {
    [File(Or(p.requirements), a.requirements), File(Or(p.config), a.config),
     Item(Or(p.repo), a.checkout, Repository(a.gitIgnored)),
     Item(Or(p.state), a.state, StateStore(Nested(p, database)))]
    + if LiesIn(Or(p.worktree), Or(p.state)) then [] else [Item(Or(p.worktree), map[[] := Dir], EmptyDirectory)]
  }

  /** Each artifact goes to its own target, in this order, and the empty worktree is a target of its own exactly when it
      does not lie in the state directory. */
  lemma ProjectItemsAre(p: ProjectTargets, a: Artifacts, database: Path)
    ensures var items := ProjectItems(p, a, database);
            && |items| >= 4
            && items[0].path == Or(p.requirements) && items[0].tree == map[[] := FileOf(a.requirements)]
            && items[1].path == Or(p.config) && items[1].tree == map[[] := FileOf(a.config)]
            && items[2].path == Or(p.repo) && items[2].tree == a.checkout
            && items[3].path == Or(p.state) && items[3].tree == a.state
            && (|items| == 4 <==> Or(p.state) <= Or(p.worktree))
            && (|items| > 4 ==> |items| == 5 && items[4].path == Or(p.worktree) && items[4].tree == map[[] := Dir])
  {
  }

  function FilesystemItems(l: Layout, projects: seq<ProjectTargets>): seq<Item>
    requires forall p :: p in projects ==> p.id in l.artifacts
  {
    if projects == [] then []
    else
      var p := projects[|projects| - 1];
      FilesystemItems(l, projects[..|projects| - 1]) + ProjectItems(p, l.artifacts[p.id], l.database)
  }

  /** All targets; the database is last. */
  function Items(l: Layout): seq<Item>
    requires forall p :: p in l.projects ==> p.id in l.artifacts
  {
    FilesystemItems(l, l.projects) + [File(l.database, l.content)]
  }

  /** The preflight finds no blocker among the targets. */
  ghost predicate Accepted(l: Layout, host: Tree) {
    && l.projects != [] && DistinctIds(l.projects) && Vacant(l.projects, host.Keys)
    && Disjoint(DirectoryTargets(l.projects)) && l.database !in host
  }

  /** The host's file system and the artifacts are proper trees, every project has its artifacts, and no other
      target is the marker of a repository or state directory. */
  ghost predicate Sound(l: Layout, host: Tree) {
    && Closed(host) && (forall p :: p in l.projects ==> p.id in l.artifacts)
    && AllWellFormed(Items(l))
    && forall j :: 0 <= j < |Items(l)| && Items(l)[j].IsStore() ==> Sealed(Items(l), Items(l)[j])
  }

  // ----- accepted plans are ready -----

  /** The repository and state targets among the items, in order. */
  function StorePaths(items: seq<Item>): seq<Path> {
    if items == [] then []
    else
      StorePaths(items[..|items| - 1])
      + if items[|items| - 1].IsStore() then [items[|items| - 1].path] else []
  }

  lemma {:induction false} StorePathsAppend(a: seq<Item>, b: seq<Item>)
    ensures StorePaths(a + b) == StorePaths(a) + StorePaths(b)
  {
    if b == [] {
      assert a + b == a;
    } else {
      assert (a + b)[..|a + b| - 1] == a + b[..|b| - 1];
      StorePathsAppend(a, b[..|b| - 1]);
    }
  }

  lemma ProjectStores(p: ProjectTargets, a: Artifacts, database: Path)
    requires p.repo.Some? && p.state.Some?
    ensures StorePaths(ProjectItems(p, a, database)) == Directories(p)
  {
    var four := [File(Or(p.requirements), a.requirements), File(Or(p.config), a.config),
                 Item(Or(p.repo), a.checkout, Repository(a.gitIgnored)),
                 Item(Or(p.state), a.state, StateStore(Nested(p, database)))];
    FourStores(four);
    var rest := ProjectItems(p, a, database)[4..];
    assert ProjectItems(p, a, database) == four + rest;
    StorePathsAppend(four, rest);
    assert rest == [] || (|rest| == 1 && !rest[0].IsStore() && rest[..0] == []);
  }

  lemma FourStores(four: seq<Item>)
    requires |four| == 4 && !four[0].IsStore() && !four[1].IsStore() && four[2].IsStore() && four[3].IsStore()
    ensures StorePaths(four) == [four[2].path, four[3].path]
  {
    assert four[..3][..2] == four[..2] && four[..2][..1] == four[..1] && four[..1][..0] == [];
    assert StorePaths(four[..1]) == [];
    assert StorePaths(four[..2]) == [];
    assert StorePaths(four[..3]) == [four[2].path];
  }

  lemma {:induction false} StoresAreDirectories(l: Layout, projects: seq<ProjectTargets>)
    requires forall p :: p in projects ==> p.id in l.artifacts && p.repo.Some? && p.state.Some?
    ensures StorePaths(FilesystemItems(l, projects)) == DirectoryTargets(projects)
  {
    hide ProjectItems, Directories;
    if projects != [] {
      var init, p := projects[..|projects| - 1], projects[|projects| - 1];
      StoresAreDirectories(l, init);
      StorePathsAppend(FilesystemItems(l, init), ProjectItems(p, l.artifacts[p.id], l.database));
      ProjectStores(p, l.artifacts[p.id], l.database);
    }
  }

  lemma {:induction false} StoreHasPlace(items: seq<Item>, i: nat) returns (k: nat)
    requires i < |items| && items[i].IsStore()
    ensures k < |StorePaths(items)| && StorePaths(items)[k] == items[i].path
  {
    if i == |items| - 1 {
      k := |StorePaths(items)| - 1;
    } else {
      k := StoreHasPlace(items[..|items| - 1], i);
    }
  }

  lemma {:induction false} StoresAreApart(items: seq<Item>, i: nat, j: nat)
    requires Disjoint(StorePaths(items)) && i < j < |items| && items[i].IsStore() && items[j].IsStore()
    ensures !Overlap(items[i].path, items[j].path)
    decreases |items|
  {
    var init := items[..|items| - 1];
    var all := StorePaths(items);
    assert forall k :: 0 <= k < |StorePaths(init)| ==> StorePaths(init)[k] == all[k];
    if j == |items| - 1 {
      var k := StoreHasPlace(init, i);
      assert all[|all| - 1] == items[j].path && all[k] == items[i].path;
    } else {
      assert Disjoint(StorePaths(init)) by {
        PrefixIsDisjoint(StorePaths(init), all);
      }
      StoresAreApart(init, i, j);
    }
  }

  lemma PrefixIsDisjoint(some: seq<Path>, all: seq<Path>)
    requires some <= all && Disjoint(all)
    ensures Disjoint(some)
  {
    hide Overlap;
    forall i, j | 0 <= i < j < |some| ensures !Overlap(some[i], some[j]) {
      assert !Overlap(all[i], all[j]);
    }
  }

  lemma {:induction false} ItemsAreTargets(l: Layout, projects: seq<ProjectTargets>, host: Tree, i: nat)
    requires forall p :: p in projects ==> p.id in l.artifacts
    requires Vacant(projects, host.Keys) && i < |FilesystemItems(l, projects)|
    ensures FilesystemItems(l, projects)[i].path !in host
  {
    hide ProjectItems;
    var init, p := projects[..|projects| - 1], projects[|projects| - 1];
    var before := FilesystemItems(l, init);
    if i < |before| {
      ItemsAreTargets(l, init, host, i);
    } else {
      ProjectItemIsTarget(p, l.artifacts[p.id], l.database, i - |before|);
      assert p in projects;
    }
  }

  lemma ProjectItemIsTarget(p: ProjectTargets, a: Artifacts, database: Path, i: nat)
    requires i < |ProjectItems(p, a, database)| && forall t :: t in AllTargets(p) ==> t.Some?
    ensures Some(ProjectItems(p, a, database)[i].path) in AllTargets(p)
  {
    assert p.config in AllTargets(p) && p.requirements in AllTargets(p) && p.repo in AllTargets(p);
    assert p.state in AllTargets(p) && p.worktree in AllTargets(p);
  }

  lemma AcceptedIsReady(l: Layout, host: Tree)
    requires Accepted(l, host) && Sound(l, host)
    ensures Ready(host, Items(l))
  {
    hide WellFormed, Sealed, Closed, FilesystemItems, Disjoint, Overlap;
    var items := Items(l);
    forall i | 0 <= i < |items| ensures items[i].path !in host {
      if i < |items| - 1 {
        ItemsAreTargets(l, l.projects, host, i);
      }
    }
    forall p | p in l.projects ensures p.repo.Some? && p.state.Some? {
      assert p.repo in AllTargets(p) && p.state in AllTargets(p);
    }
    StoresAreDirectories(l, l.projects);
    DatabaseIsNoStore(l);
    forall i, j | 0 <= i < j < |items| && items[i].IsStore() && items[j].IsStore()
        ensures !Overlap(items[i].path, items[j].path) {
      StoresAreApart(items, i, j);
    }
  }

  lemma DatabaseIsNoStore(l: Layout)
    requires forall p :: p in l.projects ==> p.id in l.artifacts
    ensures StorePaths(Items(l)) == StorePaths(FilesystemItems(l, l.projects))
  {
    hide FilesystemItems;
    assert Items(l)[..|Items(l)| - 1] == FilesystemItems(l, l.projects);
  }

  // ----- the theorems -----

  /** An attempt on an accepted plan completes exactly when no host file lies on the way to a target and every target
      is compatible with all published before it: it is no ancestor of one, and where one has content at its path
      that content is its own. The order is requirements, configuration, repository, state, worktree of each
      project, then the database; a worktree or database inside a state directory comes after it. */
  lemma AcceptedPlanCompletesIff(l: Layout, host: Tree)
    requires Accepted(l, host) && Sound(l, host)
    ensures Run(host, Items(l)).Some? <==>
              && (forall n :: 0 <= n < |Items(l)| ==> !Blocked(host, Items(l)[n].path))
              && forall i, n :: 0 <= i < n < |Items(l)| ==> Compatible(Items(l)[i], Items(l)[n])
  {
    hide Items, Accepted, Run, Compatible, Blocked;
    AcceptedIsReady(l, host);
    CompletesIff(host, Items(l));
    FitsAreCompatible(host, Items(l));
  }

  lemma FitsAreCompatible(host: Tree, items: seq<Item>)
    requires AllWellFormed(items)
    ensures AllFit(host, items) <==>
              && (forall n :: 0 <= n < |items| ==> !Blocked(host, items[n].path))
              && forall i, n :: 0 <= i < n < |items| ==> Compatible(items[i], items[n])
  {
    hide Compatible, Blocked, Closed;
    forall n | 0 <= n < |items| ensures [] in items[n].tree {
      assert WellFormed(items[n]);
    }
    if AllFit(host, items) {
      forall n | 0 <= n < |items| ensures !Blocked(host, items[n].path) {
        assert FitsBehind(host, items, n);
      }
      forall i, n | 0 <= i < n < |items| ensures Compatible(items[i], items[n]) {
        assert FitsBehind(host, items, n);
      }
    }
  }

  /** Where no target meets what another one contains, only the order matters: such a plan completes exactly when no
      target published later equals or is an ancestor of one published earlier. */
  lemma SeparatePlanCompletesIff(l: Layout, host: Tree)
    requires Accepted(l, host) && Sound(l, host)
    requires forall n :: 0 <= n < |Items(l)| ==> !Blocked(host, Items(l)[n].path)
    requires forall i, n :: 0 <= i < n < |Items(l)| ==> Separate(Items(l)[i], Items(l)[n])
    ensures Run(host, Items(l)).Some? <==>
              forall i, n :: 0 <= i < n < |Items(l)| ==> !(Items(l)[n].path <= Items(l)[i].path)
  {
    hide Items, Accepted, Run, Compatible, Blocked, Separate;
    AcceptedPlanCompletesIff(l, host);
    var items := Items(l);
    forall i, n | 0 <= i < n < |items| ensures Compatible(items[i], items[n]) <==> !(items[n].path <= items[i].path) {
      SeparateIsCompatible(items[i], items[n]);
    }
  }

  /** The later target is not among the earlier one's content, nor below a file of it; and two targets at one path
      want different things. */
  ghost predicate Separate(earlier: Item, later: Item)
    requires [] in later.tree
  {
    && (earlier.path < later.path ==> At(earlier, later.path).None? && !PutsFileOnTheWay(earlier, later.path))
    && (earlier.path == later.path ==> At(earlier, later.path).None? || !Shared(earlier, later))
  }

  lemma SeparateIsCompatible(earlier: Item, later: Item)
    requires WellFormed(earlier) && WellFormed(later) && Separate(earlier, later)
    ensures Compatible(earlier, later) <==> !(later.path <= earlier.path)
  {
    hide Closed, At, Shared;
    AtItsPath(earlier);
    SamePath(earlier.path, later.path);
    if At(earlier, later.path).Some? {
      AtLiesIn(earlier, later.path);
    }
    if PutsFileOnTheWay(earlier, later.path) {
      var q :| q < later.path && At(earlier, q).Some? && At(earlier, q).value.FileOf?;
      AtLiesIn(earlier, q);
    }
  }

  /** Run again after it has completed, an attempt accepts everything exactly when no target disturbs one published
      before it. */
  lemma CompletedPlanResumesIff(l: Layout, host: Tree)
    requires Accepted(l, host) && Sound(l, host) && Run(host, Items(l)).Some?
    ensures Run(Run(host, Items(l)).value, Items(l)).Some? <==> AllUndisturbed(Items(l))
  {
    hide Items, Accepted, Run, AllUndisturbed;
    AcceptedIsReady(l, host);
    CompletesIff(host, Items(l));
    ResumeCompletesIff(host, Items(l));
  }

  /** A configuration file inside its own repository target blocks every attempt, whatever else the plan holds: the
      repository target exists before it is published. */
  lemma ConfigurationBlocksItsRepository(l: Layout, host: Tree, i: nat, n: nat)
    requires Accepted(l, host) && Sound(l, host) && i < n < |Items(l)|
    requires Items(l)[n].IsStore() && Items(l)[n].path < Items(l)[i].path
    ensures Run(host, Items(l)) == None
  {
    hide Items, Accepted, Run, Blocked;
    AcceptedPlanCompletesIff(l, host);
    assert !Compatible(Items(l)[i], Items(l)[n]);
  }

  /** The plan that the preflight accepts although its configuration lies in its repository is refused at its
      repository key, after the requirements and the configuration were published. */
  lemma LiteralPlanIsRefused(a: Artifacts) returns (fs: Tree)
    requires var p := ConfigInRepository();
             AllWellFormed(ProjectItems(p, a, ["db"])) && [".git", "HEAD"] in a.checkout
                 && a.checkout[[".git", "HEAD"]].FileOf?
    ensures var items := ProjectItems(ConfigInRepository(), a, ["db"]);
            Run(map[[] := Dir], items[..2]) == Some(fs) && Step(fs, items[2]) == None && items[2].kind.Repository?
  {
    hide Compatible, FitsBehind, Run, Step, Laid, Ready, Blocked, Closed, At;
    var host: Tree := map[[] := Dir];
    var all := ProjectItems(ConfigInRepository(), a, ["db"]);
    var items := all[..3];
    assert WellFormed(all[0]) && WellFormed(all[1]) && WellFormed(all[2]);
    FirstThreeAreReady(host, items);
    RootBlocksNothing(host, items[0].path);
    RootBlocksNothing(host, items[1].path);
    assert items[0].path[0] != items[1].path[0];
    ApartIsCompatible(items[0], items[1]);
    FitIsCompatible(host, items);
    RunIff(host, items, 2);
    assert all[..2] == items[..2];
    fs := Run(host, items[..2]).value;
    StepIff(fs, host, items, 2);
    assert items[2].path < items[1].path;
    AboveIsNotCompatible(items[1], items[2]);
  }

  lemma FitIsCompatible(host: Tree, items: seq<Item>)
    requires AllWellFormed(items) && |items| == 3 && forall i :: 0 <= i < 3 ==> [] in items[i].tree
    ensures FitsBehind(host, items, 0) <==> !Blocked(host, items[0].path)
    ensures FitsBehind(host, items, 1) <==> !Blocked(host, items[1].path) && Compatible(items[0], items[1])
    ensures FitsBehind(host, items, 2) ==> Compatible(items[1], items[2])
  {
    hide Compatible, Blocked, WellFormed;
  }

  lemma FirstThreeAreReady(host: Tree, items: seq<Item>)
    requires host == map[[] := Dir] && |items| == 3 && AllWellFormed(items)
    requires items[0].kind.SingleFile? && items[1].kind.SingleFile? && items[2].kind.Repository?
    requires items[0].path == ["requirements.md"] && items[1].path == ["repo", "converge.yaml"]
               && items[2].path == ["repo"]
    requires [".git", "HEAD"] in items[2].tree && items[2].tree[[".git", "HEAD"]].FileOf?
    ensures Ready(host, items)
  {
    hide WellFormed;
    var head := ["repo"] + [".git", "HEAD"];
    assert |head| == 3 && |items[0].path| == 1 && |items[1].path| == 2;
    assert Sealed(items, items[2]);
  }

  lemma RootBlocksNothing(host: Tree, path: Path)
    requires host == map[[] := Dir]
    ensures !Blocked(host, path)
  {
  }

  lemma ApartIsCompatible(earlier: Item, later: Item)
    requires earlier.path != [] && later.path != [] && earlier.path[0] != later.path[0] && [] in later.tree
    ensures Compatible(earlier, later)
  {
  }

  lemma AboveIsNotCompatible(earlier: Item, later: Item)
    requires later.path < earlier.path && [] in later.tree
    ensures !Compatible(earlier, later)
  {
  }

  /** A database or worktree inside a state directory never disturbs it. */
  lemma NestedIsSpared(p: ProjectTargets, a: Artifacts, database: Path, later: Item)
    requires later.path == database || later.path == Or(p.worktree)
    ensures Undisturbed(ProjectItems(p, a, database)[3], later)
  {
    var state := ProjectItems(p, a, database)[3];
    if state.path < later.path {
      assert LiesIn(later.path, Or(p.state)) && later.path in {Or(p.worktree), database};
      assert LiesIn(later.path, later.path);
      assert UnderAny(Nested(p, database), later.path);
    }
  }

  /** A database inside a repository is published there, since the repository comes first; run again, the attempt
      completes exactly when git ignores the database file, provided that nothing else is disturbed. */
  lemma DatabaseInRepositoryOnResume(l: Layout, host: Tree, r: nat)
    requires Accepted(l, host) && Sound(l, host) && Run(host, Items(l)).Some?
    requires r < |Items(l)| - 1 && Items(l)[r].kind.Repository? && Items(l)[r].path < l.database
    requires At(Items(l)[r], l.database).None?
    ensures Run(Run(host, Items(l)).value, Items(l)).Some? <==>
              && Items(l)[r].kind.gitIgnored(l.database[|Items(l)[r].path|..])
              && forall j, i :: 0 <= j < i < |Items(l)| && (j != r || i != |Items(l)| - 1) ==>
                  Undisturbed(Items(l)[j], Items(l)[i])
  {
    hide FilesystemItems, Accepted, Run, At, WellFormed, Closed, Sealed;
    CompletedPlanResumesIff(l, host);
    var items := Items(l);
    var last := |items| - 1;
    assert items[last] == File(l.database, l.content);
    assert Undisturbed(items[r], items[last]) <==> items[r].kind.gitIgnored(l.database[|items[r].path|..]);
  }
}
