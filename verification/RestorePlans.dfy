/**
 The target checks of the restore preflight (`restore.py`, lines 82-95 and 339-412). A target path is its
 sequence of components after lexical normalisation; a path that is not absolute has none.
 */
module RestorePlans {
  import opened Wrappers

  type Path = seq<string>

  datatype ProjectTargets = ProjectTargets(
    id: string, config: Option<Path>, requirements: Option<Path>, repo: Option<Path>, state: Option<Path>,
        worktree: Option<Path>)

  datatype Blocker =
    | NoProjects
    | DuplicateIds
    | NotAbsolute(id: string)
    | AlreadyExists(id: string)
    | Overlaps(id: string)

  /** One is the other or lies below it. */
  predicate Overlap(a: Path, b: Path) {
    a <= b || b <= a
  }

  function AllTargets(p: ProjectTargets): seq<Option<Path>> {
    [p.config, p.requirements, p.repo, p.state, p.worktree]
  }

  function Directories(p: ProjectTargets): seq<Path> {
    (if p.repo.Some? then [p.repo.value] else []) + (if p.state.Some? then [p.state.value] else [])
  }

  /** The repository and state targets of all projects, in order. */
  function DirectoryTargets(projects: seq<ProjectTargets>): seq<Path> {
    if projects == [] then []
    else DirectoryTargets(projects[..|projects| - 1]) + Directories(projects[|projects| - 1])
  }

  ghost predicate Disjoint(paths: seq<Path>) {
    forall i, j :: 0 <= i < j < |paths| ==> !Overlap(paths[i], paths[j])
  }

  ghost predicate DistinctIds(projects: seq<ProjectTargets>) {
    forall i, j :: 0 <= i < j < |projects| ==> projects[i].id != projects[j].id
  }

  /** Every target is an absolute path at which nothing exists. */
  ghost predicate Vacant(projects: seq<ProjectTargets>, existing: set<Path>) {
    forall p, t :: p in projects && t in AllTargets(p) ==> t.Some? && t.value !in existing
  }

  /** No path from position `from` on overlaps an earlier one. */
  ghost predicate NewDisjoint(paths: seq<Path>, from: nat) {
    forall j :: from <= j < |paths| ==> Apart(paths[..j], paths[j])
  }

  ghost predicate Apart(paths: seq<Path>, path: Path) {
    forall i :: 0 <= i < |paths| ==> !Overlap(paths[i], path)
  }

  method CheckTargets(p: ProjectTargets, existing: set<Path>) returns (blockers: seq<Blocker>)
    ensures blockers == [] <==> forall t :: t in AllTargets(p) ==> t.Some? && t.value !in existing
  {
    hide AllTargets;
    blockers := [];
    var targets := AllTargets(p);
    for i := 0 to |targets|
      invariant blockers == [] <==> forall k :: 0 <= k < i ==> targets[k].Some? && targets[k].value !in existing
    {
      if targets[i].None? {
        blockers := blockers + [NotAbsolute(p.id)];
      } else if targets[i].value in existing {
        blockers := blockers + [AlreadyExists(p.id)];
      }
    }
  }

  /** Compare a project's directories with those seen so far. */
  method CheckDirectories(p: ProjectTargets, seen: seq<Path>) returns (blockers: seq<Blocker>, seen': seq<Path>)
    ensures seen' == seen + Directories(p)
    ensures blockers == [] <==> NewDisjoint(seen', |seen|)
  {
    hide Directories, Overlap;
    var directories := Directories(p);
    blockers, seen' := [], seen;
    for d := 0 to |directories|
      invariant seen' == seen + directories[..d]
      invariant blockers == [] <==> NewDisjoint(seen', |seen|)
    {
      var path := directories[d];
      var found := false;
      for i := 0 to |seen'|
        invariant found <==> exists k :: 0 <= k < i && Overlap(seen'[k], path)
      {
        if Overlap(seen'[i], path) {
          found := true;
        }
      }
      OneMorePath(seen', |seen|, path);
      if found {
        blockers := blockers + [Overlaps(p.id)];
      }
      assert directories[..d + 1] == directories[..d] + [path];
      seen' := seen' + [path];
    }
    assert directories[..|directories|] == directories;
  }

  lemma OneMorePath(paths: seq<Path>, from: nat, path: Path)
    requires from <= |paths|
    ensures NewDisjoint(paths + [path], from) <==> NewDisjoint(paths, from) && Apart(paths, path)
  {
    hide Apart;
    var more := paths + [path];
    assert more[..|paths|] == paths && more[|paths|] == path;
    forall j | 0 <= j < |paths| ensures more[..j] == paths[..j] && more[j] == paths[j] {
    }
  }

  /** The preflight finds no blocker among the targets exactly when there are projects, their ids differ,
      every target is absolute and vacant, and no repository or state directory of any project is or
      contains another. */
  method PlanTargets(projects: seq<ProjectTargets>, existing: set<Path>) returns (blockers: seq<Blocker>)
    ensures blockers == [] <==>
              projects != [] && DistinctIds(projects) && Vacant(projects, existing)
                  && Disjoint(DirectoryTargets(projects))
  {
    hide DistinctIds, AllTargets, Directories, NewDisjoint;
    blockers := [];
    if projects == [] {
      return [NoProjects];
    }
    var distinct := HaveDistinctIds(projects);
    if !distinct {
      blockers := [DuplicateIds];
    }
    var seen: seq<Path> := [];
    for i := 0 to |projects|
      invariant seen == DirectoryTargets(projects[..i])
      invariant blockers == [] <==> distinct && Vacant(projects[..i], existing) && Disjoint(seen)
    {
      assert projects[..i + 1] == projects[..i] + [projects[i]] && projects[..i + 1][..i] == projects[..i];
      var unfit := CheckTargets(projects[i], existing);
      var overlaps, seen' := CheckDirectories(projects[i], seen);
      DisjointSplit(seen, seen');
      VacantOneMore(projects[..i], projects[i], existing);
      blockers := blockers + unfit + overlaps;
      seen := seen';
    }
    assert projects[..|projects|] == projects;
  }

  lemma VacantOneMore(projects: seq<ProjectTargets>, p: ProjectTargets, existing: set<Path>)
    ensures Vacant(projects + [p], existing)
            <==> Vacant(projects, existing) && forall t :: t in AllTargets(p) ==> t.Some? && t.value !in existing
  {
    hide AllTargets;
    assert p in projects + [p] && forall q :: q in projects ==> q in projects + [p];
  }

  lemma DisjointSplit(seen: seq<Path>, seen': seq<Path>)
    requires seen <= seen'
    ensures Disjoint(seen') <==> Disjoint(seen) && NewDisjoint(seen', |seen|)
  {
    hide Overlap;
    if Disjoint(seen') {
      forall i, j | 0 <= i < j < |seen| ensures !Overlap(seen[i], seen[j]) {
        assert !Overlap(seen'[i], seen'[j]);
      }
    }
    if NewDisjoint(seen', |seen|) {
      forall i, j | 0 <= i < j < |seen'| && j >= |seen| ensures !Overlap(seen'[i], seen'[j]) {
        assert Apart(seen'[..j], seen'[j]) && seen'[..j][i] == seen'[i];
      }
    }
  }

  method HaveDistinctIds(projects: seq<ProjectTargets>) returns (distinct: bool)
    ensures distinct <==> DistinctIds(projects)
  {
    var ids: set<string> := {};
    for i := 0 to |projects|
      invariant forall id :: id in ids <==> exists j :: 0 <= j < i && projects[j].id == id
      invariant DistinctIds(projects[..i])
    {
      if projects[i].id in ids {
        return false;
      }
      ids := ids + {projects[i].id};
    }
    assert projects[..|projects|] == projects;
    return true;
  }

  predicate LiesIn(path: Path, directory: Path) {
    directory <= path
  }

  /** Two targets overlap exactly when some path lies in both. */
  lemma OverlapIsShared(a: Path, b: Path)
    ensures Overlap(a, b) <==> exists path :: LiesIn(path, a) && LiesIn(path, b)
  {
    if path :| LiesIn(path, a) && LiesIn(path, b) {
      assert path[..|a|] == a && path[..|b|] == b;
      assert if |a| <= |b| then b[..|a|] == a else a[..|b|] == b;
    }
    if Overlap(a, b) {
      var longer := if |a| <= |b| then b else a;
      assert LiesIn(longer, a) && LiesIn(longer, b);
    }
  }

  /** A project whose configuration file lies inside its own repository. */
  function ConfigInRepository(): ProjectTargets {
    ProjectTargets("p", Some(["repo", "converge.yaml"]), Some(["requirements.md"]), Some(["repo"]), Some(["state"]),
        Some(["work"]))
  }

  /** Only repository and state directories are compared: a plan whose configuration file lies inside its
      own repository target is accepted. */
  lemma ConfigurationMayLieInTheRepository() returns (p: ProjectTargets)
    ensures p == ConfigInRepository()
    ensures DistinctIds([p]) && Vacant([p], {[]}) && Disjoint(DirectoryTargets([p]))
    ensures p.config.Some? && p.repo.Some? && LiesIn(p.config.value, p.repo.value) && p.config != p.repo
  {
    p := ConfigInRepository();
    assert p.repo.value <= p.config.value;
    assert [p][..0] == [] && DirectoryTargets([]) == [];
    assert Directories(p) == [["repo"], ["state"]];
    var directories := DirectoryTargets([p]);
    assert directories == [["repo"], ["state"]];
    hide DirectoryTargets, Directories;
    assert directories[0][0] != directories[1][0];
  }
}
