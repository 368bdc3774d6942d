/**
 Which workspace and which state store a project is bound to (`registry.py`, lines 85-91 and 115-177).
 A registration is one transaction.
 */
module ProjectRegistry {
  import opened Wrappers

  type ProjectId = string

  datatype Project = Project(config: string, workspace: Option<string>, store: Option<string>)

  type Projects = map<ProjectId, Project>

  datatype Registration = Registration(id: ProjectId, config: string, workspace: Option<string>, store: Option<string>)

  /** A binding that is wanted fits one that exists: one of them is open, or they are the same. */
  predicate Fits(wanted: Option<string>, bound: Option<string>) {
    wanted.None? || bound.None? || wanted == bound
  }

  predicate HeldElsewhere(projects: Projects, id: ProjectId, store: Option<string>) {
    store.Some? && exists other :: other in projects && other != id && projects[other].store == store
  }

  function Merged(r: Registration, bound: Project): Project {
    Project(r.config,
            if r.workspace.Some? then r.workspace else bound.workspace,
            if r.store.Some? then r.store else bound.store)
  }

  /** No two projects share a state store. */
  ghost predicate StoresAreUnique(projects: Projects) {
    forall p, q ::
      p in projects && q in projects && projects[p].store.Some? && projects[p].store == projects[q].store ==> p == q
  }

  /** Registering: the new table, or none if the registration is refused. */
  ghost predicate RegisterStep(projects: Projects, r: Registration, projects': Projects, ok: bool) {
    && (ok <==> !HeldElsewhere(projects, r.id, r.store)
                && (r.id in projects ==>
                      Fits(r.workspace, projects[r.id].workspace) && Fits(r.store, projects[r.id].store)))
    && (!ok ==> projects' == projects)
    && (ok ==> projects' == projects[r.id := Merged(r, if r.id in projects then projects[r.id]
        else Project(r.config, None, None))])
  }

  /** A registration is refused exactly when another project has its store, or its own project is bound to another
      workspace or another store; an accepted one takes the new configuration and keeps every binding it does not
      name. */
  lemma RegistrationIs(projects: Projects, r: Registration, projects': Projects, ok: bool)
    requires RegisterStep(projects, r, projects', ok)
    ensures !ok <==>
              || (r.store.Some? && exists other :: other in projects && other != r.id
                                                   && projects[other].store == r.store)
              || (r.id in projects && r.workspace.Some? && projects[r.id].workspace.Some?
                  && r.workspace.value != projects[r.id].workspace.value)
              || (r.id in projects && r.store.Some? && projects[r.id].store.Some?
                  && r.store.value != projects[r.id].store.value)
    ensures ok ==> r.id in projects' && projects'[r.id].config == r.config && projects' - {r.id} == projects - {r.id}
    ensures ok && r.workspace.Some? ==> projects'[r.id].workspace == r.workspace
    ensures ok && r.store.Some? ==> projects'[r.id].store == r.store
    ensures ok && r.workspace.None? ==>
              projects'[r.id].workspace == if r.id in projects then projects[r.id].workspace else None
    ensures ok && r.store.None? ==> projects'[r.id].store == if r.id in projects then projects[r.id].store else None
  {
  }

  class ProjectTable {
    var projects: Projects

    constructor ()
      ensures projects == map[]
    {
      projects := map[];
    }

    /** `register_project`. */
    method RegisterProject(r: Registration) returns (ok: bool)
      modifies this
      ensures RegisterStep(old(projects), r, projects, ok)
      ensures old(StoresAreUnique(projects)) ==> StoresAreUnique(projects)
    {
      if HeldElsewhere(projects, r.id, r.store) {
        return false;
      }
      if r.id !in projects {
        projects := projects[r.id := Project(r.config, r.workspace, r.store)];
        return true;
      }
      var bound := projects[r.id];
      if !Fits(r.workspace, bound.workspace) || !Fits(r.store, bound.store) {
        return false;
      }
      projects := projects[r.id := Merged(r, bound)];
      return true;
    }
  }

  // ----- every history -----

  ghost predicate Registered(projects: Projects, r: Registration, projects': Projects) {
    exists ok :: RegisterStep(projects, r, projects', ok)
  }

  ghost predicate IsHistory(registrations: seq<Registration>, tables: seq<Projects>) {
    && |tables| == |registrations| + 1 && tables[0] == map[]
    && forall i :: 0 <= i < |registrations| ==> Registered(tables[i], registrations[i], tables[i + 1])
  }

  /** In every history no state store ever serves two projects. */
  lemma {:induction false} NoStoreIsShared(registrations: seq<Registration>, tables: seq<Projects>, i: nat)
    requires IsHistory(registrations, tables) && i < |tables|
    ensures StoresAreUnique(tables[i])
  {
    if i > 0 {
      var before: nat := i - 1;
      NoStoreIsShared(registrations, tables, before);
      assert Registered(tables[before], registrations[before], tables[i]);
    }
  }

  /** A binding, once made, is for ever: registering again can only fill what is open. */
  lemma {:induction false} BindingsAreForEver(registrations: seq<Registration>, tables: seq<Projects>, i: nat, j: nat,
      id: ProjectId)
    requires IsHistory(registrations, tables) && i <= j < |tables| && id in tables[i]
    ensures id in tables[j]
    ensures tables[i][id].workspace.Some? ==> tables[j][id].workspace == tables[i][id].workspace
    ensures tables[i][id].store.Some? ==> tables[j][id].store == tables[i][id].store
    decreases j
  {
    if i < j {
      var before: nat := j - 1;
      BindingsAreForEver(registrations, tables, i, before, id);
      assert Registered(tables[before], registrations[before], tables[j]);
    }
  }
}
