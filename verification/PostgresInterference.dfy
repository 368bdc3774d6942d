/**
 The PostgreSQL restore over hosts that others change too (`restore_postgres.py`, lines 327-385 and
 442-538): for every host and every database, what an attempt accepts, refuses and leaves.
 */
module PostgresInterference {
  import opened Wrappers
  import opened BackupManifests
  import opened RestoreProtocol
  import opened RestoreSafety
  import opened RestoreInterference
  import opened PostgresRestore

  // ----- the database step -----

  /** A database with another receipt, with data and no receipt, or recorded and gone, ends the process untouched. */
  lemma ForeignDatabaseIsRefused(r: PgRun, expected: Receipt, psql: Psql)
    requires r.status == Running && r.host.db.receipt != Some(expected)
    requires r.host.db != EMPTY_DB || Published(r.host.files, Database)
    ensures EnsureDatabase(r, expected, psql) == r.(status := Refused)
  {
    hide RunScript, PgMark;
    assert r.host.db.receipt.None? ==> r.host.db != EMPTY_DB || Published(r.host.files, Database);
  }

  /** The step changes only an empty, unrecorded database, and only into the backup's data with the expected receipt;
      it returns exactly with that receipt in place, and the record beside it. */
  ghost predicate DatabaseStep(r: PgRun, r': PgRun, expected: Receipt, psql: Psql) {
    && r'.host.files.targets == r.host.files.targets && r'.host.files.stages == r.host.files.stages
    && (r.host.files.journal.Some? <==> r'.host.files.journal.Some?)
    && (forall k :: Published(r.host.files, k) ==> Published(r'.host.files, k))
    && (forall k :: Published(r'.host.files, k) && !Published(r.host.files, k) ==> k == Database)
    && (if r'.host.db == r.host.db then r'.host.commits == r.host.commits
        else
          && r.host.db == EMPTY_DB && !Published(r.host.files, Database) && psql != RolledBack
          && r'.host.db == Db(BackupDump, Some(expected)) && r'.host.commits == r.host.commits + 1)
    && (r'.status == Running ==>
          && r.status == Running && r'.host.db.receipt == Some(expected)
          && (r.host.db == EMPTY_DB ==> psql == Committed && !r'.host.scriptStaged)
          && (r.host.files.journal.Some? ==> Published(r'.host.files, Database)))
  }

  lemma ScriptStep(r: PgRun, expected: Receipt, psql: Psql)
    requires r.status == Running && r.host.db == EMPTY_DB
    ensures var r' := RunScript(r, expected, psql);
            && r'.host.files == r.host.files && r'.status != Refused
            && (if r'.host.db == EMPTY_DB then r'.host.commits == r.host.commits
                else psql != RolledBack && r'.host.db == Db(BackupDump, Some(expected))
                     && r'.host.commits == r.host.commits + 1)
            && (r'.status == Running ==> (r'.host.db == EMPTY_DB <==> psql == RolledBack) && !r'.host.scriptStaged)
            && (r.fuel >= 4 ==> r'.status == Running && r'.fuel + 4 >= r.fuel)
  {
  }

  /** A process that dies while it runs the script leaves, by the number of steps it lived: a leftover stage
      as it was or
      removed, the script staged, and the script staged over a committed transaction. */
  lemma DyingInTheScript(r: PgRun, expected: Receipt, psql: Psql)
    requires r.status == Running && r.host.db == EMPTY_DB && r.fuel < if r.host.scriptStaged then 4 else 3
    ensures var r' := RunScript(r, expected, psql);
            var step := if r.host.scriptStaged then r.fuel else r.fuel + 1;
            && r'.status == Crashed && r'.fuel == 0 && r'.host.files == r.host.files
            && r'.host.scriptStaged == (step == 0 || step >= 2)
            && r'.host.db == (if step == 3 && psql != RolledBack then Db(BackupDump, Some(expected)) else EMPTY_DB)
  {
  }

  lemma DatabaseStepIs(r: PgRun, expected: Receipt, psql: Psql)
    ensures DatabaseStep(r, EnsureDatabase(r, expected, psql), expected, psql)
    ensures r.status == Running && r.fuel >= 5 && psql == Committed
            && (r.host.db.receipt == Some(expected)
                || (r.host.db == EMPTY_DB && !Published(r.host.files, Database))) ==>
              EnsureDatabase(r, expected, psql).status == Running
  {
    hide RunScript;
    if r.status == Running && r.host.db == EMPTY_DB {
      ScriptStep(r, expected, psql);
    }
  }

  // ----- an attempt on any host -----

  /** The journal starts empty: there is none, or a complete one over an empty host. */
  predicate PgStartsFresh(plan: Plan, h: PgHost) {
    h.files.journal.None?
    || (Complete(plan, h.files.journal.value) && h.files.targets == map[] && h.db == EMPTY_DB)
  }

  predicate PgAdmits(plan: Plan, h: PgHost) {
    match h.files.journal
    case None => h.files.targets == map[] && h.db == EMPTY_DB
    case Some(published) => forall k :: k in published ==> k in Order(plan)
  }

  function PgBegun(plan: Plan, h: PgHost): PgHost {
    if PgStartsFresh(plan, h) then h.(files := h.files.(journal := Some([])), commits := 0) else h
  }

  lemma PgOpenIff(plan: Plan, h: PgHost, fuel: nat)
    requires ReadyPlan(plan)
    ensures var r := PgOpen(plan, h, fuel);
            && (PgAdmits(plan, h) && fuel > 0 ==> r.status == Running && r.fuel + 1 >= fuel)
            && (r.status == Running ==> PgAdmits(plan, h) && r.host == PgBegun(plan, h))
            && (r.status != Running ==> r.host == h)
  {
    hide Order, ExpectedKeys;
    OrderFacts(plan);
    assert forall k :: k in Order(plan) <==> k in ExpectedKeys(plan.projects);
    if h.files.journal.Some? {
      var recorded := set k | k in h.files.journal.value;
      assert recorded <= ExpectedKeys(plan.projects) <==> PgAdmits(plan, h);
    }
  }

  /** The attempt once its journal is open: the filesystem keys, then the database. */
  ghost predicate Stages(plan: Plan, h: PgHost, expected: Receipt, psql: Psql, begun: PgRun, files: Run, r: PgRun) {
    && (begun.status == Running ==> PgAdmits(plan, h) && begun.host == PgBegun(plan, h))
    && (begun.status != Running ==> r == begun && begun.host == h)
    && (begun.status == Running ==>
          && Through(plan, Run(begun.host.files, begun.fuel, Running), files, LastFile(plan))
          && r == EnsureDatabase(Lift(files, begun.host), expected, psql)
          && DatabaseStep(Lift(files, begun.host), r, expected, psql))
  }

  lemma PgAttemptStages(plan: Plan, h: PgHost, expected: Receipt, fuel: nat, psql: Psql)
    returns (begun: PgRun, files: Run)
    requires ReadyPlan(plan)
    ensures begun == PgOpen(plan, h, fuel)
    ensures Stages(plan, h, expected, psql, begun, files, PgAttempt(plan, h, expected, fuel, psql))
  {
    hide Order, FilesystemOrder, EnsureAll, EnsureDatabase, PgOpen, Through, DatabaseStep, Complete, ReadyPlan;
    begun := PgOpen(plan, h, fuel);
    var start := Run(begun.host.files, begun.fuel, begun.status);
    files := EnsureAll(plan, start, FilesystemOrder(plan.projects));
    PgOpenIff(plan, h, fuel);
    OrderSplits(plan);
    if begun.status == Running {
      KeysGoThrough(plan, start, LastFile(plan));
      DatabaseStepIs(Lift(files, begun.host), expected, psql);
    } else {
      StoppedStays(plan, start, FilesystemOrder(plan.projects));
      StoppedDatabase(begun, expected, psql);
    }
  }

  /** Whatever the host and its database hold, an attempt changes no target that is there and no database but an empty
      one, into which it commits the backup under the expected receipt; and an attempt that returns leaves the backup's
      content at every key and a database with that receipt, all recorded. */
  lemma PgAttemptFillsGaps(plan: Plan, h: PgHost, expected: Receipt, fuel: nat, psql: Psql)
    requires PgPlan(plan)
    ensures var r := PgAttempt(plan, h, expected, fuel, psql);
            && (forall k :: k in h.files.targets ==>
                              k in r.host.files.targets && r.host.files.targets[k] == h.files.targets[k])
            && (forall k :: k in r.host.files.targets && k !in h.files.targets ==>
                  k in FilesystemOrder(plan.projects) && Matches(plan, k, r.host.files.targets[k]))
            && (r.host.db == h.db || (h.db == EMPTY_DB && r.host.db == Db(BackupDump, Some(expected))))
            && (r.status == Running && h.db == EMPTY_DB ==> psql == Committed && !r.host.scriptStaged)
            && (r.status == Running ==>
                  && r.host.db.receipt == Some(expected) && Published(r.host.files, Database)
                  && forall k :: k in FilesystemOrder(plan.projects) ==>
                       && k in r.host.files.targets && Matches(plan, k, r.host.files.targets[k])
                       && Published(r.host.files, k))
  {
    hide Order, FilesystemOrder, EnsureAll, EnsureDatabase, PgOpen, PgAttempt, Matches, Wanted, Passes, ReadyPlan,
        Published;
    var begun, files := PgAttemptStages(plan, h, expected, fuel, psql);
    var r, keys := PgAttempt(plan, h, expected, fuel, psql), FilesystemOrder(plan.projects);
    OrderSplits(plan);
    if begun.status == Running {
      forall k | k in r.host.files.targets && k !in h.files.targets
        ensures k in keys && Matches(plan, k, r.host.files.targets[k])
      {
        assert k in keys;
        FileKey(plan, k);
        WantedMatches(plan, k);
      }
      forall k | k in keys && r.status == Running
        ensures k in r.host.files.targets && Matches(plan, k, r.host.files.targets[k]) && Published(r.host.files, k)
      {
        var i :| 0 <= i < |keys| && keys[i] == k;
        assert Holds(plan, files.host, Order(plan)[i]);
      }
    }
  }

  lemma FileKey(plan: Plan, k: Key)
    requires k in FilesystemOrder(plan.projects)
    ensures k in Order(plan)
  {
    assert Order(plan)[..|FilesystemOrder(plan.projects)|] == FilesystemOrder(plan.projects);
  }

  /** From any host and any database, an attempt that is not cut short and whose transaction commits returns exactly
      when the journal admits it, every target that is there holds the backup's content, no recorded one has gone, and
      the database has the expected receipt or is empty and not recorded. */
  lemma PgAttemptReturnsIff(plan: Plan, h: PgHost, expected: Receipt, fuel: nat)
    requires PgPlan(plan) && fuel >= PgEnough(plan)
    ensures PgAttempt(plan, h, expected, fuel, Committed).status == Running <==>
              && PgAdmits(plan, h)
              && (forall k :: k in FilesystemOrder(plan.projects) ==>
                    if k in h.files.targets then Matches(plan, k, h.files.targets[k])
                    else PgStartsFresh(plan, h) || !Published(h.files, k))
              && (h.db.receipt == Some(expected)
                  || (h.db == EMPTY_DB && (PgStartsFresh(plan, h) || !Published(h.files, Database))))
  {
    hide Order, FilesystemOrder, EnsureAll, EnsureDatabase, PgOpen, PgAttempt, Matches, Frame, Holds;
    var begun, files := PgAttemptStages(plan, h, expected, fuel, Committed);
    PgOpenIff(plan, h, fuel);
    OrderSplits(plan);
    var keys, r := FilesystemOrder(plan.projects), PgAttempt(plan, h, expected, fuel, Committed);
    if begun.status == Running {
      forall k | k in keys ensures Passes(plan, begun.host.files, k) <==>
          if k in h.files.targets then Matches(plan, k, h.files.targets[k])
          else PgStartsFresh(plan, h) || !Published(h.files, k)
      {
        PgPassesAtTheStart(plan, h, k);
      }
      DatabaseAtTheStart(plan, h, begun, files);
      DatabaseStepIs(Lift(files, begun.host), expected, Committed);
      EveryFilePasses(plan, begun.host.files);
    }
  }

  lemma EveryFilePasses(plan: Plan, h: Host)
    ensures (forall k :: k in FilesystemOrder(plan.projects) ==> Passes(plan, h, k))
            <==> forall i :: 0 <= i < LastFile(plan) ==> Passes(plan, h, Order(plan)[i])
  {
    hide Order, FilesystemOrder, Passes;
    OrderSplits(plan);
    assert forall i :: 0 <= i < LastFile(plan) ==> FilesystemOrder(plan.projects)[i] == Order(plan)[i];
  }

  lemma DatabaseAtTheStart(plan: Plan, h: PgHost, begun: PgRun, files: Run)
    requires PgPlan(plan) && begun.host == PgBegun(plan, h) && begun.status == Running
    requires Through(plan, Run(begun.host.files, begun.fuel, Running), files, LastFile(plan))
    ensures Published(files.host, Database) <==> !PgStartsFresh(plan, h) && Published(h.files, Database)
  {
    hide Order, Passes, Holds, Complete;
    OrderFacts(plan);
    OrderSplits(plan);
    assert Database !in Order(plan)[..LastFile(plan)];
  }

  lemma PgPassesAtTheStart(plan: Plan, h: PgHost, k: Key)
    requires PgPlan(plan)
    ensures Passes(plan, PgBegun(plan, h).files, k) <==>
              if k in h.files.targets then Matches(plan, k, h.files.targets[k])
              else PgStartsFresh(plan, h) || !Published(h.files, k)
  {
    hide Matches, Order, ExpectedKeys, ReadyPlan;
  }

  // ----- histories with outside changes -----

  datatype PgMove =
    | PgAttempted(fuel: nat, psql: Psql)
    | OutsideTarget(key: Key, content: Option<Artifact>)
    | OutsideDatabase(db: Db)

  function PgMade(plan: Plan, h: PgHost, expected: Receipt, move: PgMove): PgHost {
    match move
    case PgAttempted(fuel, psql) => PgAttempt(plan, h, expected, fuel, psql).host
    case OutsideTarget(key, content) => h.(files := Made(plan, h.files, Outside(key, content)))
    case OutsideDatabase(db) => h.(db := db)
  }

  function PgLater(plan: Plan, h: PgHost, expected: Receipt, moves: seq<PgMove>): PgHost {
    if moves == [] then h
    else PgMade(plan, PgLater(plan, h, expected, moves[..|moves| - 1]), expected, moves[|moves| - 1])
  }

  /** Others can exchange the database, or put anything at a target or take it away. */
  lemma OthersDo(plan: Plan, h: PgHost, expected: Receipt, db: Db, key: Key, content: Option<Artifact>)
    ensures PgLater(plan, h, expected, [OutsideDatabase(db)]) == h.(db := db)
    ensures PgLater(plan, h, expected, [OutsideTarget(key, content)])
              == h.(files := Later(plan, h.files, [Outside(key, content)]))
  {
    assert [OutsideDatabase(db)][..0] == [] && [OutsideTarget(key, content)][..0] == [];
    assert [Outside(key, content)][..0] == [];
  }

  /** Nobody else changes the database. */
  predicate DatabaseLeftAlone(moves: seq<PgMove>) {
    forall i :: 0 <= i < |moves| ==> !moves[i].OutsideDatabase?
  }

  /** A database that is not empty is only ever changed from outside. */
  lemma {:induction false} DatabaseStays(plan: Plan, h: PgHost, expected: Receipt, moves: seq<PgMove>)
    requires PgPlan(plan) && DatabaseLeftAlone(moves) && h.db != EMPTY_DB
    ensures PgLater(plan, h, expected, moves).db == h.db
  {
    hide PgAttempt, Order, FilesystemOrder, PgPlan, Matches, Published, Made;
    if moves != [] {
      var before := PgLater(plan, h, expected, moves[..|moves| - 1]);
      DatabaseStays(plan, h, expected, moves[..|moves| - 1]);
      if moves[|moves| - 1].PgAttempted? {
        PgAttemptFillsGaps(plan, before, expected, moves[|moves| - 1].fuel, moves[|moves| - 1].psql);
      }
    }
  }

  /** Once the database has data without the expected receipt, it stays as it is and no attempt returns, through any
      changes to the files, until somebody changes the database. */
  lemma ForeignDatabaseStops(plan: Plan, h: PgHost, expected: Receipt, moves: seq<PgMove>, fuel: nat, psql: Psql)
    requires PgPlan(plan) && DatabaseLeftAlone(moves) && h.db != EMPTY_DB && h.db.receipt != Some(expected)
    ensures var later := PgLater(plan, h, expected, moves);
            && later.db == h.db && PgAttempt(plan, later, expected, fuel, psql).host.db == h.db
            && PgAttempt(plan, later, expected, fuel, psql).status != Running
  {
    hide PgAttempt, Order, FilesystemOrder, PgPlan, Matches, Published, PgMade;
    DatabaseStays(plan, h, expected, moves);
    PgAttemptFillsGaps(plan, PgLater(plan, h, expected, moves), expected, fuel, psql);
  }

  /** A recorded database whose receipt has gone is not restored again while any target stays. */
  lemma LostDatabaseStops(plan: Plan, h: PgHost, expected: Receipt, fuel: nat, psql: Psql)
    requires PgPlan(plan) && Published(h.files, Database) && h.db.receipt != Some(expected) && h.files.targets != map[]
    ensures var r := PgAttempt(plan, h, expected, fuel, psql);
            r.status != Running && r.host.db == h.db && r.host.commits == h.commits
  {
    hide Order, FilesystemOrder, EnsureAll, EnsureDatabase, PgOpen, PgAttempt, Matches, Passes, Holds, ReadyPlan;
    var begun, files := PgAttemptStages(plan, h, expected, fuel, psql);
    if begun.status == Running {
      DatabaseAtTheStart(plan, h, begun, files);
    }
  }
}
