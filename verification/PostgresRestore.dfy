/**
 The PostgreSQL restore (`restore_postgres.py`, lines 275-294, 327-385 and 442-538): the filesystem
 part of the journalled protocol, then one transaction that commits the data and a receipt together.
 */
module PostgresRestore {
  import opened Wrappers
  import opened BackupManifests
  import opened RestoreProtocol
  import opened RestoreSafety

  /** Manifest hash, confirmation token and target binding. */
  datatype Receipt = Receipt(manifest: Digest, token: Digest, binding: Digest)

  datatype Relations = NoRelations | BackupDump | OtherRelations

  datatype Db = Db(relations: Relations, receipt: Option<Receipt>)

  const EMPTY_DB := Db(NoRelations, None)

  /** What became of the psql run: its transaction, and what the caller was told. */
  datatype Psql = Committed | CommittedButReportedFailed | RolledBack

  /** `commits` counts the commits of the restore script since the journal was last begun. */
  datatype PgHost = PgHost(files: Host, db: Db, scriptStaged: bool, commits: nat)

  datatype PgRun = PgRun(host: PgHost, fuel: nat, status: Status)

  function PgAct(r: PgRun, next: PgHost): PgRun {
    if r.status != Running then r
    else if r.fuel == 0 then r.(status := Crashed)
    else PgRun(next, r.fuel - 1, Running)
  }

  function Lift(r: Run, h: PgHost): PgRun {
    PgRun(h.(files := r.host), r.fuel, r.status)
  }

  function PgMark(r: PgRun, key: Key): PgRun {
    Lift(Mark(Run(r.host.files, r.fuel, r.status), key), r.host)
  }

  /** `_postgres_target_empty` and the other read-only checks find nothing in the way. */
  predicate PgPreflightReady(h: PgHost) {
    h.files.targets == map[] && h.db == EMPTY_DB
  }

  function PgOpen(plan: Plan, h: PgHost, fuel: nat): PgRun {
    var r := PgRun(h, fuel, Running);
    var begun := h.(files := h.files.(journal := Some([])), commits := 0);
    match h.files.journal
    case None => if PgPreflightReady(h) then PgAct(r, begun) else r.(status := Refused)
    case Some(published) =>
      if !((set k | k in published) <= ExpectedKeys(plan.projects)) then r.(status := Refused)
      else if Complete(plan, published) && PgPreflightReady(h) then PgAct(r, begun)
      else r
  }

  /** The script is staged, psql runs it in one transaction, and the stage is removed in any case. */
  function RunScript(r: PgRun, expected: Receipt, psql: Psql): PgRun {
    var cleared := if r.host.scriptStaged then PgAct(r, r.host.(scriptStaged := false)) else r;
    var staged := PgAct(cleared, cleared.host.(scriptStaged := true));
    var ran := PgAct(staged, if psql == RolledBack then staged.host
                             else staged.host.(db := Db(BackupDump, Some(expected)),
                                               commits := staged.host.commits + 1));
    PgAct(ran, ran.host.(scriptStaged := false))
  }

  /** `_ensure_postgres_database`. */
  function EnsureDatabase(r: PgRun, expected: Receipt, psql: Psql): PgRun {
    var receipt := r.host.db.receipt;
    if r.status != Running then r
    else if Published(r.host.files, Database) then
      if receipt == Some(expected) then r else r.(status := Refused)
    else if receipt.Some? then
      if receipt == Some(expected) then PgMark(r, Database) else r.(status := Refused)
    else if r.host.db != EMPTY_DB then r.(status := Refused)
    else
      var ran := RunScript(r, expected, psql);
      if ran.status != Running then ran
      else if psql != Committed || ran.host.db.receipt != Some(expected) then ran.(status := Refused)
      else PgMark(ran, Database)
  }

  /** `apply_postgres_restore`. */
  function PgAttempt(plan: Plan, h: PgHost, expected: Receipt, fuel: nat, psql: Psql): PgRun {
    var begun := PgOpen(plan, h, fuel);
    var files := EnsureAll(plan, Run(begun.host.files, begun.fuel, begun.status), FilesystemOrder(plan.projects));
    EnsureDatabase(Lift(files, begun.host), expected, psql)
  }

  // ----- the running process -----

  class PostgresProcess {
    const files: RestoreProcess
    var db: Db
    var scriptStaged: bool
    ghost var commits: nat

    constructor (plan: Plan, h: PgHost, fuel: nat)
      ensures fresh(files) && files.plan == plan && State() == PgRun(h, fuel, Running)
    {
      files := new RestoreProcess(plan, h.files, fuel);
      db, scriptStaged, commits := h.db, h.scriptStaged, h.commits;
    }

    ghost function State(): PgRun
      reads this, files
    {
      var r := files.State();
      PgRun(PgHost(r.host, db, scriptStaged, commits), r.fuel, r.status)
    }

    method Begin()
      requires files.status == Running
      modifies this, files
      ensures State() == PgOpen(files.plan, old(State()).host, old(files.fuel))
    {
      if files.journal.Some? {
        var published := set k | k in files.journal.value;
        if !(published <= ExpectedKeys(files.plan.projects)) {
          files.status := Refused;
          return;
        }
        if published != ExpectedKeys(files.plan.projects) || files.targets != map[] || db != EMPTY_DB {
          return;
        }
      } else if files.targets != map[] || db != EMPTY_DB {
        files.status := Refused;
        return;
      }
      var alive := files.Tick();
      if alive {
        files.journal := Some([]);
        commits := 0;
      }
    }

    method Execute(expected: Receipt, psql: Psql)
      requires files.status == Running
      modifies this, files
      ensures State() == RunScript(old(State()), expected, psql)
    {
      if scriptStaged {
        var alive := files.Tick();
        if !alive {
          return;
        }
        scriptStaged := false;
      }
      var alive := files.Tick();
      if !alive {
        return;
      }
      scriptStaged := true;
      alive := files.Tick();
      if !alive {
        return;
      }
      if psql != RolledBack {
        db, commits := Db(BackupDump, Some(expected)), commits + 1;
      }
      alive := files.Tick();
      if alive {
        scriptStaged := false;
      }
    }

    method Ensure(expected: Receipt, psql: Psql)
      modifies this, files
      ensures State() == EnsureDatabase(old(State()), expected, psql)
    {
      if files.status != Running {
        return;
      }
      var exact := db.receipt == Some(expected);
      if files.journal.Some? && Database in files.journal.value {
        if !exact {
          files.status := Refused;
        }
        return;
      }
      if db.receipt.Some? {
        if exact {
          files.MarkPublished(Database);
        } else {
          files.status := Refused;
        }
        return;
      }
      if db != EMPTY_DB {
        files.status := Refused;
        return;
      }
      Execute(expected, psql);
      if files.status != Running {
        return;
      }
      if psql != Committed || db.receipt != Some(expected) {
        files.status := Refused;
        return;
      }
      files.MarkPublished(Database);
    }

    method Apply(expected: Receipt, psql: Psql)
      requires files.status == Running
      modifies this, files
      ensures State() == PgAttempt(files.plan, old(State()).host, expected, old(files.fuel), psql)
    {
      Begin();
      files.EnsureProjects();
      Ensure(expected, psql);
    }
  }

  // ----- the reachable hosts -----

  /** The backup's database and its receipt, or nothing at all. */
  ghost predicate AllOrNothing(db: Db, expected: Receipt) {
    db == EMPTY_DB || db == Db(BackupDump, Some(expected))
  }

  function LastFile(plan: Plan): nat {
    |Order(plan)| - 1
  }

  /** Files are still being published and the database is empty. */
  ghost predicate Filling(plan: Plan, h: PgHost) {
    && h.db == EMPTY_DB && h.commits == 0 && h.files.journal != Some(Order(plan))
    && Database !in h.files.stages
    && exists n: nat, moved :: Position(plan, h.files, n, moved) && n + (if moved then 1 else 0) <= LastFile(plan)
  }

  /** All files are published and the transaction has committed; the journal may not know yet. */
  ghost predicate Filled(plan: Plan, h: PgHost, expected: Receipt, marked: bool) {
    && h.db == Db(BackupDump, Some(expected)) && h.commits == 1
    && h.files == Host(Restored(plan, Order(plan)[..LastFile(plan)]), map[],
                       Some(if marked then Order(plan) else Order(plan)[..LastFile(plan)]))
  }

  ghost predicate PgReachable(plan: Plan, h: PgHost, expected: Receipt) {
    || (h.files == FRESH && h.db == EMPTY_DB && h.commits == 0)
    || (Wiped(plan, h.files) && h.db == EMPTY_DB && h.commits <= 1)
    || Filling(plan, h)
    || Filled(plan, h, expected, false)
    || Filled(plan, h, expected, true)
  }

  /** The database sentinel of this restore is never inside a state directory. */
  ghost predicate PgPlan(plan: Plan) {
    ReadyPlan(plan) && !DatabaseNested(plan)
  }

  lemma OrderSplits(plan: Plan)
    ensures Order(plan)[..LastFile(plan)] == FilesystemOrder(plan.projects)
    ensures Order(plan)[LastFile(plan)] == Database && Order(plan)[..|Order(plan)|] == Order(plan)
    ensures Order(plan)[..LastFile(plan)] + [Database] == Order(plan)
  {
  }

  /** With every file published and no stage left, the filesystem part changes nothing. */
  lemma {:induction false} FilledFilesPass(plan: Plan, r: Run, k: nat)
    requires PgPlan(plan) && r.status == Running && k <= LastFile(plan)
    requires r.host.targets == Restored(plan, Order(plan)[..LastFile(plan)]) && r.host.stages == map[]
    requires r.host.journal.Some? && Order(plan)[..LastFile(plan)] <= r.host.journal.value
    ensures EnsureAll(plan, r, Order(plan)[..k]) == r
    decreases k
  {
    hide Acceptable, Order, Wanted;
    if k > 0 {
      var order := Order(plan);
      assert order[..k][..k - 1] == order[..k - 1] && order[..k][k - 1] == order[k - 1];
      FilledFilesPass(plan, r, k - 1);
      var key := order[k - 1];
      assert order[..LastFile(plan)][k - 1] == key;
      assert r.host.journal.value[k - 1] == key;
      RestoredIsAcceptable(plan, r.host, key);
    }
  }

  /** The filesystem part of an attempt from a host whose files are still being published. */
  lemma FilesFill(plan: Plan, r: Run, h: PgHost)
    requires PgPlan(plan) && Filling(plan, h) && r.host == h.files && r.status == Running
    ensures var r' := EnsureAll(plan, r, FilesystemOrder(plan.projects));
            || (r'.status == Running && Position(plan, r'.host, LastFile(plan), false) && r'.host.stages == map[]
                && r'.fuel + 5 * LastFile(plan) >= r.fuel)
            || (r'.status == Crashed && r.fuel < 5 * LastFile(plan) && Filling(plan, h.(files := r'.host)))
  {
    hide EnsureKey, Order, FilesystemOrder, Position;
    OrderSplits(plan);
    var n: nat, moved :| Position(plan, h.files, n, moved) && n + (if moved then 1 else 0) <= LastFile(plan);
    var last := LastFile(plan);
    KeysStayBelow(plan, r, n, moved, last);
    var r' := EnsureAll(plan, r, Order(plan)[..last]);
    if r'.status == Running {
      LastPositionIsClear(plan, r'.host, false);
    }
  }

  lemma LastPositionIsClear(plan: Plan, h: Host, moved: bool)
    requires Position(plan, h, LastFile(plan), moved) && Database !in h.stages
               && Order(plan)[LastFile(plan)] == Database
    ensures h.stages == map[]
  {
    hide Order;
    assert h.stages.Keys <= {Database};
  }

  /** The filesystem keys never stage or move the database. */
  lemma {:induction false} KeysStayBelow(plan: Plan, r: Run, n: nat, moved: bool, k: nat)
    requires PgPlan(plan) && r.status == Running && Position(plan, r.host, n, moved) && k <= LastFile(plan)
    requires n + (if moved then 1 else 0) <= LastFile(plan) && Database !in r.host.stages
    ensures var r' := EnsureAll(plan, r, Order(plan)[..k]);
            && Database !in r'.host.stages && r'.host.journal != Some(Order(plan))
            && (r'.status == Running ==>
                  && (if k <= n then r' == r else Position(plan, r'.host, k, false)) && r'.fuel + 5 * k >= r.fuel)
            && (r'.status != Running ==>
                  && r'.status == Crashed && r.fuel < 5 * k
                  && exists n': nat, moved' :: Position(plan, r'.host, n', moved')
                      && n' + (if moved' then 1 else 0) <= LastFile(plan))
    decreases k
  {
    hide EnsureKey, Order;
    JournalIsShorter(plan, r.host, n, moved);
    if k > 0 {
      var order := Order(plan);
      assert order[..k][..k - 1] == order[..k - 1] && order[..k][k - 1] == order[k - 1];
      KeysStayBelow(plan, r, n, moved, k - 1);
      var before := EnsureAll(plan, r, order[..k - 1]);
      if before.status != Running {
        CrashedStays(plan, before, order[k - 1]);
      } else if k <= n {
        RecordedKeyPasses(plan, r, n, moved, k - 1);
      } else {
        NextFileStaysBelow(plan, before, k - 1, moved && k - 1 == n);
      }
    }
  }

  lemma JournalIsShorter(plan: Plan, h: Host, n: nat, moved: bool)
    requires Position(plan, h, n, moved) && n <= LastFile(plan)
    ensures h.journal != Some(Order(plan))
  {
    hide Order;
    assert |Order(plan)[..n]| == n;
  }

  lemma NextFileStaysBelow(plan: Plan, r: Run, n: nat, moved: bool)
    requires PgPlan(plan) && r.status == Running && Position(plan, r.host, n, moved) && n < LastFile(plan)
    requires Database !in r.host.stages
    ensures var r' := EnsureKey(plan, r, Order(plan)[n]);
            && Database !in r'.host.stages && r'.host.journal != Some(Order(plan))
            && (r'.status == Running ==> Position(plan, r'.host, n + 1, false) && r'.fuel + 5 >= r.fuel)
            && (r'.status != Running ==>
                  && r'.status == Crashed && r.fuel < 5
                  && exists n': nat, moved' :: Position(plan, r'.host, n', moved')
                      && n' + (if moved' then 1 else 0) <= LastFile(plan))
  {
    hide EnsureKey, Order;
    NextKeyAdvances(plan, r, n, moved);
    OrderSplits(plan);
    var r' := EnsureKey(plan, r, Order(plan)[n]);
    OrderFacts(plan);
    assert Order(plan)[n] != Database;
    if r'.status == Running {
      JournalIsShorter(plan, r'.host, n + 1, false);
    } else {
      var moved' :| Position(plan, r'.host, n, moved');
      JournalIsShorter(plan, r'.host, n, moved');
    }
  }

  // ----- one attempt -----

  function PgEnough(plan: Plan): nat {
    6 + 5 * |Order(plan)|
  }

  lemma PgOpenReachable(plan: Plan, h: PgHost, expected: Receipt, fuel: nat)
    requires PgPlan(plan) && PgReachable(plan, h, expected)
    ensures var r := PgOpen(plan, h, fuel);
            || (r.status == Crashed && fuel == 0 && r.host == h)
            || (r.status == Running && r.fuel + 1 >= fuel && Filling(plan, r.host))
            || (r == PgRun(h, fuel, Running) && (Filled(plan, h, expected, false) || Filled(plan, h, expected, true)))
  {
    hide Order, ExpectedKeys;
    OrderFacts(plan);
    assert Order(plan)[..0] == [] && Restored(plan, []) == map[];
    assert Position(plan, Host(map[], map[], Some([])), 0, false);
    if Filled(plan, h, expected, false) || Filled(plan, h, expected, true) {
      OrderSplits(plan);
      assert forall k :: k in h.files.journal.value ==> k in Order(plan);
    } else if Filling(plan, h) {
      var n: nat, moved :| Position(plan, h.files, n, moved) && n + (if moved then 1 else 0) <= LastFile(plan);
      OrderSplits(plan);
      BelowIsNotComplete(plan, h.files, n, moved);
    }
  }

  lemma BelowIsNotComplete(plan: Plan, h: Host, n: nat, moved: bool)
    requires ReadyPlan(plan) && Position(plan, h, n, moved) && n <= LastFile(plan)
    ensures !Complete(plan, h.journal.value) && (set k | k in h.journal.value) <= ExpectedKeys(plan.projects)
  {
    hide Order, ExpectedKeys;
    OrderFacts(plan);
    DatabaseIsExpected(plan);
    var order := Order(plan);
    assert Database !in order[..n];
    assert forall k :: k in order[..n] ==> k in order;
  }

  /** The database part, once every file is published and recorded. */
  lemma DatabaseFills(plan: Plan, r: PgRun, expected: Receipt, psql: Psql)
    requires PgPlan(plan) && r.status == Running && r.host.db == EMPTY_DB && r.host.commits == 0
    requires Position(plan, r.host.files, LastFile(plan), false) && r.host.files.stages == map[]
    ensures PgReachable(plan, EnsureDatabase(r, expected, psql).host, expected)
    ensures psql == Committed && r.fuel >= 5 ==>
              EnsureDatabase(r, expected, psql).status == Running
                  && Filled(plan, EnsureDatabase(r, expected, psql).host, expected, true)
  {
    hide Order, Wanted, RunScript, PgMark, Filling, Filled, Position;
    NotYetRecorded(plan, r.host.files);
    ScriptOutcome(r, expected, psql);
    var ran := RunScript(r, expected, psql);
    if ran.host.db == EMPTY_DB {
      StillFilling(plan, ran.host);
    } else {
      MarkFills(plan, ran, expected);
    }
  }

  lemma NotYetRecorded(plan: Plan, h: Host)
    requires ReadyPlan(plan) && Position(plan, h, LastFile(plan), false)
    ensures !Published(h, Database)
  {
    hide Order;
    OrderFacts(plan);
    OrderSplits(plan);
    assert Database !in Order(plan)[..LastFile(plan)];
  }

  lemma StillFilling(plan: Plan, h: PgHost)
    requires PgPlan(plan) && h.db == EMPTY_DB && h.commits == 0
    requires Position(plan, h.files, LastFile(plan), false) && h.files.stages == map[]
    ensures Filling(plan, h)
  {
    hide Order;
    JournalIsShorter(plan, h.files, LastFile(plan), false);
    var none := false;
    assert Position(plan, h.files, LastFile(plan), none) && LastFile(plan) + (if none then 1 else 0) <= LastFile(plan);
  }

  lemma MarkFills(plan: Plan, r: PgRun, expected: Receipt)
    requires PgPlan(plan) && r.host.db == Db(BackupDump, Some(expected)) && r.host.commits == 1
    requires Position(plan, r.host.files, LastFile(plan), false) && r.host.files.stages == map[]
    ensures Filled(plan, r.host, expected, false)
    ensures r.status == Running && r.fuel > 0 ==>
              PgMark(r, Database).status == Running && Filled(plan, PgMark(r, Database).host, expected, true)
    ensures r.status == Running && r.fuel == 0 ==> PgMark(r, Database).host == r.host
  {
    NotYetRecorded(plan, r.host.files);
    OrderSplits(plan);
    hide *;
    MarkRecords(plan, r, expected);
  }

  lemma MarkRecords(plan: Plan, r: PgRun, expected: Receipt)
    requires r.host.db == Db(BackupDump, Some(expected)) && r.host.commits == 1
    requires Position(plan, r.host.files, LastFile(plan), false) && r.host.files.stages == map[]
    requires !Published(r.host.files, Database) && Order(plan)[..LastFile(plan)] + [Database] == Order(plan)
    ensures Filled(plan, r.host, expected, false)
    ensures r.status == Running && r.fuel > 0 ==>
              PgMark(r, Database).status == Running && Filled(plan, PgMark(r, Database).host, expected, true)
    ensures r.status == Running && r.fuel == 0 ==> PgMark(r, Database).host == r.host
  {
    hide Order, Wanted, Restored;
  }

  /** What the script run leaves: everything as before but the stage, or the committed database. */
  lemma ScriptOutcome(r: PgRun, expected: Receipt, psql: Psql)
    requires r.status == Running && r.host.db == EMPTY_DB && r.host.commits == 0
    ensures var ran := RunScript(r, expected, psql);
            && ran.host.files == r.host.files && (ran.status == Running || ran.status == Crashed)
            && (ran.host.db == EMPTY_DB || ran.host.db == Db(BackupDump, Some(expected)))
            && ran.host.commits == (if ran.host.db == EMPTY_DB then 0 else 1)
            && (ran.status == Running && psql == Committed ==> ran.host.db == Db(BackupDump, Some(expected)))
            && (r.fuel >= 4 ==> ran.status == Running && ran.fuel >= r.fuel - 4)
  {
  }

  /** Once the transaction has committed, an attempt can only record it. */
  lemma FilledAttempt(plan: Plan, h: PgHost, expected: Receipt, fuel: nat, psql: Psql, marked: bool)
    requires PgPlan(plan) && Filled(plan, h, expected, marked)
    ensures var r := PgAttempt(plan, h, expected, fuel, psql);
            var recorded := h.(files := h.files.(journal := Some(Order(plan))));
            && (marked || fuel > 0 ==> r.status == Running && r.host == recorded)
            && (!marked && fuel == 0 ==> r.status == Crashed && r.host == h)
  {
    hide Order, FilesystemOrder, Wanted, ExpectedKeys, EnsureAll, PgOpen, Filled, Filling;
    OrderSplits(plan);
    FilledOpens(plan, h, expected, fuel, marked);
    FilledPasses(plan, h, expected, fuel, marked);
    FilledDatabase(plan, h, expected, fuel, psql, marked);
  }

  lemma FilledOpens(plan: Plan, h: PgHost, expected: Receipt, fuel: nat, marked: bool)
    requires PgPlan(plan) && Filled(plan, h, expected, marked)
    ensures PgOpen(plan, h, fuel) == PgRun(h, fuel, Running)
  {
    hide Order, ExpectedKeys;
    OrderFacts(plan);
    assert forall k :: k in h.files.journal.value ==> k in Order(plan);
  }

  lemma FilledPasses(plan: Plan, h: PgHost, expected: Receipt, fuel: nat, marked: bool)
    requires PgPlan(plan) && Filled(plan, h, expected, marked)
    ensures EnsureAll(plan, Run(h.files, fuel, Running), Order(plan)[..LastFile(plan)]) == Run(h.files, fuel, Running)
  {
    hide Order, EnsureAll;
    FilledFilesPass(plan, Run(h.files, fuel, Running), LastFile(plan));
  }

  lemma FilledDatabase(plan: Plan, h: PgHost, expected: Receipt, fuel: nat, psql: Psql, marked: bool)
    requires PgPlan(plan) && Filled(plan, h, expected, marked)
    ensures var r := EnsureDatabase(PgRun(h, fuel, Running), expected, psql);
            var recorded := h.(files := h.files.(journal := Some(Order(plan))));
            && (marked || fuel > 0 ==> r.status == Running && r.host == recorded)
            && (!marked && fuel == 0 ==> r.status == Crashed && r.host == h)
  {
    hide Order, Wanted;
    OrderFacts(plan);
    OrderSplits(plan);
    assert Database !in Order(plan)[..LastFile(plan)];
  }

  lemma FillingAttempt(plan: Plan, h: PgHost, begun: PgRun, expected: Receipt, fuel: nat, psql: Psql)
    requires PgPlan(plan) && begun == PgOpen(plan, h, fuel) && begun.status == Running && Filling(plan, begun.host)
    ensures var r := PgAttempt(plan, h, expected, fuel, psql);
            && PgReachable(plan, r.host, expected)
            && (psql == Committed && begun.fuel >= 5 + 5 * LastFile(plan) ==>
                r.status == Running && Filled(plan, r.host, expected, true))
  {
    hide Order, FilesystemOrder, EnsureAll, EnsureDatabase, Position, Filling, PgOpen;
    assert begun.host.db == EMPTY_DB && begun.host.commits == 0 by {
      FillingIsEmpty(plan, begun.host);
    }
    var files := Run(begun.host.files, begun.fuel, begun.status);
    FilesFill(plan, files, begun.host);
    var r := EnsureAll(plan, files, FilesystemOrder(plan.projects));
    if r.status == Running {
      DatabaseFills(plan, Lift(r, begun.host), expected, psql);
    } else {
      StoppedDatabase(Lift(r, begun.host), expected, psql);
    }
  }

  lemma FillingIsEmpty(plan: Plan, h: PgHost)
    requires Filling(plan, h)
    ensures h.db == EMPTY_DB && h.commits == 0
  {
  }

  lemma StoppedDatabase(r: PgRun, expected: Receipt, psql: Psql)
    requires r.status != Running
    ensures EnsureDatabase(r, expected, psql) == r
  {
  }

  lemma AttemptReachable(plan: Plan, h: PgHost, expected: Receipt, fuel: nat, psql: Psql)
    requires PgPlan(plan) && PgReachable(plan, h, expected)
    ensures PgReachable(plan, PgAttempt(plan, h, expected, fuel, psql).host, expected)
    ensures fuel >= PgEnough(plan) && psql == Committed ==>
              PgAttempt(plan, h, expected, fuel, psql).status == Running
              && Filled(plan, PgAttempt(plan, h, expected, fuel, psql).host, expected, true)
  {
    hide Order, Wanted, EnsureAll, EnsureDatabase, Filling, FilesystemOrder;
    PgOpenReachable(plan, h, expected, fuel);
    var begun := PgOpen(plan, h, fuel);
    if Filled(plan, h, expected, true) {
      FilledAttempt(plan, h, expected, fuel, psql, true);
    } else if Filled(plan, h, expected, false) {
      FilledAttempt(plan, h, expected, fuel, psql, false);
      OrderSplits(plan);
    } else if begun.status == Running {
      FillingAttempt(plan, h, begun, expected, fuel, psql);
    } else {
      StoppedStays(plan, Run(begun.host.files, begun.fuel, begun.status), FilesystemOrder(plan.projects));
      StoppedDatabase(begun, expected, psql);
    }
  }

  // ----- whole runs -----

  datatype PgEvent = TryPgRestore(fuel: nat, psql: Psql) | LoseEverything

  function PgApply(plan: Plan, h: PgHost, expected: Receipt, e: PgEvent): PgHost {
    match e
    case TryPgRestore(fuel, psql) => PgAttempt(plan, h, expected, fuel, psql).host
    case LoseEverything =>
      if h.files.journal.Some? && Complete(plan, h.files.journal.value)
      then h.(files := h.files.(targets := map[]), db := EMPTY_DB) else h
  }

  const PG_FRESH := PgHost(FRESH, EMPTY_DB, false, 0)

  function PgAfter(plan: Plan, expected: Receipt, events: seq<PgEvent>): PgHost {
    if events == [] then PG_FRESH
    else PgApply(plan, PgAfter(plan, expected, events[..|events| - 1]), expected, events[|events| - 1])
  }

  lemma LossReachable(plan: Plan, h: PgHost, expected: Receipt)
    requires PgPlan(plan) && PgReachable(plan, h, expected)
    ensures PgReachable(plan, PgApply(plan, h, expected, LoseEverything), expected)
  {
    hide Order, Wanted, ExpectedKeys;
    OrderFacts(plan);
    OrderSplits(plan);
    if Filling(plan, h) {
      var n: nat, moved :| Position(plan, h.files, n, moved) && n + (if moved then 1 else 0) <= LastFile(plan);
      BelowIsNotComplete(plan, h.files, n, moved);
    } else if Filled(plan, h, expected, false) {
      BelowIsNotComplete(plan, h.files, LastFile(plan), false);
    }
  }

  lemma {:induction false} PgRunsStayReachable(plan: Plan, expected: Receipt, events: seq<PgEvent>)
    requires PgPlan(plan)
    ensures PgReachable(plan, PgAfter(plan, expected, events), expected)
  {
    hide PgAttempt, Filling, Filled;
    if events != [] {
      var before := PgAfter(plan, expected, events[..|events| - 1]);
      PgRunsStayReachable(plan, expected, events[..|events| - 1]);
      match events[|events| - 1]
      case TryPgRestore(fuel, psql) => AttemptReachable(plan, before, expected, fuel, psql);
      case LoseEverything => LossReachable(plan, before, expected);
    }
  }

  /** After every run: the database is empty without a receipt or restored with exactly the expected
      one, the script has committed at most once since the journal was begun, a recorded database is
      restored unless everything was lost, and a restored database means that every file is. */
  lemma PgRunsAreSafe(plan: Plan, expected: Receipt, events: seq<PgEvent>)
    requires PgPlan(plan)
    ensures var h := PgAfter(plan, expected, events);
            && AllOrNothing(h.db, expected)
            && h.commits <= 1
            && (Published(h.files, Database) ==>
                  h.db.receipt == Some(expected) || (h.db == EMPTY_DB && Wiped(plan, h.files)))
            && (h.db != EMPTY_DB ==> h.files.targets == Restored(plan, FilesystemOrder(plan.projects)))
            && (forall k :: k in h.files.targets ==> h.files.targets[k] == Wanted(plan, k))
  {
    hide PgApply, Wanted, Order, FilesystemOrder;
    PgRunsStayReachable(plan, expected, events);
    OrderFacts(plan);
    OrderSplits(plan);
    var h := PgAfter(plan, expected, events);
    if Filling(plan, h) {
      var n: nat, moved :| Position(plan, h.files, n, moved) && n + (if moved then 1 else 0) <= LastFile(plan);
      assert Database !in Order(plan)[..n];
    }
  }

  /** A crash after the commit and before its record is completed by recording alone: the database,
      its receipt, the files and the number of commits stay as they are. */
  lemma CommitIsOnlyRecorded(plan: Plan, expected: Receipt, events: seq<PgEvent>, fuel: nat, psql: Psql)
    requires PgPlan(plan) && fuel > 0 && PgAfter(plan, expected, events).db != EMPTY_DB
    ensures var h := PgAfter(plan, expected, events);
            var r := PgAttempt(plan, h, expected, fuel, psql);
            r.status == Running && r.host == h.(files := h.files.(journal := Some(Order(plan))))
  {
    hide PgAttempt, PgApply, Order, Wanted;
    PgRunsStayReachable(plan, expected, events);
    var h := PgAfter(plan, expected, events);
    if Filled(plan, h, expected, true) {
      FilledAttempt(plan, h, expected, fuel, psql, true);
    } else {
      FilledAttempt(plan, h, expected, fuel, psql, false);
    }
  }

  /** From any point of any run, an uninterrupted attempt whose transaction commits completes. */
  lemma PgResumeCompletes(plan: Plan, expected: Receipt, events: seq<PgEvent>, fuel: nat)
    requires PgPlan(plan) && fuel >= PgEnough(plan)
    ensures var r := PgAttempt(plan, PgAfter(plan, expected, events), expected, fuel, Committed);
            r.status == Running && Filled(plan, r.host, expected, true)
  {
    hide PgAttempt, PgApply, PgReachable, Filled;
    PgRunsStayReachable(plan, expected, events);
    AttemptReachable(plan, PgAfter(plan, expected, events), expected, fuel, Committed);
  }

  /** After a disaster that loses the files and the database of a completed restore, the next attempt runs the script
      again, once, and restores everything. */
  lemma PgDisasterIsSurvived(plan: Plan, expected: Receipt, events: seq<PgEvent>, fuel: nat)
    requires PgPlan(plan) && fuel >= PgEnough(plan)
    ensures var restored := events + [TryPgRestore(fuel, Committed)];
            var lost := PgAfter(plan, expected, restored + [LoseEverything]);
            var again := PgAfter(plan, expected, restored + [LoseEverything] + [TryPgRestore(fuel, Committed)]);
            && Filled(plan, PgAfter(plan, expected, restored), expected, true)
            && lost.files.targets == map[] && lost.db == EMPTY_DB
            && Filled(plan, again, expected, true)
  {
    hide PgAttempt, Order, ExpectedKeys;
    var restored := events + [TryPgRestore(fuel, Committed)];
    OneMorePgEvent(plan, expected, events, TryPgRestore(fuel, Committed));
    OneMorePgEvent(plan, expected, restored, LoseEverything);
    OneMorePgEvent(plan, expected, restored + [LoseEverything], TryPgRestore(fuel, Committed));
    PgResumeCompletes(plan, expected, events, fuel);
    PgResumeCompletes(plan, expected, restored + [LoseEverything], fuel);
    OrderFacts(plan);
  }

  lemma OneMorePgEvent(plan: Plan, expected: Receipt, events: seq<PgEvent>, e: PgEvent)
    ensures PgAfter(plan, expected, events + [e]) == PgApply(plan, PgAfter(plan, expected, events), expected, e)
  {
    hide PgApply;
    assert (events + [e])[..|events|] == events;
  }
}
