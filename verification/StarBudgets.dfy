/**
 What the three budgets do: bounds on the work of every search, independence of the answer from the
 budgets, and the exact condition under which a surface comes out `complete`.
 */
module StarBudgets {
  import opened Wrappers
  import opened NodePaths
  import opened StarReexports
  import opened StarTables
  import opened StarMeaning
  import opened EcmaExports

  // ----- work -----

  function Min(a: nat, b: nat): nat {
    if a <= b then a else b
  }

  /** One call of `resolve`: further calls are paid by counted edges, modules stay within their
      budget, and each activation above this depth overruns the edge budget at most once. */
  lemma {:induction false} ResolveWork(c: Setting, t: Tables, p: Path, depth: nat)
    requires depth <= c.maxDepth + 1 && t.edges <= c.maxEdges && |t.seen| <= c.maxModules
    ensures var (t', _) := Resolve(c, t, p, depth);
            && t.edges <= t'.edges <= c.maxEdges + (c.maxDepth + 1 - depth)
            && t'.calls - t.calls <= 1 + Min(t'.edges, c.maxEdges) - t.edges
            && |t'.seen| <= c.maxModules
    decreases c.maxDepth + 1 - depth, 1, 0
  {
    hide ParseAt, Target;
    if !Refused(c, t, p, depth) && p !in t.memo {
      if p in t.seen {
        assert t.seen + {p} == t.seen;
      }
      match ParseAt(c, p)
      case None =>
      case Some(parsed) =>
        if parsed.localComplete && parsed.wildcards != [] {
          var admitted := Admit(t.(calls := t.calls + 1), p);
          WalkWork(c, admitted.(active := admitted.active + {p}), p, parsed, depth, 0, Start(p, parsed));
        }
    }
  }

  lemma {:induction false} WalkWork(c: Setting, t: Tables, p: Path, parsed: Parsed, depth: nat, i: nat, f: Frame)
    requires depth <= c.maxDepth && i <= |parsed.wildcards|
    requires t.edges <= c.maxEdges + (c.maxDepth - depth) && |t.seen| <= c.maxModules
    ensures var (t', _) := Walk(c, t, p, parsed, depth, i, f);
            && t.edges <= t'.edges <= c.maxEdges + (c.maxDepth + 1 - depth)
            && t'.calls - t.calls <= Min(t'.edges, c.maxEdges) - Min(t.edges, c.maxEdges)
            && |t'.seen| <= c.maxModules
    decreases c.maxDepth + 1 - depth, 0, |parsed.wildcards| - i
  {
    hide Follow;
    var counted := t.(edges := t.edges + 1);
    if i < |parsed.wildcards| && counted.edges <= c.maxEdges {
      FollowWork(c, counted, p, parsed, depth, i, f);
      var (t', f') := Follow(c, counted, p, parsed, depth, i, f);
      WalkWork(c, t', p, parsed, depth, i + 1, f');
    }
  }

  lemma {:induction false} FollowWork(c: Setting, t: Tables, p: Path, parsed: Parsed, depth: nat, i: nat, f: Frame)
    requires depth <= c.maxDepth && i < |parsed.wildcards|
    requires t.edges <= c.maxEdges && |t.seen| <= c.maxModules
    ensures var (t', _) := Follow(c, t, p, parsed, depth, i, f);
            && t.edges <= t'.edges <= c.maxEdges + (c.maxDepth - depth)
            && t'.calls - t.calls <= 1 + Min(t'.edges, c.maxEdges) - t.edges
            && |t'.seen| <= c.maxModules
    decreases c.maxDepth + 1 - depth, 0, |parsed.wildcards| - i - 1, 0
  {
    hide Target, TargetProbes, Account, Resolve;
    var looked := t.(probes := t.probes + TargetProbes(c, p, parsed.wildcards[i]));
    match Target(c, p, parsed.wildcards[i])
    case None =>
    case Some(target) =>
      ResolveWork(c, looked, target, depth + 1);
  }

  // ----- one answer for all budgets -----

  /** The same files, parser and package; only the budgets may differ. */
  ghost predicate SameGraph(c: Setting, c': Setting) {
    c.reader == c'.reader && c.parse == c'.parse && c.root == c'.root
  }

  lemma TableForAllBudgets(c: Setting, c': Setting, m: Table)
    requires SameGraph(c, c') && IsTable(c, m)
    ensures IsTable(c', m)
  {
    hide Candidates, Pick, IsNodeSource;
    forall p | p in m ensures Entry(c', m, p) {
      var parsed := ParseAt(c, p).value;
      assert Entry(c, m, p) && ParseAt(c', p) == Some(parsed);
      EntryForAllBudgets(c, c', m, p, parsed, |parsed.wildcards|);
    }
  }

  lemma EntryForAllBudgets(c: Setting, c': Setting, m: Table, p: Path, parsed: Parsed, k: nat)
    requires SameGraph(c, c') && k <= |parsed.wildcards|
    ensures Linked(c, m, p, parsed, k) ==> Linked(c', m, p, parsed, k)
    ensures forall symbols, minArgs, sources ::
              Assembled(c, m, p, parsed, k, symbols, minArgs, sources) ==>
                  Assembled(c', m, p, parsed, k, symbols, minArgs, sources)
  {
    hide Candidates, Pick;
    assert forall i :: 0 <= i < k ==> TargetAt(c, p, parsed, i) == TargetAt(c', p, parsed, i);
    forall n, t ensures Supplies(c, m, p, parsed, k, n, t) <==> Supplies(c', m, p, parsed, k, n, t) {
    }
    forall n ensures Supplied(c, m, p, parsed, k, n) <==> Supplied(c', m, p, parsed, k, n) {
    }
    forall q ensures Feeds(c, m, p, parsed, k, q) <==> Feeds(c', m, p, parsed, k, q) {
    }
  }

  /** Two tables over the same files agree wherever both have an entry. */
  lemma {:induction false} TablesAgree(c: Setting, m: Table, m': Table, p: Path)
    requires IsTable(c, m) && IsTable(c, m') && p in m && p in m'
    ensures m[p] == m'[p]
    decreases m[p].sourcePaths
  {
    hide Target, ParseAt, Entry, StarEdge, LocalNames, LocalShapes;
    forall t | StarEdge(c, p, t) ensures t in m && t in m' && m[t] == m'[t] {
      EdgeShrinks(c, m, p, t);
      EdgeShrinks(c, m', p, t);
      TablesAgree(c, m, m', t);
    }
    SymbolsOfEntry(c, m, p);
    SymbolsOfEntry(c, m', p);
    forall n ensures n in m[p].symbols <==> n in m'[p].symbols {
      forall t | StarEdge(c, p, t) ensures GivesName(c, m, p, t, n) <==> GivesName(c, m', p, t, n) {
      }
    }
    assert m[p].symbols == m'[p].symbols;
    SourcesAgree(c, m, m', p);
    ShapesOfEntry(c, m, p);
    ShapesOfEntry(c, m', p);
    forall n | n in m[p].symbols ensures SameShape(m[p].minArgs, m'[p].minArgs, n) {
      if n !in LocalNames(c, p) {
        var t :| StarEdge(c, p, t) && GivesName(c, m, p, t, n);
        assert GivesName(c, m', p, t, n);
      }
    }
    assert m[p].minArgs == m'[p].minArgs;
  }

  lemma SourcesAgree(c: Setting, m: Table, m': Table, p: Path)
    requires IsTable(c, m) && IsTable(c, m') && p in m && p in m'
    ensures m[p].sourcePaths == m'[p].sourcePaths
  {
    hide Target, ParseAt, Entry, StarEdge;
    SourcesAreReachable(c, m, p);
    SourcesAreReachable(c, m', p);
  }

  lemma ShapesOfEntry(c: Setting, m: Table, p: Path)
    requires IsTable(c, m) && p in m
    ensures m[p].minArgs.Keys <= m[p].symbols
    ensures m[p].complete && m[p].localComplete && m[p].wildcards == Stars(c, p)
  {
    hide Target, Supplies, Supplied, Feeds, Linked, IsNodeSource;
    assert Entry(c, m, p);
  }

  // ----- star edges of a set of files -----

  ghost function StarCount(c: Setting, files: set<Path>): nat {
    if files == {} then 0
    else
      var q :| q in files;
      |Stars(c, q)| + StarCount(c, files - {q})
  }

  lemma {:induction false} StarCountOne(c: Setting, files: set<Path>, p: Path)
    requires p in files
    ensures StarCount(c, files) == |Stars(c, p)| + StarCount(c, files - {p})
  {
    hide Stars;
    var q :| q in files && StarCount(c, files) == |Stars(c, q)| + StarCount(c, files - {q});
    if q != p {
      StarCountOne(c, files - {q}, p);
      StarCountOne(c, files - {p}, q);
      assert files - {q} - {p} == files - {p} - {q};
    }
  }

  lemma {:induction false} StarCountSum(c: Setting, a: set<Path>, b: set<Path>)
    requires a !! b
    ensures StarCount(c, a + b) == StarCount(c, a) + StarCount(c, b)
  {
    hide Stars;
    if a == {} {
      assert a + b == b;
    } else {
      var p :| p in a;
      StarCountOne(c, a, p);
      StarCountOne(c, a + b, p);
      assert a + b - {p} == (a - {p}) + b;
      StarCountSum(c, a - {p}, b);
    }
  }

  lemma StarCountGrows(c: Setting, a: set<Path>, b: set<Path>)
    requires a <= b
    ensures StarCount(c, a) <= StarCount(c, b)
  {
    StarCountSum(c, a, b - a);
    assert a + (b - a) == b;
  }

  // ----- the deepest call -----

  /** A depth-first walk over the star graph without budgets: the largest depth at which a module is
      asked for, and the modules done so far. A module is asked for on every edge that leads to it
      but walked only once. */
  ghost function Deepest(c: Setting, m: Table, p: Path, depth: nat, done: set<Path>): (nat, set<Path>)
    requires IsTable(c, m) && p in m
    decreases m[p].sourcePaths, 1 + |Stars(c, p)|
  {
    if p in done then (depth, done)
    else
      var (deepest, done') := DeepestBehind(c, m, p, depth, 0, done);
      (if deepest > depth then deepest else depth, done' + {p})
  }

  ghost function DeepestBehind(c: Setting, m: Table, p: Path, depth: nat, i: nat, done: set<Path>): (nat, set<Path>)
    requires IsTable(c, m) && p in m && i <= |Stars(c, p)|
    decreases m[p].sourcePaths, |Stars(c, p)| - i
  {
    if i == |Stars(c, p)| then (0, done)
    else
      var (deepest, done') := Deepest(c, m, TargetOfEntry(c, m, p, i), depth + 1, done);
      var (more, done'') := DeepestBehind(c, m, p, depth, i + 1, done');
      (if deepest > more then deepest else more, done'')
  }

  /** `m` knows everything the search knows, and the search has admitted just what it finished or is
      still walking. */
  ghost predicate Ahead(c: Setting, m: Table, t: Tables) {
    && IsTable(c, m) && Grown(t.memo, m) && Sane(c, t)
    && t.seen == t.memo.Keys + t.active
  }

  /** A search for a tabled module that meets none of its ancestors and fits the budgets answers the
      table's entry, and spends exactly the modules and edges behind it. */
  ghost predicate Fits(c: Setting, m: Table, t: Tables, p: Path, depth: nat)
    requires IsTable(c, m) && p in m
  {
    && m[p].sourcePaths !! t.active
    && |t.seen + m[p].sourcePaths| <= c.maxModules
    && t.edges + StarCount(c, m[p].sourcePaths - t.memo.Keys) <= c.maxEdges
    && Deepest(c, m, p, depth, t.memo.Keys).0 <= c.maxDepth
  }

  ghost predicate Spent(c: Setting, m: Table, t: Tables, t': Tables, files: set<Path>) {
    && Ahead(c, m, t') && t'.active == t.active
    && t'.memo.Keys == t.memo.Keys + files
    && t'.edges == t.edges + StarCount(c, files - t.memo.Keys)
  }

  lemma {:induction false} FittingSearchSucceeds(c: Setting, m: Table, t: Tables, p: Path, depth: nat)
    requires IsTable(c, m) && Ahead(c, m, t) && p in m && depth <= c.maxDepth + 1 && Fits(c, m, t, p, depth)
    ensures var (t', r) := Resolve(c, t, p, depth);
            && r == Some(m[p]) && Spent(c, m, t, t', m[p].sourcePaths)
            && Deepest(c, m, p, depth, t.memo.Keys).1 == t'.memo.Keys
    decreases c.maxDepth + 1 - depth, 1, 0
  {
    hide ParseAt, Target, Entry, StarCount, FrameOk, Deepest, DeepestBehind, Walk, IsTable, FitsBehind, Resolve,
         Refused, Grown, Spent, Behind, Sane, Ahead, Fits, Remember, Stars;
    DeepestUnfolds(c, m, p, depth, t.memo.Keys);
    FittingIsNew(c, m, t, p, depth);
    if p in t.memo {
      KnownFits(c, m, t, p);
      ResolveKnown(c, t, p, depth);
    } else {
      EnteringFits(c, m, t, p, depth);
      var parsed := ParsedEntry(c, m, p);
      var inside := Admit(t.(calls := t.calls + 1), p).(active := t.active + {p});
      StartIsAssembled(c, inside.memo, p, parsed);
      FittingWalkSucceeds(c, m, inside, p, parsed, depth, 0, Start(p, parsed));
      var (after, f) := Walk(c, inside, p, parsed, depth, 0, Start(p, parsed));
      ResolveUnfolds(c, t, p, depth, parsed);
      AheadSearchIsSane(c, m, t, p, depth);
      LeavingFits(c, m, t, inside, after, p, Finish(parsed, f), depth);
    }
  }

  lemma FittingIsNew(c: Setting, m: Table, t: Tables, p: Path, depth: nat)
    requires IsTable(c, m) && Ahead(c, m, t) && p in m && Fits(c, m, t, p, depth)
    ensures p !in t.active && t.seen == t.memo.Keys + t.active && depth <= c.maxDepth
  {
    hide ParseAt, Target, Entry, IsTable, StarCount, DeepestBehind, Stars, Sane, Grown;
    EntryIsSource(c, m, p);
  }

  lemma AheadSearchIsSane(c: Setting, m: Table, t: Tables, p: Path, depth: nat)
    requires Ahead(c, m, t) && depth <= c.maxDepth + 1
    ensures Sane(c, Resolve(c, t, p, depth).0)
  {
    hide Resolve, IsTable;
    ResolveKeepsTable(c, t, p, depth);
  }

  lemma ResolveKnown(c: Setting, t: Tables, p: Path, depth: nat)
    requires p in t.memo && depth <= c.maxDepth
    ensures Resolve(c, t, p, depth) == (t.(calls := t.calls + 1), Some(t.memo[p]))
  {
  }

  /** For a module that parses completely, the leaf case of `resolve` is a loop over nothing. */
  lemma ResolveUnfolds(c: Setting, t: Tables, p: Path, depth: nat, parsed: Parsed)
    requires depth <= c.maxDepth && !Refused(c, t, p, depth) && p !in t.memo && p !in t.active
    requires ParseAt(c, p) == Some(parsed) && parsed.localComplete
    ensures var inside := Admit(t.(calls := t.calls + 1), p).(active := t.active + {p});
            var (after, f) := Walk(c, inside, p, parsed, depth, 0, Start(p, parsed));
            Resolve(c, t, p, depth)
            == (Remember(after.(active := after.active - {p}), p, Finish(parsed, f)), Some(Finish(parsed, f)))
  {
    hide ParseAt, Follow;
    assert t.active + {p} - {p} == t.active;
  }

  lemma KnownFits(c: Setting, m: Table, t: Tables, p: Path)
    requires Ahead(c, m, t) && p in t.memo && p in m
    ensures t.memo[p] == m[p] && Spent(c, m, t, t.(calls := t.calls + 1), m[p].sourcePaths)
  {
    hide ParseAt, Target, Entry, IsTable, Stars;
    MemoHoldsSources(c, m, t, p);
    assert m[p].sourcePaths - t.memo.Keys == {} && t.memo.Keys + m[p].sourcePaths == t.memo.Keys;
  }

  /** Admitting a fitting module succeeds and leaves enough for its specifiers. */
  lemma EnteringFits(c: Setting, m: Table, t: Tables, p: Path, depth: nat)
    requires IsTable(c, m) && Ahead(c, m, t) && p in m && depth <= c.maxDepth + 1
    requires Fits(c, m, t, p, depth) && p !in t.memo && t.seen == t.memo.Keys + t.active
    ensures !Refused(c, t, p, depth)
    ensures var inside := Admit(t.(calls := t.calls + 1), p).(active := t.active + {p});
            Ahead(c, m, inside) && FitsBehind(c, m, inside, p, depth, 0)
            && inside.active == t.active + {p} && inside.memo == t.memo && inside.edges == t.edges
  {
    hide ParseAt, Target, Entry, StarCount, IsTable, Deepest, DeepestBehind, Stars, Behind, Grown, Ahead;
    EntryIsSource(c, m, p);
    DeepestUnfolds(c, m, p, depth, t.memo.Keys);
    BudgetBehind(c, m, t, p);
    CardinalityGrows(t.seen + {p}, t.seen + m[p].sourcePaths);
    EnteringStaysAhead(c, m, t, p);
  }

  lemma EnteringStaysAhead(c: Setting, m: Table, t: Tables, p: Path)
    requires Ahead(c, m, t) && p !in t.memo
    ensures Ahead(c, m, Admit(t.(calls := t.calls + 1), p).(active := t.active + {p}))
  {
    hide ParseAt, Target, Entry, IsTable, Grown;
    var inside := Admit(t.(calls := t.calls + 1), p).(active := t.active + {p});
    assert inside.seen == inside.memo.Keys + inside.active;
  }

  lemma DeepestUnfolds(c: Setting, m: Table, p: Path, depth: nat, done: set<Path>)
    requires IsTable(c, m) && p in m
    ensures p in done ==> Deepest(c, m, p, depth, done) == (depth, done)
    ensures p !in done ==>
              var (deepest, done') := DeepestBehind(c, m, p, depth, 0, done);
              && Deepest(c, m, p, depth, done).1 == done' + {p}
              && Deepest(c, m, p, depth, done).0 == if deepest > depth then deepest else depth
  {
    hide ParseAt, Target, Entry, IsTable, DeepestBehind;
  }

  /** Leaving a module with a complete surface spends exactly what lies behind it. */
  lemma LeavingFits(c: Setting, m: Table, t: Tables, inside: Tables, after: Tables, p: Path, s: Surface, depth: nat)
    requires Ahead(c, m, t) && p in m && p !in t.memo && p !in t.active && depth <= c.maxDepth + 1
    requires inside.active == t.active + {p}
    requires Ahead(c, m, after) && after.active == inside.active
    requires after.memo.Keys == t.memo.Keys + Behind(c, m, p, 0)
    requires after.edges == t.edges + |Stars(c, p)| + StarCount(c, Behind(c, m, p, 0) - t.memo.Keys)
    requires s.complete
    requires var left := Remember(after.(active := after.active - {p}), p, s); Sane(c, left)
    ensures s == m[p]
    ensures Spent(c, m, t, Remember(after.(active := after.active - {p}), p, s), m[p].sourcePaths)
    ensures Remember(after.(active := after.active - {p}), p, s).memo.Keys == after.memo.Keys + {p}
  {
    hide ParseAt, Target, Entry, StarCount, IsTable, Stars;
    var left := Remember(after.(active := after.active - {p}), p, s);
    TablesAgree(c, m, left.memo, p);
    BudgetBehind(c, m, t, p);
    assert left.memo.Keys == after.memo.Keys + {p} == t.memo.Keys + m[p].sourcePaths;
    assert left.active == t.active;
    assert left.seen == left.memo.Keys + left.active;
  }

  lemma ParsedEntry(c: Setting, m: Table, p: Path) returns (parsed: Parsed)
    requires IsTable(c, m) && p in m
    ensures ParseAt(c, p) == Some(parsed) && parsed.localComplete && Stars(c, p) == parsed.wildcards
  {
    hide Target, Assembled, Linked, IsNodeSource;
    assert Entry(c, m, p);
    parsed := ParseAt(c, p).value;
  }

  lemma CardinalityGrows(a: set<Path>, b: set<Path>)
    requires a <= b
    ensures |a| <= |b|
  {
    SetSizes(a, b);
  }

  lemma MemoHoldsSources(c: Setting, m: Table, t: Tables, p: Path)
    requires Ahead(c, m, t) && p in t.memo
    ensures m[p].sourcePaths <= t.memo.Keys
  {
    hide Target, Assembled, Linked, ParseAt;
    assert Entry(c, t.memo, p);
  }

  /** The files behind a module that is not yet done: itself and what its specifiers lead to. */
  lemma BudgetBehind(c: Setting, m: Table, t: Tables, p: Path)
    requires IsTable(c, m) && p in m && p !in t.memo
    ensures var rest := Behind(c, m, p, 0);
            && p !in rest && {p} + rest == m[p].sourcePaths
            && StarCount(c, m[p].sourcePaths - t.memo.Keys) == |Stars(c, p)| + StarCount(c, rest - t.memo.Keys)
            && t.seen + {p} + rest == t.seen + m[p].sourcePaths
  {
    hide ParseAt, Target, Entry, StarCount, Stars, IsTable;
    BehindIsTheRest(c, m, p);
    var rest := Behind(c, m, p, 0);
    StarCountOne(c, m[p].sourcePaths - t.memo.Keys, p);
    assert m[p].sourcePaths - t.memo.Keys - {p} == rest - t.memo.Keys;
  }

  /** What is left of the budgets suffices for the specifiers from `i` on. */
  ghost predicate FitsBehind(c: Setting, m: Table, t: Tables, p: Path, depth: nat, i: nat)
    requires IsTable(c, m) && p in m && i <= |Stars(c, p)|
  {
    var rest := Behind(c, m, p, i);
    && rest !! t.active
    && |t.seen + rest| <= c.maxModules
    && t.edges + (|Stars(c, p)| - i) + StarCount(c, rest - t.memo.Keys) <= c.maxEdges
    && DeepestBehind(c, m, p, depth, i, t.memo.Keys).0 <= c.maxDepth
  }

  lemma {:induction false} FittingWalkSucceeds(c: Setting, m: Table, t: Tables, p: Path, parsed: Parsed, depth: nat,
      i: nat, f: Frame)
    requires Ahead(c, m, t) && p in m && ParseAt(c, p) == Some(parsed) && depth <= c.maxDepth
    requires i <= |parsed.wildcards| && FitsBehind(c, m, t, p, depth, i)
    requires p in t.active && f.complete && FrameOk(c, t.memo, p, parsed, i, f)
    ensures var (t', f') := Walk(c, t, p, parsed, depth, i, f);
            var rest := Behind(c, m, p, i);
            && f'.complete && Ahead(c, m, t') && t'.active == t.active
            && t'.memo.Keys == t.memo.Keys + rest
            && t'.edges == t.edges + (|parsed.wildcards| - i) + StarCount(c, rest - t.memo.Keys)
            && DeepestBehind(c, m, p, depth, i, t.memo.Keys).1 == t'.memo.Keys
    decreases c.maxDepth + 1 - depth, 0, |parsed.wildcards| - i
  {
    hide ParseAt, Target, Entry, Deepest, Follow, IsTable, FrameOk, Ahead, FitsBehind, StarCount;
    if i == |parsed.wildcards| {
      NothingToCount(c, t.memo.Keys);
    } else {
      var counted := t.(edges := t.edges + 1);
      FittingStep(c, m, t, p, parsed, depth, i, f);
      var (t', f') := Follow(c, counted, p, parsed, depth, i, f);
      FittingWalkSucceeds(c, m, t', p, parsed, depth, i + 1, f');
    }
  }

  lemma NothingToCount(c: Setting, files: set<Path>)
    ensures StarCount(c, {} - files) == 0
  {
    assert {} - files == {};
  }

  /** One specifier: its target is found, its surface fits, and no name clashes. */
  lemma {:induction false} FittingStep(c: Setting, m: Table, t: Tables, p: Path, parsed: Parsed, depth: nat, i: nat,
      f: Frame)
    requires Ahead(c, m, t) && p in m && ParseAt(c, p) == Some(parsed) && depth <= c.maxDepth
    requires i < |parsed.wildcards| && FitsBehind(c, m, t, p, depth, i)
    requires p in t.active && f.complete && FrameOk(c, t.memo, p, parsed, i, f)
    ensures var target := TargetOfEntry(c, m, p, i);
            var (t', f') := Follow(c, t.(edges := t.edges + 1), p, parsed, depth, i, f);
            && t.edges + 1 <= c.maxEdges
            && f'.complete && FrameOk(c, t'.memo, p, parsed, i + 1, f')
            && Ahead(c, m, t') && t'.active == t.active
            && t'.memo.Keys == t.memo.Keys + m[target].sourcePaths
            && t'.edges + StarCount(c, Behind(c, m, p, i + 1) - t'.memo.Keys)
               == t.edges + 1 + StarCount(c, Behind(c, m, p, i) - t.memo.Keys)
            && Deepest(c, m, target, depth + 1, t.memo.Keys).1 == t'.memo.Keys
            && FitsBehind(c, m, t', p, depth, i + 1)
    decreases c.maxDepth + 1 - depth, 0, |parsed.wildcards| - i - 1
  {
    hide ParseAt, Target, TargetProbes, Entry, Deepest, IsTable, FrameOk, StarCount, Resolve, Behind, Account, Grown,
        FitsBehind, Fits;
    var counted := t.(edges := t.edges + 1);
    var target := TargetOfEntry(c, m, p, i);
    assert TargetAt(c, p, parsed, i) == Some(target);
    FollowKeepsTable(c, counted, p, parsed, depth, i, f);
    var looked := counted.(probes := counted.probes + TargetProbes(c, p, parsed.wildcards[i]));
    StepFits(c, m, t, looked, p, depth, i);
    FittingSearchSucceeds(c, m, looked, target, depth + 1);
    var (t', outcome) := Resolve(c, looked, target, depth + 1);
    FrameStays(c, t.memo, t'.memo, p, parsed, i, f);
    EntryIsSource(c, m, target);
    StaysComplete(c, m, t'.memo, p, parsed, i, f, target);
    StepLeaves(c, m, t, t', p, depth, i);
  }

  lemma StaysComplete(c: Setting, m: Table, memo: Table, p: Path, parsed: Parsed, i: nat, f: Frame, target: Path)
    requires IsTable(c, m) && p in m && Grown(memo, m) && ParseAt(c, p) == Some(parsed)
    requires i < |parsed.wildcards| && f.complete && FrameOk(c, memo, p, parsed, i, f)
    requires TargetAt(c, p, parsed, i) == Some(target) && target in m && target in memo
    ensures Account(parsed, f, target, Some(m[target])).complete
  {
    hide ParseAt, Target, Entry, IsTable, FrameOk;
    NoClash(c, m, memo, p, parsed, i, f, target);
    ShapesOfEntry(c, m, target);
    var g := f.(sources := f.sources + m[target].sourcePaths);
    assert Clashes(parsed, g, target, m[target]) == Clashes(parsed, f, target, m[target]);
  }

  /** The target of specifier `i` fits after its edge is counted. */
  lemma StepFits(c: Setting, m: Table, t: Tables, looked: Tables, p: Path, depth: nat, i: nat)
    requires Ahead(c, m, t) && p in m && depth <= c.maxDepth
    requires i < |Stars(c, p)| && FitsBehind(c, m, t, p, depth, i)
    requires looked == t.(edges := t.edges + 1, probes := looked.probes)
    ensures t.edges + 1 <= c.maxEdges && Ahead(c, m, looked)
    ensures Fits(c, m, looked, TargetOfEntry(c, m, p, i), depth + 1)
  {
    hide ParseAt, Target, Entry, IsTable, StarCount, Stars, Deepest, Behind;
    StepBudget(c, m, t, p, i, m[TargetOfEntry(c, m, p, i)].sourcePaths);
  }

  /** Once it is spent, the later specifiers fit. */
  lemma StepLeaves(c: Setting, m: Table, t: Tables, t': Tables, p: Path, depth: nat, i: nat)
    requires Ahead(c, m, t) && p in m && depth <= c.maxDepth
    requires i < |Stars(c, p)| && FitsBehind(c, m, t, p, depth, i)
    requires var target := TargetOfEntry(c, m, p, i);
             && Spent(c, m, t.(edges := t.edges + 1), t', m[target].sourcePaths)
             && Deepest(c, m, target, depth + 1, t.memo.Keys).1 == t'.memo.Keys
    ensures FitsBehind(c, m, t', p, depth, i + 1)
    ensures t'.edges + StarCount(c, Behind(c, m, p, i + 1) - t'.memo.Keys)
            == t.edges + 1 + StarCount(c, Behind(c, m, p, i) - t.memo.Keys)
  {
    hide ParseAt, Target, Entry, IsTable, StarCount, Stars, Deepest, Behind;
    StepBudget(c, m, t, p, i, m[TargetOfEntry(c, m, p, i)].sourcePaths);
  }

  /** The files behind specifier `i` and those behind the later ones that are still to do. */
  lemma StepBudget(c: Setting, m: Table, t: Tables, p: Path, i: nat, here: set<Path>)
    requires IsTable(c, m) && p in m && i < |Stars(c, p)|
    requires here == m[TargetOfEntry(c, m, p, i)].sourcePaths && t.seen == t.memo.Keys + t.active
    requires Behind(c, m, p, i) !! t.active
    ensures var rest, later := Behind(c, m, p, i), Behind(c, m, p, i + 1);
            && here !! t.active && later !! t.active
            && StarCount(c, rest - t.memo.Keys)
               == StarCount(c, here - t.memo.Keys) + StarCount(c, later - (t.memo.Keys + here))
            && |t.seen + here| <= |t.seen + rest|
            && |t.memo.Keys + here + t.active + later| <= |t.seen + rest|
  {
    hide ParseAt, Target, Entry, StarCount, Stars, IsTable;
    var rest, later := Behind(c, m, p, i), Behind(c, m, p, i + 1);
    assert rest == here + later;
    StarCountSum(c, here - t.memo.Keys, later - (t.memo.Keys + here));
    assert rest - t.memo.Keys == (here - t.memo.Keys) + (later - (t.memo.Keys + here));
    CardinalityGrows(t.seen + here, t.seen + rest);
    CardinalityGrows(t.memo.Keys + here + t.active + later, t.seen + rest);
  }

  /** In a table no name comes from two targets, so the frame never meets a clash. */
  lemma NoClash(c: Setting, m: Table, memo: Table, p: Path, parsed: Parsed, i: nat, f: Frame, target: Path)
    requires IsTable(c, m) && p in m && Grown(memo, m) && ParseAt(c, p) == Some(parsed)
    requires i < |parsed.wildcards| && f.complete && FrameOk(c, memo, p, parsed, i, f)
    requires TargetAt(c, p, parsed, i) == Some(target) && target in memo
    ensures Clashes(parsed, f, target, m[target]) == {}
  {
    hide ParseAt, Target, Entry, Linked, IsTable, StarEdge, Feeds;
    SymbolsOfEntry(c, m, p);
    IndexIsEdge(c, p, parsed, i);
    forall n | n in Clashes(parsed, f, target, m[target]) ensures false {
      assert Supplied(c, memo, p, parsed, i, n);
      var t :| Supplies(c, memo, p, parsed, i, n, t);
      var j :| 0 <= j < i && TargetAt(c, p, parsed, j) == Some(t);
      IndexIsEdge(c, p, parsed, j);
      LocalNamesOf(c, p, parsed);
    }
  }

  lemma LocalNamesOf(c: Setting, p: Path, parsed: Parsed)
    requires ParseAt(c, p) == Some(parsed)
    ensures LocalNames(c, p) == parsed.symbols
  {
  }

  // ----- a complete answer was affordable -----

  /** What a search that answered completely has spent. `m` is any table that knows its outcome. */
  ghost predicate Paid(c: Setting, t: Tables, t': Tables, paid: nat) {
    && t'.edges == t.edges + paid + StarCount(c, t'.memo.Keys - t.memo.Keys)
    && t.memo.Keys <= t'.memo.Keys && t.seen <= t'.seen
    && (t.memo.Keys <= t.seen ==> t'.memo.Keys <= t'.seen)
    && (t.edges <= c.maxEdges ==> t'.edges <= c.maxEdges)
  }

  lemma {:induction false} CompleteSearchPays(c: Setting, m: Table, t: Tables, p: Path, depth: nat)
    requires IsTable(c, m) && Sane(c, t) && p in m && depth <= c.maxDepth + 1
    requires var (t', r) := Resolve(c, t, p, depth);
             Grown(t'.memo, m) && r.Some? && r.value.complete
    ensures var (t', r) := Resolve(c, t, p, depth);
            && Paid(c, t, t', 0)
            && Deepest(c, m, p, depth, t.memo.Keys).0 <= c.maxDepth
            && Deepest(c, m, p, depth, t.memo.Keys).1 == t'.memo.Keys
    decreases c.maxDepth + 1 - depth, 1, 0
  {
    hide ParseAt, Target, Entry, StarCount, Deepest, DeepestBehind, Walk, IsTable, Stars, Grown;
    DeepestUnfolds(c, m, p, depth, t.memo.Keys);
    if p in t.memo {
      NothingNewToCount(c, t.memo.Keys);
    } else {
      var parsed := ParsedEntry(c, m, p);
      var inside := Admit(t.(calls := t.calls + 1), p).(active := t.active + {p});
      var (after, f) := Walk(c, inside, p, parsed, depth, 0, Start(p, parsed));
      var (t', r) := Resolve(c, t, p, depth);
      ResolveUnfolds(c, t, p, depth, parsed);
      StartIsAssembled(c, inside.memo, p, parsed);
      WalkKeepsTable(c, inside, p, parsed, depth, 0, Start(p, parsed));
      GrownThrough(after.memo, t'.memo, m, p);
      CompleteWalkPays(c, m, inside, p, parsed, depth, 0, Start(p, parsed));
      CountedOnce(c, t.memo.Keys, after.memo.Keys, p);
      assert t'.memo.Keys == after.memo.Keys + {p};
    }
  }

  lemma NothingNewToCount(c: Setting, files: set<Path>)
    ensures StarCount(c, files - files) == 0
  {
    assert files - files == {};
  }

  lemma GrownThrough(a: Table, b: Table, m: Table, p: Path)
    requires p !in a && Grown(b, m) && p in b && b == a[p := b[p]]
    ensures Grown(a, m)
  {
  }

  lemma CountedOnce(c: Setting, before: set<Path>, after: set<Path>, p: Path)
    requires before <= after && p !in after
    ensures StarCount(c, after + {p} - before) == |Stars(c, p)| + StarCount(c, after - before)
  {
    hide Stars;
    StarCountOne(c, after + {p} - before, p);
    assert after + {p} - before - {p} == after - before;
  }

  lemma {:induction false} CompleteWalkPays(c: Setting, m: Table, t: Tables, p: Path, parsed: Parsed, depth: nat,
      i: nat, f: Frame)
    requires IsTable(c, m) && Sane(c, t) && p in m && p in t.active && depth <= c.maxDepth
    requires ParseAt(c, p) == Some(parsed) && i <= |parsed.wildcards| && Stars(c, p) == parsed.wildcards
    requires FrameOk(c, t.memo, p, parsed, i, f)
    requires var (t', f') := Walk(c, t, p, parsed, depth, i, f);
             Grown(t'.memo, m) && f'.complete
    ensures var (t', f') := Walk(c, t, p, parsed, depth, i, f);
            && Paid(c, t, t', |parsed.wildcards| - i)
            && DeepestBehind(c, m, p, depth, i, t.memo.Keys).0 <= c.maxDepth
            && DeepestBehind(c, m, p, depth, i, t.memo.Keys).1 == t'.memo.Keys
    decreases c.maxDepth + 1 - depth, 0, |parsed.wildcards| - i
  {
    hide ParseAt, Target, Entry, StarCount, Deepest, IsTable, Stars, Grown, Follow, FrameOk;
    if i == |parsed.wildcards| {
      NothingNewToCount(c, t.memo.Keys);
    } else {
      var counted := t.(edges := t.edges + 1);
      var (t', f') := Follow(c, counted, p, parsed, depth, i, f);
      FollowKeepsTable(c, counted, p, parsed, depth, i, f);
      WalkKeepsTable(c, t', p, parsed, depth, i + 1, f');
      var (t'', f'') := Walk(c, t', p, parsed, depth, i + 1, f');
      GrownTransitive(t'.memo, t''.memo, m);
      WalkNeverRecovers(c, t', p, parsed, depth, i + 1, f');
      CompleteStepPays(c, m, counted, p, parsed, depth, i, f);
      CompleteWalkPays(c, m, t', p, parsed, depth, i + 1, f');
      CountedInSteps(c, t.memo.Keys, t'.memo.Keys, t''.memo.Keys);
    }
  }

  lemma GrownTransitive(a: Table, b: Table, m: Table)
    requires Grown(a, b) && Grown(b, m)
    ensures Grown(a, m)
  {
  }

  lemma CountedInSteps(c: Setting, a: set<Path>, b: set<Path>, d: set<Path>)
    requires a <= b <= d
    ensures StarCount(c, d - a) == StarCount(c, b - a) + StarCount(c, d - b)
  {
    StarCountSum(c, b - a, d - b);
    assert d - a == (b - a) + (d - b);
  }

  /** An incomplete frame stays incomplete. */
  lemma {:induction false} WalkNeverRecovers(c: Setting, t: Tables, p: Path, parsed: Parsed, depth: nat, i: nat,
      f: Frame)
    requires depth <= c.maxDepth && i <= |parsed.wildcards|
    ensures Walk(c, t, p, parsed, depth, i, f).1.complete ==> f.complete
    decreases |parsed.wildcards| - i
  {
    hide Resolve, Target, TargetProbes;
    var counted := t.(edges := t.edges + 1);
    if i < |parsed.wildcards| && counted.edges <= c.maxEdges {
      var (t', f') := Follow(c, counted, p, parsed, depth, i, f);
      WalkNeverRecovers(c, t', p, parsed, depth, i + 1, f');
    }
  }

  lemma {:induction false} CompleteStepPays(c: Setting, m: Table, t: Tables, p: Path, parsed: Parsed, depth: nat,
      i: nat, f: Frame)
    requires IsTable(c, m) && Sane(c, t) && p in m && p in t.active && depth <= c.maxDepth
    requires ParseAt(c, p) == Some(parsed) && i < |parsed.wildcards| && Stars(c, p) == parsed.wildcards
    requires var (t', f') := Follow(c, t, p, parsed, depth, i, f);
             Grown(t'.memo, m) && f'.complete
    ensures var (t', f') := Follow(c, t, p, parsed, depth, i, f);
            && Paid(c, t, t', 0)
            && Deepest(c, m, TargetOfEntry(c, m, p, i), depth + 1, t.memo.Keys).0 <= c.maxDepth
            && Deepest(c, m, TargetOfEntry(c, m, p, i), depth + 1, t.memo.Keys).1 == t'.memo.Keys
    decreases c.maxDepth + 1 - depth, 0, |parsed.wildcards| - i - 1
  {
    hide ParseAt, Target, Entry, StarCount, Deepest, IsTable, Stars, Grown, Resolve, Absorb, TargetProbes;
    var target := TargetOfEntry(c, m, p, i);
    assert TargetAt(c, p, parsed, i) == Some(target);
    var looked := t.(probes := t.probes + TargetProbes(c, p, parsed.wildcards[i]));
    var (t', outcome) := Resolve(c, looked, target, depth + 1);
    assert Follow(c, t, p, parsed, depth, i, f) == (t', Account(parsed, f, target, outcome));
    CompleteSearchPays(c, m, looked, target, depth + 1);
  }

  // ----- the exact condition -----

  /** The table `m` shows the star graph of `p`, and the graph is within the budgets. */
  ghost predicate Affordable(c: Setting, m: Table, p: Path) {
    && IsTable(c, m) && p in m
    && |m[p].sourcePaths| <= c.maxModules
    && StarCount(c, m[p].sourcePaths) <= c.maxEdges
    && Deepest(c, m, p, 0, {}).0 <= c.maxDepth
  }

  /** `resolve` answers `complete` exactly when the star graph of the root can be tabled (every
      module parses completely, every specifier has one readable target, no name has two suppliers,
      no cycle) and its modules, star statements and deepest call fit the budgets. */
  lemma CompleteIff(c: Setting, p: Path)
    ensures var r := Resolve(c, EMPTY_TABLES, p, 0).1;
            r.Some? && r.value.complete <==> exists m: Table :: Affordable(c, m, p)
    ensures forall m: Table :: Affordable(c, m, p) ==> Resolve(c, EMPTY_TABLES, p, 0).1 == Some(m[p])
  {
    hide ParseAt, Target, Entry, StarCount, Deepest, Resolve, Stars;
    var (t', r) := Resolve(c, EMPTY_TABLES, p, 0);
    forall m: Table | Affordable(c, m, p) ensures r == Some(m[p]) && m[p].complete {
      assert {} + m[p].sourcePaths == m[p].sourcePaths - {} == m[p].sourcePaths;
      FittingSearchSucceeds(c, m, EMPTY_TABLES, p, 0);
      ShapesOfEntry(c, m, p);
    }
    if r.Some? && r.value.complete {
      ResolveKeepsTable(c, EMPTY_TABLES, p, 0);
      CompleteSearchPays(c, t'.memo, EMPTY_TABLES, p, 0);
      ResolveWork(c, EMPTY_TABLES, p, 0);
      MemoHoldsSources(c, t'.memo, t'.(seen := t'.memo.Keys + t'.active), p);
      CardinalityGrows(t'.memo[p].sourcePaths, t'.memo.Keys);
      CardinalityGrows(t'.memo.Keys, t'.seen);
      StarCountGrows(c, t'.memo[p].sourcePaths, t'.memo.Keys);
      assert t'.memo.Keys - {} == t'.memo.Keys;
      assert Affordable(c, t'.memo, p);
    }
  }

  /** If no chain of star edges from `p` is longer than the depth budget, the depth budget holds. */
  lemma ShortChainsAreShallow(c: Setting, m: Table, p: Path)
    requires IsTable(c, m) && p in m
    requires forall w :: StarPath(c, w) && w[0] == p ==> |w| - 1 <= c.maxDepth
    ensures Deepest(c, m, p, 0, {}).0 <= c.maxDepth
  {
    hide ParseAt, Target, Entry, Deepest;
    ChainsBoundDepth(c, m, p, 0, {}, c.maxDepth);
  }

  lemma {:induction false} ChainsBoundDepth(c: Setting, m: Table, p: Path, depth: nat, done: set<Path>, limit: nat)
    requires IsTable(c, m) && p in m && depth <= limit
    requires forall w :: StarPath(c, w) && w[0] == p ==> |w| - 1 <= limit - depth
    ensures Deepest(c, m, p, depth, done).0 <= limit
    decreases m[p].sourcePaths, 1 + |Stars(c, p)|
  {
    hide ParseAt, Target, Entry, DeepestBehind, StarPath;
    if p !in done {
      ChainsBoundDepthBehind(c, m, p, depth, 0, done, limit);
    }
  }

  lemma {:induction false} ChainsBoundDepthBehind(c: Setting, m: Table, p: Path, depth: nat, i: nat, done: set<Path>,
      limit: nat)
    requires IsTable(c, m) && p in m && depth <= limit && i <= |Stars(c, p)|
    requires forall w :: StarPath(c, w) && w[0] == p ==> |w| - 1 <= limit - depth
    ensures DeepestBehind(c, m, p, depth, i, done).0 <= limit
    decreases m[p].sourcePaths, |Stars(c, p)| - i
  {
    hide ParseAt, Target, Entry, Deepest, StarEdge;
    if i < |Stars(c, p)| {
      var t := TargetOfEntry(c, m, p, i);
      assert StarPath(c, [p, t]);
      forall w | StarPath(c, w) && w[0] == t ensures |w| - 1 <= limit - (depth + 1) {
        var longer := [p] + w;
        forall j | 0 <= j < |longer| - 1 ensures StarEdge(c, longer[j], longer[j + 1]) {
          if j > 0 {
            assert longer[j] == w[j - 1] && longer[j + 1] == w[j];
          }
        }
        assert StarPath(c, longer) && longer[0] == p;
      }
      ChainsBoundDepth(c, m, t, depth + 1, done, limit);
      ChainsBoundDepthBehind(c, m, p, depth, i + 1, Deepest(c, m, t, depth + 1, done).1, limit);
    }
  }
}
