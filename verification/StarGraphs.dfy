/**
 Which star graphs have a table, in terms of the graph alone; and the theorems about
 `resolve_node_export_surface` that the earlier modules add up to.
 */
module StarGraphs {
  import opened Wrappers
  import opened NodePaths
  import opened StarReexports
  import opened StarTables
  import opened StarMeaning
  import opened EcmaExports
  import opened StarBudgets

  /** `n` is a name that module `t` exports, directly or through any chain of stars. */
  ghost predicate Exports(c: Setting, t: Path, n: Name) {
    n in LocalNames(c, t) || (n != "default" && exists q :: Reaches(c, t, q) && n in LocalNames(c, q))
  }

  /** Every module of the finite set parses completely and every specifier has its one readable
      target inside the set. */
  ghost predicate WellLinked(c: Setting, files: set<Path>) {
    forall q :: q in files ==>
      && ParseAt(c, q).Some? && ParseAt(c, q).value.localComplete
      && forall i :: 0 <= i < |Stars(c, q)| ==> StarTarget(c, q, i).Some? && StarTarget(c, q, i).value in files
  }

  /** No module of the set receives one name from two different star targets. */
  ghost predicate Unambiguous(c: Setting, files: set<Path>) {
    forall q, t, t', n ::
      q in files && StarEdge(c, q, t) && StarEdge(c, q, t')
      && n != "default" && n !in LocalNames(c, q) && Exports(c, t, n) && Exports(c, t', n)
      ==> t == t'
  }

  ghost predicate SoundGraph(c: Setting, files: set<Path>, p: Path) {
    p in files && WellLinked(c, files) && Unambiguous(c, files) && NoStarCycle(c, p)
  }

  lemma EntryExports(c: Setting, m: Table, t: Path, n: Name)
    requires IsTable(c, m) && t in m
    ensures n in m[t].symbols <==> Exports(c, t, n)
  {
    hide ParseAt, Target, Entry, Reaches;
    NamesAreReachableLocals(c, m, t, n);
    SourcesAreReachable(c, m, t);
  }

  // ----- from a table to the graph -----

  lemma TabledGraphIsSound(c: Setting, m: Table, p: Path)
    requires IsTable(c, m) && p in m
    ensures SoundGraph(c, m[p].sourcePaths, p)
  {
    hide ParseAt, Target, Entry, Reaches, StarEdge, Exports, NoStarCycle;
    var files := m[p].sourcePaths;
    EntryIsSource(c, m, p);
    EntryHasNoStarCycle(c, m, p);
    forall q | q in files ensures q in m && ParseAt(c, q).Some? && ParseAt(c, q).value.localComplete {
      SourcesNest(c, m, p, q);
      var parsed := ParsedEntry(c, m, q);
    }
    forall q, i | q in files && 0 <= i < |Stars(c, q)|
        ensures StarTarget(c, q, i).Some? && StarTarget(c, q, i).value in files {
      SourcesNest(c, m, p, q);
      var t := TargetOfEntry(c, m, q, i);
      EntryIsSource(c, m, t);
    }
    forall q, t, t', n | q in files && StarEdge(c, q, t) && StarEdge(c, q, t')
                         && n != "default" && n !in LocalNames(c, q) && Exports(c, t, n) && Exports(c, t', n)
      ensures t == t'
    {
      SourcesNest(c, m, p, q);
      EdgeShrinks(c, m, q, t);
      EdgeShrinks(c, m, q, t');
      EntryExports(c, m, t, n);
      EntryExports(c, m, t', n);
      SymbolsOfEntry(c, m, q);
      assert GivesName(c, m, q, t, n) && GivesName(c, m, q, t', n);
    }
  }

  // ----- from the graph to a table -----

  /** The frame after taking in the tabled targets of the first `k` specifiers. */
  ghost function Gathered(c: Setting, m: Table, q: Path, parsed: Parsed, k: nat): Frame
    requires k <= |parsed.wildcards|
    requires forall i :: 0 <= i < k ==> TargetAt(c, q, parsed, i).Some? && TargetAt(c, q, parsed, i).value in m
  {
    if k == 0 then Start(q, parsed)
    else
      var t := TargetAt(c, q, parsed, k - 1).value;
      Account(parsed, Gathered(c, m, q, parsed, k - 1), t, Some(m[t]))
  }

  /** All targets are tabled and none leads back to `q`. */
  ghost predicate TargetsTabled(c: Setting, m: Table, q: Path) {
    forall t :: StarEdge(c, q, t) ==> t in m && q !in m[t].sourcePaths
  }

  lemma {:induction false} GatheredIsAssembled(c: Setting, m: Table, q: Path, parsed: Parsed, k: nat, files: set<Path>)
    requires IsTable(c, m) && ParseAt(c, q) == Some(parsed) && k <= |parsed.wildcards|
    requires q in files && WellLinked(c, files) && Unambiguous(c, files) && TargetsTabled(c, m, q)
    ensures forall i :: 0 <= i < k ==> TargetAt(c, q, parsed, i).Some? && TargetAt(c, q, parsed, i).value in m
    ensures var f := Gathered(c, m, q, parsed, k); f.complete && FrameOk(c, m, q, parsed, k, f)
  {
    hide ParseAt, Target, Entry, StarEdge, FrameOk, Unambiguous, Account;
    forall i | 0 <= i < |parsed.wildcards|
        ensures TargetAt(c, q, parsed, i).Some? && TargetAt(c, q, parsed, i).value in m {
      assert StarTarget(c, q, i) == TargetAt(c, q, parsed, i);
      IndexIsEdge(c, q, parsed, i);
    }
    if k == 0 {
      StartIsAssembled(c, m, q, parsed);
    } else {
      GatheredIsAssembled(c, m, q, parsed, k - 1, files);
      var t := TargetAt(c, q, parsed, k - 1).value;
      IndexIsEdge(c, q, parsed, k - 1);
      var f := Gathered(c, m, q, parsed, k - 1);
      UnambiguousNoClash(c, m, q, parsed, k - 1, files, f, t);
      AccountTakesIn(parsed, f, t, m[t]);
      ShapesOfEntry(c, m, t);
      TakingInKeepsFrame(c, m, q, parsed, k - 1, k, f, t, Account(parsed, f, t, Some(m[t])));
    }
  }

  lemma UnambiguousNoClash(c: Setting, m: Table, q: Path, parsed: Parsed, k: nat, files: set<Path>, f: Frame,
      target: Path)
    requires IsTable(c, m) && ParseAt(c, q) == Some(parsed) && k < |parsed.wildcards|
    requires q in files && Unambiguous(c, files) && f.complete && FrameOk(c, m, q, parsed, k, f)
    requires StarEdge(c, q, target) && target in m && TargetAt(c, q, parsed, k) == Some(target)
    ensures m[target].complete && Account(parsed, f, target, Some(m[target])).complete
  {
    hide ParseAt, Target, Entry, StarEdge, Exports, Linked, Feeds;
    ShapesOfEntry(c, m, target);
    var g := f.(sources := f.sources + m[target].sourcePaths);
    LocalNamesOf(c, q, parsed);
    forall n | n in Clashes(parsed, g, target, m[target]) ensures false {
      assert Supplied(c, m, q, parsed, k, n);
      var t :| Supplies(c, m, q, parsed, k, n, t);
      var j :| 0 <= j < k && TargetAt(c, q, parsed, j) == Some(t);
      IndexIsEdge(c, q, parsed, j);
      EntryExports(c, m, t, n);
      EntryExports(c, m, target, n);
    }
  }

  /** Tabling a module all of whose targets are tabled. */
  lemma TableOneMore(c: Setting, m: Table, q: Path, files: set<Path>) returns (m': Table)
    requires IsTable(c, m) && q in files && WellLinked(c, files) && Unambiguous(c, files) && TargetsTabled(c, m, q)
    ensures IsTable(c, m') && Grown(m, m') && q in m'
  {
    hide ParseAt, Target, Entry, StarEdge, Unambiguous, TargetsTabled, Linked, Assembled, IsTable;
    if q in m {
      m' := m;
    } else {
      var parsed := ParseAt(c, q).value;
      var k := |parsed.wildcards|;
      GatheredIsAssembled(c, m, q, parsed, k, files);
      var s := Finish(parsed, Gathered(c, m, q, parsed, k));
      TableExtends(c, m, q, parsed, s);
      m' := m[q := s];
    }
  }

  lemma {:induction false} DistinctFits(w: seq<Path>, files: set<Path>)
    requires forall i :: 0 <= i < |w| ==> w[i] in files
    requires forall i, j :: 0 <= i < j < |w| ==> w[i] != w[j]
    ensures |w| <= |files|
  {
    if w != [] {
      var last := w[|w| - 1];
      DistinctFits(w[..|w| - 1], files - {last});
    }
  }

  /** A chain from `p` that ends in `q`; it has no repetition, so it cannot be extended for ever. */
  ghost predicate Chain(c: Setting, files: set<Path>, p: Path, w: seq<Path>) {
    StarPath(c, w) && w[0] == p && forall i :: 0 <= i < |w| ==> w[i] in files
  }

  lemma LongerChain(c: Setting, files: set<Path>, p: Path, w: seq<Path>, t: Path)
    requires SoundGraph(c, files, p) && Chain(c, files, p, w) && StarEdge(c, w[|w| - 1], t)
    ensures Chain(c, files, p, w + [t]) && |w| < |files|
  {
    hide ParseAt, Target, Unambiguous, StarEdge;
    var q := w[|w| - 1];
    EdgeIsTarget(c, q, t);
    var longer := w + [t];
    forall i | 0 <= i < |longer| - 1 ensures StarEdge(c, longer[i], longer[i + 1]) {
      if i < |w| - 1 {
        assert StarEdge(c, w[i], w[i + 1]);
      }
    }
    assert StarPath(c, longer);
    DistinctFits(longer, files);
  }

  lemma RoundTrip(c: Setting, w: seq<Path>, v: seq<Path>)
    requires StarPath(c, w) && StarPath(c, v) && StarEdge(c, w[|w| - 1], v[0]) && w[|w| - 1] == v[|v| - 1]
    ensures !NoStarCycle(c, w[0])
  {
    hide StarEdge;
    var round := w + v;
    forall i | 0 <= i < |round| - 1 ensures StarEdge(c, round[i], round[i + 1]) {
      if i < |w| - 1 {
        assert StarEdge(c, w[i], w[i + 1]);
      } else if i >= |w| {
        assert round[i] == v[i - |w|] && round[i + 1] == v[i - |w| + 1];
      }
    }
    assert StarPath(c, round) && round[0] == w[0];
    assert round[|w| - 1] == round[|round| - 1];
  }

  lemma NoWayBack(c: Setting, m: Table, files: set<Path>, p: Path, w: seq<Path>, t: Path)
    requires SoundGraph(c, files, p) && Chain(c, files, p, w) && StarEdge(c, w[|w| - 1], t)
    requires IsTable(c, m) && t in m
    ensures w[|w| - 1] !in m[t].sourcePaths
  {
    hide ParseAt, Target, Entry, StarEdge, Unambiguous, WellLinked, NoStarCycle;
    if w[|w| - 1] in m[t].sourcePaths {
      SourceIsReached(c, m, t, w[|w| - 1]);
      var v :| Leads(c, v, t, w[|w| - 1]);
      RoundTrip(c, w, v);
    }
  }

  /** The targets of the first `k` specifiers of `q` are tabled. */
  ghost predicate TabledUpTo(c: Setting, m: Table, q: Path, k: nat)
    requires k <= |Stars(c, q)|
  {
    forall i :: 0 <= i < k ==> StarTarget(c, q, i).Some? && StarTarget(c, q, i).value in m
  }

  /** Table the end of a chain, after everything it leads to. */
  lemma {:induction false} TableChain(c: Setting, m: Table, files: set<Path>, p: Path, w: seq<Path>) returns (m': Table)
    requires SoundGraph(c, files, p) && Chain(c, files, p, w) && IsTable(c, m) && |w| <= |files|
    ensures IsTable(c, m') && Grown(m, m') && w[|w| - 1] in m'
    decreases |files| - |w|, 1, 0
  {
    hide ParseAt, Target, Entry, StarEdge, Unambiguous, WellLinked, IsTable, NoStarCycle;
    var q := w[|w| - 1];
    var full := TableTargets(c, m, files, p, w, q, |Stars(c, q)|);
    forall t | StarEdge(c, q, t) ensures t in full && q !in full[t].sourcePaths {
      EdgeIsTarget(c, q, t);
      NoWayBack(c, full, files, p, w, t);
    }
    m' := TableOneMore(c, full, q, files);
    GrownTransitive(m, full, m');
  }

  lemma {:induction false} TableTargets(c: Setting, m: Table, files: set<Path>, p: Path, w: seq<Path>, q: Path, k: nat)
      returns (m': Table)
    requires SoundGraph(c, files, p) && Chain(c, files, p, w) && IsTable(c, m) && |w| <= |files|
    requires q == w[|w| - 1] && k <= |Stars(c, q)|
    ensures IsTable(c, m') && Grown(m, m') && TabledUpTo(c, m', q, k)
    decreases |files| - |w|, 0, k
  {
    hide ParseAt, Target, Entry, StarEdge, Unambiguous, IsTable, NoStarCycle, Stars;
    if k == 0 {
      m' := m;
    } else {
      var before := TableTargets(c, m, files, p, w, q, k - 1);
      var t := StarTarget(c, q, k - 1).value;
      TargetIsEdge(c, q, k - 1);
      LongerChain(c, files, p, w, t);
      m' := TableChain(c, before, files, p, w + [t]);
      GrownTransitive(m, before, m');
      TabledUpToGrows(c, before, m', q, k - 1);
    }
  }

  lemma TabledUpToGrows(c: Setting, m: Table, m': Table, q: Path, k: nat)
    requires k < |Stars(c, q)| && TabledUpTo(c, m, q, k) && Grown(m, m')
    requires StarTarget(c, q, k).Some? && StarTarget(c, q, k).value in m'
    ensures TabledUpTo(c, m', q, k + 1)
  {
  }

  lemma TargetIsEdge(c: Setting, q: Path, i: nat)
    requires i < |Stars(c, q)| && StarTarget(c, q, i).Some?
    ensures StarEdge(c, q, StarTarget(c, q, i).value)
  {
    hide ParseAt, Target;
  }

  /** A star graph can be tabled exactly when it is finite, well linked, unambiguous and acyclic. */
  lemma TableIffSoundGraph(c: Setting, p: Path)
    ensures (exists m: Table :: IsTable(c, m) && p in m) <==> (exists files :: SoundGraph(c, files, p))
  {
    hide ParseAt, Target, Entry, StarEdge, Unambiguous, WellLinked, NoStarCycle;
    if m: Table :| IsTable(c, m) && p in m {
      TabledGraphIsSound(c, m, p);
    }
    if files :| SoundGraph(c, files, p) {
      assert Chain(c, files, p, [p]);
      DistinctFits([p], files);
      var m := TableChain(c, map[], files, p, [p]);
    }
  }

  // ----- the deepest call, on the graph alone -----

  /** The walk of `Deepest` over the modules `left`, which needs no table. */
  ghost function WalkDepth(c: Setting, left: set<Path>, p: Path, depth: nat, done: set<Path>): (nat, set<Path>)
    requires p in left
    decreases left, 0, 0
  {
    if p in done then (depth, done)
    else
      var (deepest, done') := WalkBehind(c, left - {p}, p, depth, 0, done);
      (if deepest > depth then deepest else depth, done' + {p})
  }

  ghost function WalkBehind(c: Setting, left: set<Path>, p: Path, depth: nat, i: nat, done: set<Path>): (nat, set<Path>)
    requires i <= |Stars(c, p)|
    decreases left, 1, |Stars(c, p)| - i
  {
    if i == |Stars(c, p)| || StarTarget(c, p, i).None? || StarTarget(c, p, i).value !in left then (0, done)
    else
      var (deepest, done') := WalkDepth(c, left, StarTarget(c, p, i).value, depth + 1, done);
      var (more, done'') := WalkBehind(c, left, p, depth, i + 1, done');
      (if deepest > more then deepest else more, done'')
  }

  lemma {:induction false} WalkIsDeepest(c: Setting, m: Table, left: set<Path>, p: Path, depth: nat, done: set<Path>)
    requires IsTable(c, m) && p in m && m[p].sourcePaths <= left
    ensures p in left && WalkDepth(c, left, p, depth, done) == Deepest(c, m, p, depth, done)
    decreases m[p].sourcePaths, 1 + |Stars(c, p)|
  {
    hide ParseAt, Target, Entry, Stars, IsTable;
    EntryIsSource(c, m, p);
    if p !in done {
      WalkBehindIsDeepest(c, m, left - {p}, p, depth, 0, done);
    }
  }

  lemma {:induction false} WalkBehindIsDeepest(c: Setting, m: Table, left: set<Path>, p: Path, depth: nat, i: nat,
      done: set<Path>)
    requires IsTable(c, m) && p in m && m[p].sourcePaths - {p} <= left && i <= |Stars(c, p)|
    ensures WalkBehind(c, left, p, depth, i, done) == DeepestBehind(c, m, p, depth, i, done)
    decreases m[p].sourcePaths, |Stars(c, p)| - i
  {
    hide ParseAt, Target, Entry, Stars, IsTable, StarTarget;
    if i < |Stars(c, p)| {
      var t := TargetOfEntry(c, m, p, i);
      WalkIsDeepest(c, m, left, t, depth + 1, done);
      WalkBehindIsDeepest(c, m, left, p, depth, i + 1, Deepest(c, m, t, depth + 1, done).1);
    }
  }

  /** The modules that the stars of `p` reach form a sound graph within the budgets: their number, the number of their
      star statements and the depth of the deepest call. */
  ghost predicate AffordableGraph(c: Setting, files: set<Path>, p: Path) {
    && SoundGraph(c, files, p) && (forall q :: q in files <==> Reaches(c, p, q))
    && |files| <= c.maxModules && StarCount(c, files) <= c.maxEdges && WalkDepth(c, files, p, 0, {}).0 <= c.maxDepth
  }

  /** A table within the budgets exists exactly when the graph itself is sound and within them. */
  lemma AffordableIff(c: Setting, p: Path)
    ensures (exists m: Table :: Affordable(c, m, p)) <==> exists files :: AffordableGraph(c, files, p)
  {
    hide SoundGraph, Reaches, StarCount, Deepest, WalkDepth, IsTable;
    if m: Table :| Affordable(c, m, p) {
      TabledGraphIsSound(c, m, p);
      SourcesAreReachable(c, m, p);
      WalkIsDeepest(c, m, m[p].sourcePaths, p, 0, {});
      assert AffordableGraph(c, m[p].sourcePaths, p);
    }
    if files :| AffordableGraph(c, files, p) {
      TableIffSoundGraph(c, p);
      var m: Table :| IsTable(c, m) && p in m;
      SourcesAreReachable(c, m, p);
      assert m[p].sourcePaths == files;
      WalkIsDeepest(c, m, files, p, 0, {});
      assert Affordable(c, m, p);
    }
  }
}
