/**
 The theorems about `resolve_node_export_surface` (`node_compat.py`, lines 346-492): what a complete
 surface says, what it costs, and which files it can depend on.
 */
module ResolverTheorems {
  import opened Wrappers
  import opened NodePaths
  import opened StarReexports
  import opened StarTables
  import opened StarMeaning
  import opened EcmaExports
  import opened StarBudgets
  import opened StarGraphs

  // ----- one readable candidate -----

  predicate OnlyReadable(reader: Reader, candidates: seq<Path>, k: int) {
    0 <= k < |candidates| && reader(candidates[k]).Some?
    && forall i :: 0 <= i < |candidates| && i != k ==> reader(candidates[i]).None?
  }

  lemma {:induction false} PickIff(reader: Reader, candidates: seq<Path>, found: Option<Path>, t: Path)
    ensures Pick(reader, candidates, found) == Some(t) <==>
              if found.Some? then found == Some(t) && forall i :: 0 <= i < |candidates| ==> reader(candidates[i]).None?
              else exists k :: OnlyReadable(reader, candidates, k) && candidates[k] == t
  {
    if candidates != [] {
      var rest := candidates[1..];
      assert forall i :: 0 <= i < |rest| ==> rest[i] == candidates[i + 1];
      var first := reader(candidates[0]);
      PickIff(reader, rest, if first.None? || found.Some? then found else Some(candidates[0]), t);
      if found.None? {
        if first.None? {
          if k :| OnlyReadable(reader, rest, k) && rest[k] == t {
            assert OnlyReadable(reader, candidates, k + 1);
          }
          if k :| OnlyReadable(reader, candidates, k) && candidates[k] == t {
            assert OnlyReadable(reader, rest, k - 1);
          }
        } else if forall i :: 0 <= i < |rest| ==> reader(rest[i]).None? {
          assert OnlyReadable(reader, candidates, 0) by {
            forall i | 0 < i < |candidates| ensures reader(candidates[i]).None? {
              assert rest[i - 1] == candidates[i];
            }
          }
          if k :| OnlyReadable(reader, candidates, k) && candidates[k] == t {
            assert k == 0;
          }
        } else {
          var i :| 0 <= i < |rest| && reader(rest[i]).Some?;
          assert reader(candidates[i + 1]).Some?;
        }
      } else {
        if forall i :: 0 <= i < |candidates| ==> reader(candidates[i]).None? {
          forall i | 0 <= i < |rest| ensures reader(rest[i]).None? {
            assert rest[i] == candidates[i + 1];
          }
        } else if first.None? {
          var i :| 0 <= i < |candidates| && reader(candidates[i]).Some?;
          assert rest[i - 1] == candidates[i];
        }
      }
    }
  }

  /** A specifier resolves to a target exactly when that is the one readable candidate. */
  lemma TargetIff(c: Setting, p: Path, specifier: string, t: Path)
    ensures var candidates := Candidates(p, specifier, c.root);
            Target(c, p, specifier) == Some(t) <==>
              exists k :: OnlyReadable(c.reader, candidates, k) && candidates[k] == t
  {
    hide Candidates;
    PickIff(c.reader, Candidates(p, specifier, c.root), None, t);
  }

  // ----- what a complete surface says -----

  /** The setting with the package root normalised, as the inner `resolve` sees it. */
  function Rooted(c: Setting): Setting {
    match Normalized(c.root) case None => c case Some(root) => c.(root := root)
  }

  ghost predicate CompleteAt(c: Setting, path: Path, p: Path, s: Surface) {
    Normalized(path) == Some(p) && ResolveTop(c, path).1 == Some(s) && s.complete
  }

  lemma CompleteHasTable(c: Setting, path: Path, p: Path, s: Surface) returns (m: Table)
    requires CompleteAt(c, path, p, s)
    ensures IsTable(Rooted(c), m) && p in m && m[p] == s
    ensures Resolve(Rooted(c), EMPTY_TABLES, p, 0).1 == Some(s)
  {
    hide Resolve, Entry, Normalized;
    ResolveKeepsTable(Rooted(c), EMPTY_TABLES, p, 0);
    m := Resolve(Rooted(c), EMPTY_TABLES, p, 0).0.memo;
    assert IsTable(Rooted(c), EMPTY_TABLES.memo);
  }

  /** A complete surface lists exactly the names that the module exports, was built from exactly the
      modules that its stars reach, and its graph is acyclic. */
  lemma CompleteSurfaceIsExact(c: Setting, path: Path, p: Path, s: Surface)
    requires CompleteAt(c, path, p, s)
    ensures forall q :: q in s.sourcePaths <==> Reaches(Rooted(c), p, q)
    ensures forall n :: n in s.symbols <==> Exports(Rooted(c), p, n)
    ensures NoStarCycle(Rooted(c), p)
  {
    hide Resolve, ResolveTop, Entry, Reaches, Exports, NoStarCycle;
    var m := CompleteHasTable(c, path, p, s);
    SourcesAreReachable(Rooted(c), m, p);
    EntryHasNoStarCycle(Rooted(c), m, p);
    forall n ensures n in s.symbols <==> Exports(Rooted(c), p, n) {
      EntryExports(Rooted(c), m, p, n);
    }
  }

  /** A complete surface agrees with the two methods of ECMA-262, for every finite set of linked
      modules that holds what the stars reach: the same names, a unique resolution for each of them,
      and the minimum argument count of the module that the name resolves to. */
  lemma CompleteSurfaceIsEcma(c: Setting, path: Path, p: Path, s: Surface, linked: set<Path>)
    requires CompleteAt(c, path, p, s) && s.sourcePaths <= linked
    ensures GetExportedNames(Rooted(c), linked, p, {}).0 == s.symbols
    ensures forall n :: n !in s.symbols ==> ResolveExport(Rooted(c), linked, p, n, {}).0 == NotFound
    ensures forall n :: n in s.symbols ==>
              var found := ResolveExport(Rooted(c), linked, p, n, {}).0;
              found.Found? && SameShape(s.minArgs, LocalShapes(Rooted(c), found.where), n)
    ensures s.minArgs.Keys <= s.symbols
  {
    hide Resolve, ResolveTop, Entry, GetExportedNames, ResolveExport, LocalShapes;
    var m := CompleteHasTable(c, path, p, s);
    ExportedNamesAreSymbols(Rooted(c), m, linked, p);
    forall n ensures ResolveExport(Rooted(c), linked, p, n, {}).0 == Expected(Rooted(c), m, p, n) {
      ResolutionAgrees(Rooted(c), m, linked, p, n, {});
    }
    ShapesOfEntry(Rooted(c), m, p);
  }

  /** Budgets decide whether the answer is complete, never what a complete answer says. */
  lemma CompleteAnswersAgree(c: Setting, c': Setting, path: Path, p: Path, s: Surface, s': Surface)
    requires SameGraph(c, c') && CompleteAt(c, path, p, s) && CompleteAt(c', path, p, s')
    ensures s == s'
  {
    hide Resolve, ResolveTop, Entry, IsTable, Normalized;
    var m := CompleteHasTable(c, path, p, s);
    var m' := CompleteHasTable(c', path, p, s');
    TableForAllBudgets(Rooted(c'), Rooted(c), m');
    TablesAgree(Rooted(c), m, m', p);
  }

  /** At most one call per counted edge besides the first, at most `max_modules` modules, and each
      activation that is still open overruns the edge budget at most once. */
  lemma WorkIsBounded(c: Setting, path: Path)
    requires c.maxModules >= 1
    ensures var t := ResolveTop(c, path).0;
            t.calls <= c.maxEdges + 1 && |t.seen| <= c.maxModules && t.edges <= c.maxEdges + c.maxDepth + 1
  {
    hide Resolve, Normalized;
    match (Normalized(c.root), Normalized(path))
    case (Some(root), Some(p)) => ResolveWork(c.(root := root), EMPTY_TABLES, p, 0);
    case (_, _) =>
  }

  /** The exact condition for `complete`, on the graph alone: the modules that the stars reach are finitely many,
      well linked, unambiguous and acyclic, and their number, their star statements and the deepest call are
      within the budgets. */
  lemma CompleteExactlyWhen(c: Setting, path: Path, p: Path)
    requires Normalized(path) == Some(p) && Normalized(c.root).Some? && Within(p, Normalized(c.root).value)
    ensures (exists s :: CompleteAt(c, path, p, s)) <==> exists files :: AffordableGraph(Rooted(c), files, p)
    ensures (exists s :: CompleteAt(c, path, p, s)) <==> exists m: Table :: Affordable(Rooted(c), m, p)
    ensures (exists m: Table :: IsTable(Rooted(c), m) && p in m) <==> exists files :: SoundGraph(Rooted(c), files, p)
  {
    hide Resolve, Normalized, Affordable, AffordableGraph, SoundGraph, IsTable;
    CompleteIff(Rooted(c), p);
    AffordableIff(Rooted(c), p);
    TableIffSoundGraph(Rooted(c), p);
    var r := Resolve(Rooted(c), EMPTY_TABLES, p, 0).1;
    assert ResolveTop(c, path).1 == r;
    if r.Some? && r.value.complete {
      assert CompleteAt(c, path, p, r.value);
    }
  }

  // ----- the read footprint -----

  /** The same search over other files. */
  ghost predicate OtherFiles(c: Setting, c': Setting, probes: set<Path>) {
    && c' == c.(reader := c'.reader)
    && forall q :: q in probes ==> c.reader(q) == c'.reader(q)
  }

  lemma {:induction false} PickReadsProbes(a: Reader, b: Reader, candidates: seq<Path>, found: Option<Path>)
    requires forall q :: q in PickProbes(a, candidates, found.Some?) ==> a(q) == b(q)
    ensures Pick(a, candidates, found) == Pick(b, candidates, found)
    ensures PickProbes(a, candidates, found.Some?) == PickProbes(b, candidates, found.Some?)
  {
    if candidates != [] {
      if a(candidates[0]).None? {
        PickReadsProbes(a, b, candidates[1..], found);
      } else if found.None? {
        PickReadsProbes(a, b, candidates[1..], Some(candidates[0]));
      }
    }
  }

  lemma {:induction false} ProbesGrow(c: Setting, t: Tables, p: Path, depth: nat)
    requires depth <= c.maxDepth + 1
    ensures t.probes <= Resolve(c, t, p, depth).0.probes
    decreases c.maxDepth + 1 - depth, 1, 0
  {
    hide IsNodeSource;
    if !Refused(c, t, p, depth) && p !in t.memo && ParseAt(c, p).Some? {
      var parsed := ParseAt(c, p).value;
      if parsed.localComplete && parsed.wildcards != [] {
        var admitted := Admit(t.(calls := t.calls + 1), p);
        WalkProbesGrow(c, admitted.(active := admitted.active + {p}), p, parsed, depth, 0, Start(p, parsed));
      }
    }
  }

  lemma {:induction false} WalkProbesGrow(c: Setting, t: Tables, p: Path, parsed: Parsed, depth: nat, i: nat, f: Frame)
    requires depth <= c.maxDepth && i <= |parsed.wildcards|
    ensures t.probes <= Walk(c, t, p, parsed, depth, i, f).0.probes
    decreases c.maxDepth + 1 - depth, 0, |parsed.wildcards| - i
  {
    hide Target, TargetProbes, Account;
    var counted := t.(edges := t.edges + 1);
    if i < |parsed.wildcards| && counted.edges <= c.maxEdges {
      var (t', f') := Follow(c, counted, p, parsed, depth, i, f);
      FollowProbesGrow(c, counted, p, parsed, depth, i, f);
      WalkProbesGrow(c, t', p, parsed, depth, i + 1, f');
    }
  }

  lemma {:induction false} FollowProbesGrow(c: Setting, t: Tables, p: Path, parsed: Parsed, depth: nat, i: nat,
      f: Frame)
    requires depth <= c.maxDepth && i < |parsed.wildcards|
    ensures t.probes + TargetProbes(c, p, parsed.wildcards[i]) <= Follow(c, t, p, parsed, depth, i, f).0.probes
    decreases c.maxDepth + 1 - depth, 0, |parsed.wildcards| - i - 1
  {
    hide Target, TargetProbes, Account, Resolve;
    if Target(c, p, parsed.wildcards[i]).Some? {
      ProbesGrow(c, t.(probes := t.probes + TargetProbes(c, p, parsed.wildcards[i])),
                 Target(c, p, parsed.wildcards[i]).value, depth + 1);
    }
  }

  /** A search over files that agree on every probed path is the same search. */
  lemma {:induction false} SearchReadsProbes(c: Setting, c': Setting, t: Tables, p: Path, depth: nat)
    requires depth <= c.maxDepth + 1 && OtherFiles(c, c', Resolve(c, t, p, depth).0.probes)
    ensures Resolve(c', t, p, depth) == Resolve(c, t, p, depth)
    decreases c.maxDepth + 1 - depth, 1, 0
  {
    hide IsNodeSource, Target;
    if !Refused(c, t, p, depth) && p !in t.memo {
      var admitted := Admit(t.(calls := t.calls + 1), p);
      var inside := admitted.(active := admitted.active + {p});
      if ParseAt(c, p).Some? && ParseAt(c, p).value.localComplete && ParseAt(c, p).value.wildcards != [] {
        var parsed := ParseAt(c, p).value;
        WalkProbesGrow(c, inside, p, parsed, depth, 0, Start(p, parsed));
        assert c'.reader(p) == c.reader(p);
        WalkReadsProbes(c, c', inside, p, parsed, depth, 0, Start(p, parsed));
      } else {
        assert c'.reader(p) == c.reader(p);
      }
    }
  }

  lemma {:induction false} WalkReadsProbes(c: Setting, c': Setting, t: Tables, p: Path, parsed: Parsed, depth: nat,
      i: nat, f: Frame)
    requires depth <= c.maxDepth && i <= |parsed.wildcards|
    requires OtherFiles(c, c', Walk(c, t, p, parsed, depth, i, f).0.probes)
    ensures Walk(c', t, p, parsed, depth, i, f) == Walk(c, t, p, parsed, depth, i, f)
    decreases c.maxDepth + 1 - depth, 0, |parsed.wildcards| - i
  {
    hide Follow;
    var counted := t.(edges := t.edges + 1);
    if i < |parsed.wildcards| && counted.edges <= c.maxEdges {
      var (t', f') := Follow(c, counted, p, parsed, depth, i, f);
      WalkProbesGrow(c, t', p, parsed, depth, i + 1, f');
      FollowReadsProbes(c, c', counted, p, parsed, depth, i, f);
      WalkReadsProbes(c, c', t', p, parsed, depth, i + 1, f');
    }
  }

  lemma {:induction false} FollowReadsProbes(c: Setting, c': Setting, t: Tables, p: Path, parsed: Parsed, depth: nat,
      i: nat, f: Frame)
    requires depth <= c.maxDepth && i < |parsed.wildcards|
    requires OtherFiles(c, c', Follow(c, t, p, parsed, depth, i, f).0.probes)
    ensures Follow(c', t, p, parsed, depth, i, f) == Follow(c, t, p, parsed, depth, i, f)
    decreases c.maxDepth + 1 - depth, 0, |parsed.wildcards| - i - 1
  {
    hide Resolve, Account, Candidates;
    FollowProbesGrow(c, t, p, parsed, depth, i, f);
    PickReadsProbes(c.reader, c'.reader, Candidates(p, parsed.wildcards[i], c.root), None);
    var looked := t.(probes := t.probes + TargetProbes(c, p, parsed.wildcards[i]));
    match Target(c, p, parsed.wildcards[i])
    case None =>
    case Some(target) =>
      SearchReadsProbes(c, c', looked, target, depth + 1);
  }

  /** If two source readers agree on every path that the first search read, the second search reads
      the same paths and returns the same surface. */
  lemma FootprintDecides(c: Setting, c': Setting, path: Path)
    requires OtherFiles(c, c', ResolveTop(c, path).0.probes)
    ensures ResolveTop(c', path) == ResolveTop(c, path)
  {
    hide Resolve, Normalized;
    match (Normalized(c.root), Normalized(path))
    case (Some(root), Some(p)) =>
      if Within(p, root) {
        SearchReadsProbes(c.(root := root), c'.(root := root), EMPTY_TABLES, p, 0);
      }
    case (_, _) =>
  }
}
