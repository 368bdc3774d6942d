/**
 GetExportedNames and ResolveExport of Source Text Module Records (section 16.2.1.6 of ECMA-262,
 2023), restricted to what a parsed surface keeps: a module's own names and its star re-exports.
 Both methods thread one mutable list of visited modules, as the standard does. `linked` is the
 finite set of modules that the host loaded.
 */
module EcmaExports {
  import opened Wrappers
  import opened NodePaths
  import opened StarReexports
  import opened StarTables
  import opened StarMeaning

  function StarTarget(c: Setting, p: Path, i: nat): Option<Path>
    requires i < |Stars(c, p)|
  {
    Target(c, p, Stars(c, p)[i])
  }

  // ----- GetExportedNames -----

  function GetExportedNames(c: Setting, linked: set<Path>, p: Path, visited: set<Path>): (r: (set<Name>, set<Path>))
    ensures visited <= r.1
    decreases |linked - visited|, 0
  {
    if p in visited || p !in linked then ({}, visited)
    else
      Shrinks(linked, visited, p);
      var (names, visited') := StarNames(c, linked, p, 0, visited + {p});
      (LocalNames(c, p) + names, visited')
  }

  /** Names taken over from the star specifiers of `p` from index `i` on, never "default". */
  function StarNames(c: Setting, linked: set<Path>, p: Path, i: nat, visited: set<Path>): (r: (set<Name>, set<Path>))
    requires i <= |Stars(c, p)|
    ensures visited <= r.1
    decreases |linked - visited|, 1 + |Stars(c, p)| - i
  {
    if i == |Stars(c, p)| then ({}, visited)
    else
      match StarTarget(c, p, i)
      case None => StarNames(c, linked, p, i + 1, visited)
      case Some(t) =>
        var (names, visited') := GetExportedNames(c, linked, t, visited);
        Narrows(linked, visited, visited');
        var (more, visited'') := StarNames(c, linked, p, i + 1, visited');
        ((set n | n in names && n != "default") + more, visited'')
  }

  lemma Shrinks(linked: set<Path>, visited: set<Path>, p: Path)
    requires p in linked && p !in visited
    ensures |linked - (visited + {p})| < |linked - visited|
  {
    var rest := linked - (visited + {p});
    assert rest + {p} == linked - visited;
  }

  lemma Narrows(linked: set<Path>, visited: set<Path>, visited': set<Path>)
    requires visited <= visited'
    ensures |linked - visited'| <= |linked - visited|
  {
    SetSizes(linked - visited', linked - visited);
  }

  lemma {:induction false} SetSizes(a: set<Path>, b: set<Path>)
    requires a <= b
    ensures |a| <= |b|
  {
    if a != {} {
      var x :| x in a;
      SetSizes(a - {x}, b - {x});
    }
  }

  // ----- ResolveExport -----

  datatype Resolution = NotFound | Found(where: Path) | Ambiguous

  /** The exported name is the same at every step, so the resolve set is a set of modules. */
  function ResolveExport(c: Setting, linked: set<Path>, p: Path, n: Name,
      visited: set<Path>): (r: (Resolution, set<Path>))
    ensures visited <= r.1
    decreases |linked - visited|, 0
  {
    if p in visited || p !in linked then (NotFound, visited)
    else if n in LocalNames(c, p) then (Found(p), visited + {p})
    else if n == "default" then (NotFound, visited + {p})
    else
      Shrinks(linked, visited, p);
      StarResolution(c, linked, p, n, 0, NotFound, visited + {p})
  }

  function StarResolution(c: Setting, linked: set<Path>, p: Path, n: Name, i: nat, best: Resolution,
                          visited: set<Path>): (r: (Resolution, set<Path>))
    requires i <= |Stars(c, p)|
    ensures visited <= r.1
    decreases |linked - visited|, 1 + |Stars(c, p)| - i
  {
    if i == |Stars(c, p)| then (best, visited)
    else
      match StarTarget(c, p, i)
      case None => StarResolution(c, linked, p, n, i + 1, best, visited)
      case Some(t) =>
        var (found, visited') := ResolveExport(c, linked, t, n, visited);
        Narrows(linked, visited, visited');
        if found.Ambiguous? || (found.Found? && best.Found? && found != best) then (Ambiguous, visited')
        else StarResolution(c, linked, p, n, i + 1, if found.Found? then found else best, visited')
  }

  // ----- agreement with a table entry -----

  /** The visited modules behind `p`, other than `p` itself, are visited together with all that
      they reach. */
  ghost predicate ClosedBehind(m: Table, p: Path, visited: set<Path>)
    requires p in m
  {
    forall q :: q in visited && q in m[p].sourcePaths && q != p ==> q in m && m[q].sourcePaths <= visited
  }

  ghost predicate Declares(c: Setting, files: set<Path>, n: Name) {
    exists q :: q in files && n in LocalNames(c, q)
  }

  /** The modules behind the star specifiers of `p` from index `i` on. */
  ghost function Behind(c: Setting, m: Table, p: Path, i: nat): (files: set<Path>)
    requires IsTable(c, m) && p in m && i <= |Stars(c, p)|
    ensures files <= m[p].sourcePaths && p !in files
    decreases |Stars(c, p)| - i
  {
    if i == |Stars(c, p)| then {}
    else
      var t := TargetOfEntry(c, m, p, i);
      m[t].sourcePaths + Behind(c, m, p, i + 1)
  }

  ghost function TargetOfEntry(c: Setting, m: Table, p: Path, i: nat): (t: Path)
    requires IsTable(c, m) && p in m && i < |Stars(c, p)|
    ensures StarTarget(c, p, i) == Some(t) && StarEdge(c, p, t)
    ensures t in m && p !in m[t].sourcePaths && m[t].sourcePaths < m[p].sourcePaths
  {
    TargetsResolve(c, m, p, i);
    EdgeShrinks(c, m, p, StarTarget(c, p, i).value);
    StarTarget(c, p, i).value
  }

  lemma TargetsResolve(c: Setting, m: Table, p: Path, i: nat)
    requires IsTable(c, m) && p in m && i < |Stars(c, p)|
    ensures StarTarget(c, p, i).Some? && StarEdge(c, p, StarTarget(c, p, i).value)
  {
    hide Target, ParseAt, StarEdge, Assembled;
    assert Entry(c, m, p);
    var parsed := ParseAt(c, p).value;
    assert TargetAt(c, p, parsed, i) == StarTarget(c, p, i);
    IndexIsEdge(c, p, parsed, i);
  }

  lemma {:induction false} AllBehind(c: Setting, m: Table, p: Path, i: nat, t: Path)
    requires IsTable(c, m) && p in m && i <= |Stars(c, p)|
    requires exists j :: i <= j < |Stars(c, p)| && StarTarget(c, p, j) == Some(t)
    ensures t in m && m[t].sourcePaths <= Behind(c, m, p, i)
    decreases |Stars(c, p)| - i
  {
    hide Target, ParseAt, Entry, StarEdge;
    if StarTarget(c, p, i) != Some(t) {
      AllBehind(c, m, p, i + 1, t);
    } else {
      assert TargetOfEntry(c, m, p, i) == t;
    }
  }

  lemma BehindIsTheRest(c: Setting, m: Table, p: Path)
    requires IsTable(c, m) && p in m
    ensures {p} + Behind(c, m, p, 0) == m[p].sourcePaths
  {
    hide Target, ParseAt, Entry, Behind;
    EntryIsSource(c, m, p);
    forall q | q in m[p].sourcePaths && q != p ensures q in Behind(c, m, p, 0) {
      var t := SourceHasEdge(c, m, p, q);
      EdgeIsTarget(c, p, t);
      AllBehind(c, m, p, 0, t);
    }
  }

  lemma {:induction false} NamesAgree(c: Setting, m: Table, linked: set<Path>, p: Path, visited: set<Path>)
    requires IsTable(c, m) && p in m && m[p].sourcePaths <= linked
    requires ClosedBehind(m, p, visited) && (p in visited ==> m[p].sourcePaths <= visited)
    ensures var (names, visited') := GetExportedNames(c, linked, p, visited);
            && visited' == visited + m[p].sourcePaths
            && forall n :: n in names <==>
                 (p !in visited && n in LocalNames(c, p))
                     || (n != "default" && Declares(c, m[p].sourcePaths - visited, n))
    decreases m[p].sourcePaths, 1 + |Stars(c, p)|
  {
    hide Target, ParseAt, Entry, Behind, StarNames, LocalNames;
    EntryIsSource(c, m, p);
    if p !in visited {
      BehindIsTheRest(c, m, p);
      StarNamesAgree(c, m, linked, p, 0, visited + {p});
      var files, rest := m[p].sourcePaths - visited, Behind(c, m, p, 0) - (visited + {p});
      assert files == rest + {p};
      forall n ensures Declares(c, files, n) <==> n in LocalNames(c, p) || Declares(c, rest, n) {
        if n in LocalNames(c, p) {
          assert p in files;
        }
      }
    } else {
      assert m[p].sourcePaths - visited == {};
      assert visited + m[p].sourcePaths == visited;
    }
  }

  lemma {:induction false} StarNamesAgree(c: Setting, m: Table, linked: set<Path>, p: Path, i: nat, visited: set<Path>)
    requires IsTable(c, m) && p in m && m[p].sourcePaths <= linked && i <= |Stars(c, p)|
    requires ClosedBehind(m, p, visited)
    ensures var (names, visited') := StarNames(c, linked, p, i, visited);
            && visited' == visited + Behind(c, m, p, i)
            && forall n :: n in names <==> n != "default" && Declares(c, Behind(c, m, p, i) - visited, n)
    decreases m[p].sourcePaths, |Stars(c, p)| - i
  {
    hide Target, ParseAt, Entry, StarEdge, GetExportedNames, LocalNames;
    if i < |Stars(c, p)| {
      var t := TargetOfEntry(c, m, p, i);
      forall q | q in visited && q in m[t].sourcePaths ensures q in m && m[q].sourcePaths <= visited {
      }
      EntryIsSource(c, m, t);
      NamesAgree(c, m, linked, t, visited);
      var (names, visited') := GetExportedNames(c, linked, t, visited);
      forall q | q in visited' && q in m[p].sourcePaths && q != p ensures q in m && m[q].sourcePaths <= visited' {
        if q in m[t].sourcePaths {
          SourcesNest(c, m, t, q);
        }
      }
      StarNamesAgree(c, m, linked, p, i + 1, visited');
      var here, later := m[t].sourcePaths - visited, Behind(c, m, p, i + 1) - visited';
      SplitDeclares(c, here, later);
      assert Behind(c, m, p, i) - visited == here + later;
      forall n ensures n in names && n != "default" <==> n != "default" && Declares(c, here, n) {
        if t !in visited && n in LocalNames(c, t) {
          assert t in here;
        }
      }
    }
  }

  lemma SplitDeclares(c: Setting, here: set<Path>, later: set<Path>)
    ensures forall n :: Declares(c, here + later, n) <==> Declares(c, here, n) || Declares(c, later, n)
  {
    hide LocalNames;
    forall n | Declares(c, here, n) || Declares(c, later, n) ensures Declares(c, here + later, n) {
      var q :| (q in here || q in later) && n in LocalNames(c, q);
      assert q in here + later;
    }
  }

  /** GetExportedNames lists exactly the symbols of the entry. */
  lemma ExportedNamesAreSymbols(c: Setting, m: Table, linked: set<Path>, p: Path)
    requires IsTable(c, m) && p in m && m[p].sourcePaths <= linked
    ensures GetExportedNames(c, linked, p, {}).0 == m[p].symbols
  {
    hide Target, ParseAt, Entry, LocalNames, GetExportedNames;
    NamesAgree(c, m, linked, p, {});
    assert m[p].sourcePaths - {} == m[p].sourcePaths;
    forall n ensures n in m[p].symbols <==> n in GetExportedNames(c, linked, p, {}).0 {
      NamesAreReachableLocals(c, m, p, n);
      assert Declares(c, m[p].sourcePaths, n) <==> exists q :: q in m[p].sourcePaths && n in LocalNames(c, q);
    }
  }

  /** What ResolveExport must answer for an entry. */
  ghost function Expected(c: Setting, m: Table, p: Path, n: Name): Resolution
    requires IsTable(c, m) && p in m
  {
    if n in m[p].symbols then Found(Origin(c, m, p, n)) else NotFound
  }

  /** No visited module behind `p` exports `n`. */
  ghost predicate Unspent(m: Table, p: Path, n: Name, visited: set<Path>)
    requires p in m
  {
    forall q :: q in visited && q in m[p].sourcePaths && q in m ==> n !in m[q].symbols
  }

  lemma {:induction false} ResolutionAgrees(c: Setting, m: Table, linked: set<Path>, p: Path, n: Name,
      visited: set<Path>)
    requires IsTable(c, m) && p in m && m[p].sourcePaths <= linked && Unspent(m, p, n, visited)
    ensures var (found, visited') := ResolveExport(c, linked, p, n, visited);
            && found == Expected(c, m, p, n) && visited' <= visited + m[p].sourcePaths && p in visited'
    decreases m[p].sourcePaths, 1 + |Stars(c, p)|
  {
    hide Target, ParseAt, Entry, StarEdge, StarResolution, LocalNames;
    EntryIsSource(c, m, p);
    SymbolsOfEntry(c, m, p);
    if p !in visited && n !in LocalNames(c, p) {
      if n == "default" {
      } else {
        StarResolutionAgrees(c, m, linked, p, n, 0, NotFound, visited + {p});
        if n in m[p].symbols {
          var t :| StarEdge(c, p, t) && GivesName(c, m, p, t, n);
          EdgeIsTarget(c, p, t);
        }
      }
    }
  }

  lemma EdgeIsTarget(c: Setting, p: Path, t: Path)
    requires StarEdge(c, p, t)
    ensures exists i :: 0 <= i < |Stars(c, p)| && StarTarget(c, p, i) == Some(t)
  {
    hide Target, ParseAt;
    var i :| 0 <= i < |Stars(c, p)| && Target(c, p, Stars(c, p)[i]) == Some(t);
    assert StarTarget(c, p, i) == Some(t);
  }

  /** `best` is what the specifiers before `i` gave: nothing yet, or the one supplier's answer. */
  ghost predicate SoFar(c: Setting, m: Table, p: Path, n: Name, best: Resolution, visited: set<Path>)
    requires IsTable(c, m) && p in m
  {
    if best.NotFound? then forall q :: q in visited && q in m[p].sourcePaths && q != p && q in m ==> n !in m[q].symbols
    else exists t :: StarEdge(c, p, t) && GivesName(c, m, p, t, n) && t in visited && best == Expected(c, m, t, n)
  }

  lemma {:induction false} StarResolutionAgrees(c: Setting, m: Table, linked: set<Path>, p: Path, n: Name, i: nat,
                                                best: Resolution, visited: set<Path>)
    requires IsTable(c, m) && p in m && m[p].sourcePaths <= linked && i <= |Stars(c, p)|
    requires n !in LocalNames(c, p) && n != "default" && p in visited
    requires SoFar(c, m, p, n, best, visited)
    ensures var (found, visited') := StarResolution(c, linked, p, n, i, best, visited);
            && visited' <= visited + m[p].sourcePaths && p in visited'
            && SoFar(c, m, p, n, found, visited') && (best.Found? ==> found.Found?)
            && (found.NotFound? ==> forall j :: i <= j < |Stars(c, p)| ==>
                  var t := StarTarget(c, p, j); t.Some? && !GivesName(c, m, p, t.value, n))
    decreases m[p].sourcePaths, |Stars(c, p)| - i
  {
    hide Target, ParseAt, Entry, StarEdge, ResolveExport, LocalNames;
    if i < |Stars(c, p)| {
      var t := TargetOfEntry(c, m, p, i);
      var (found, visited') := ResolveExport(c, linked, t, n, visited);
      StarStepAgrees(c, m, linked, p, n, t, best, visited);
      var best' := if found.Found? then found else best;
      StarResolutionAgrees(c, m, linked, p, n, i + 1, best', visited');
    }
  }

  /** One specifier keeps `SoFar` and is never ambiguous. */
  lemma StarStepAgrees(c: Setting, m: Table, linked: set<Path>, p: Path, n: Name, t: Path, best: Resolution,
      visited: set<Path>)
    requires IsTable(c, m) && p in m && m[p].sourcePaths <= linked
    requires n !in LocalNames(c, p) && n != "default"
    requires StarEdge(c, p, t) && t in m && p !in m[t].sourcePaths && m[t].sourcePaths < m[p].sourcePaths
    requires SoFar(c, m, p, n, best, visited)
    ensures var (found, visited') := ResolveExport(c, linked, t, n, visited);
            && !found.Ambiguous? && (found.Found? && best.Found? ==> found == best)
            && visited' <= visited + m[p].sourcePaths
            && SoFar(c, m, p, n, if found.Found? then found else best, visited')
            && (found.NotFound? && best.NotFound? ==> !GivesName(c, m, p, t, n))
    decreases m[p].sourcePaths, 0
  {
    hide Target, ParseAt, Entry, StarEdge, LocalNames, StarResolution;
    SymbolsOfEntry(c, m, p);
    var supplier: Path;
    if best.NotFound? {
      ResolutionAgrees(c, m, linked, t, n, visited);
      if n !in m[t].symbols {
        NotFoundSpendsNothing(c, m, linked, p, n, t, visited);
      } else {
        assert GivesName(c, m, p, t, n);
      }
    } else {
      supplier :| StarEdge(c, p, supplier) && GivesName(c, m, p, supplier, n) && supplier in visited
                  && best == Expected(c, m, supplier, n);
      if t != supplier {
        assert !GivesName(c, m, p, t, n);
        forall q | q in visited && q in m[t].sourcePaths && q in m ensures n !in m[q].symbols {
          if n in m[q].symbols {
            NamesPassUp(c, m, t, q, n);
          }
        }
        ResolutionAgrees(c, m, linked, t, n, visited);
      }
    }
  }

  lemma NotFoundSpendsNothing(c: Setting, m: Table, linked: set<Path>, p: Path, n: Name, t: Path, visited: set<Path>)
    requires IsTable(c, m) && p in m && t in m && m[t].sourcePaths < m[p].sourcePaths && n != "default"
    requires n !in m[t].symbols && ResolveExport(c, linked, t, n, visited).1 <= visited + m[t].sourcePaths
    requires forall q :: q in visited && q in m[p].sourcePaths && q != p && q in m ==> n !in m[q].symbols
    ensures forall q :: q in ResolveExport(c, linked, t, n, visited).1 && q in m[p].sourcePaths && q != p && q in m
              ==> n !in m[q].symbols
  {
    hide Target, ParseAt, Entry, ResolveExport;
    forall q | q in m[t].sourcePaths && q in m ensures n !in m[q].symbols {
      if n in m[q].symbols {
        NamesPassUp(c, m, t, q, n);
      }
    }
  }
}
