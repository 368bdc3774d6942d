/**
 The meaning of a table entry, against two references that know no memo and no budget: paths of star
 edges, and the GetExportedNames and ResolveExport methods of Source Text Module Records
 (section 16.2.1.6 of ECMA-262, 2023).
 */
module StarMeaning {
  import opened Wrappers
  import opened NodePaths
  import opened StarReexports
  import opened StarTables

  function Stars(c: Setting, p: Path): seq<string> {
    match ParseAt(c, p) case None => [] case Some(parsed) => parsed.wildcards
  }

  function LocalNames(c: Setting, p: Path): set<Name> {
    match ParseAt(c, p) case None => {} case Some(parsed) => parsed.symbols
  }

  function LocalShapes(c: Setting, p: Path): map<Name, nat> {
    match ParseAt(c, p) case None => map[] case Some(parsed) => parsed.minArgs
  }

  // ----- paths of star edges -----

  ghost predicate StarEdge(c: Setting, a: Path, b: Path) {
    exists i :: 0 <= i < |Stars(c, a)| && Target(c, a, Stars(c, a)[i]) == Some(b)
  }

  ghost predicate StarPath(c: Setting, w: seq<Path>) {
    w != [] && forall i :: 0 <= i < |w| - 1 ==> StarEdge(c, w[i], w[i + 1])
  }

  ghost predicate Leads(c: Setting, w: seq<Path>, a: Path, b: Path) {
    StarPath(c, w) && w[0] == a && w[|w| - 1] == b
  }

  ghost predicate Reaches(c: Setting, a: Path, b: Path) {
    exists w :: Leads(c, w, a, b)
  }

  /** No chain of star re-exports that starts at `p` visits a module twice. */
  ghost predicate NoStarCycle(c: Setting, p: Path) {
    forall w :: StarPath(c, w) && w[0] == p ==> forall i, j :: 0 <= i < j < |w| ==> w[i] != w[j]
  }

  lemma EdgeHasIndex(c: Setting, p: Path, parsed: Parsed, t: Path) returns (i: nat)
    requires ParseAt(c, p) == Some(parsed) && StarEdge(c, p, t)
    ensures i < |parsed.wildcards| && TargetAt(c, p, parsed, i) == Some(t)
  {
    hide Target, ParseAt;
    i :| 0 <= i < |Stars(c, p)| && Target(c, p, Stars(c, p)[i]) == Some(t);
  }

  lemma IndexIsEdge(c: Setting, p: Path, parsed: Parsed, i: nat)
    requires ParseAt(c, p) == Some(parsed)
    requires i < |parsed.wildcards| && TargetAt(c, p, parsed, i).Some?
    ensures StarEdge(c, p, TargetAt(c, p, parsed, i).value)
  {
    hide Target, ParseAt;
    assert Target(c, p, Stars(c, p)[i]) == TargetAt(c, p, parsed, i);
  }

  lemma EntryIsSource(c: Setting, m: Table, p: Path)
    requires IsTable(c, m) && p in m
    ensures p in m[p].sourcePaths && ParseAt(c, p).Some?
  {
    hide Target, ParseAt, Supplies, Supplied, Feeds, Linked;
    assert Entry(c, m, p);
  }

  /** A star edge out of an entry leads to an entry that was built from strictly fewer files. */
  lemma EdgeShrinks(c: Setting, m: Table, p: Path, t: Path)
    requires IsTable(c, m) && p in m && StarEdge(c, p, t)
    ensures t in m && p in m[p].sourcePaths && p !in m[t].sourcePaths && m[t].sourcePaths < m[p].sourcePaths
  {
    hide Target, ParseAt, StarEdge, Supplies, Supplied;
    assert Entry(c, m, p);
    var parsed := ParseAt(c, p).value;
    var i := EdgeHasIndex(c, p, parsed, t);
    forall q | q in m[t].sourcePaths ensures q in m[p].sourcePaths {
      assert Feeds(c, m, p, parsed, |parsed.wildcards|, q);
    }
  }

  lemma SourceHasEdge(c: Setting, m: Table, p: Path, q: Path) returns (t: Path)
    requires IsTable(c, m) && p in m && q in m[p].sourcePaths && q != p
    ensures StarEdge(c, p, t) && t in m && q in m[t].sourcePaths
  {
    hide Target, ParseAt, StarEdge, Supplies, Supplied, Linked;
    assert Entry(c, m, p);
    var parsed := ParseAt(c, p).value;
    assert Feeds(c, m, p, parsed, |parsed.wildcards|, q);
    var i :| 0 <= i < |parsed.wildcards| &&
      var t := TargetAt(c, p, parsed, i); t.Some? && t.value in m && q in m[t.value].sourcePaths;
    t := TargetAt(c, p, parsed, i).value;
    IndexIsEdge(c, p, parsed, i);
  }

  lemma {:induction false} PathStaysInSources(c: Setting, m: Table, w: seq<Path>)
    requires IsTable(c, m) && StarPath(c, w) && w[0] in m
    ensures forall i :: 0 <= i < |w| ==>
              w[i] in m && m[w[i]].sourcePaths <= m[w[0]].sourcePaths && w[i] in m[w[0]].sourcePaths
    ensures forall i :: 0 < i < |w| ==> w[0] != w[i]
    decreases |w|
  {
    hide Target, StarEdge, Entry;
    if |w| > 1 {
      assert StarEdge(c, w[0], w[1]);
      EdgeShrinks(c, m, w[0], w[1]);
      var rest := w[1..];
      assert forall i :: 0 <= i < |rest| ==> rest[i] == w[i + 1];
      PathStaysInSources(c, m, rest);
      forall i | 0 < i < |w|
        ensures w[i] in m && m[w[i]].sourcePaths <= m[w[0]].sourcePaths && w[i] in m[w[0]].sourcePaths && w[i] != w[0]
      {
        assert w[i] == rest[i - 1];
      }
    } else {
      EntryIsSource(c, m, w[0]);
    }
  }

  lemma EntryHasNoStarCycle(c: Setting, m: Table, p: Path)
    requires IsTable(c, m) && p in m
    ensures NoStarCycle(c, p)
  {
    hide Target, StarEdge, Entry;
    forall w, i, j | StarPath(c, w) && w[0] == p && 0 <= i < j < |w| ensures w[i] != w[j] {
      PathStaysInSources(c, m, w);
      var rest := w[i..];
      assert forall k :: 0 <= k < |rest| ==> rest[k] == w[i + k];
      PathStaysInSources(c, m, rest);
      assert rest[j - i] == w[j];
    }
  }

  lemma {:induction false} SourceIsReached(c: Setting, m: Table, p: Path, q: Path)
    requires IsTable(c, m) && p in m && q in m[p].sourcePaths
    ensures Reaches(c, p, q)
    decreases m[p].sourcePaths
  {
    hide Target, StarEdge, Entry;
    if q == p {
      assert Leads(c, [p], p, p);
    } else {
      var t := SourceHasEdge(c, m, p, q);
      EdgeShrinks(c, m, p, t);
      SourceIsReached(c, m, t, q);
      var w :| Leads(c, w, t, q);
      var longer := [p] + w;
      forall i | 0 <= i < |longer| - 1 ensures StarEdge(c, longer[i], longer[i + 1]) {
        if i > 0 {
          assert longer[i] == w[i - 1] && longer[i + 1] == w[i];
        }
      }
      assert Leads(c, longer, p, q);
    }
  }

  /** `source_paths` of an entry is exactly the set of modules that star edges reach. */
  lemma SourcesAreReachable(c: Setting, m: Table, p: Path)
    requires IsTable(c, m) && p in m
    ensures forall q :: q in m[p].sourcePaths <==> Reaches(c, p, q)
  {
    hide Target, StarEdge, Entry;
    forall q | Reaches(c, p, q) ensures q in m[p].sourcePaths {
      var w :| Leads(c, w, p, q);
      PathStaysInSources(c, m, w);
    }
    forall q | q in m[p].sourcePaths ensures Reaches(c, p, q) {
      SourceIsReached(c, m, p, q);
    }
  }

  lemma SourcesNest(c: Setting, m: Table, p: Path, q: Path)
    requires IsTable(c, m) && p in m && q in m[p].sourcePaths
    ensures q in m && m[q].sourcePaths <= m[p].sourcePaths
  {
    hide Target, Entry, StarEdge;
    SourceIsReached(c, m, p, q);
    var w :| Leads(c, w, p, q);
    PathStaysInSources(c, m, w);
  }

  // ----- names -----

  /** Who gives `p` the name `n`: the module itself or the one target that passes it on. */
  lemma SymbolsOfEntry(c: Setting, m: Table, p: Path)
    requires IsTable(c, m) && p in m
    ensures forall n :: n in m[p].symbols <==>
              n in LocalNames(c, p) || exists t :: StarEdge(c, p, t) && GivesName(c, m, p, t, n)
    ensures forall n, t, t' ::
              StarEdge(c, p, t) && GivesName(c, m, p, t, n) && StarEdge(c, p, t') && GivesName(c, m, p, t', n)
              ==> t == t'
    ensures forall n, t :: StarEdge(c, p, t) && GivesName(c, m, p, t, n) ==>
              n in m[p].symbols && SameShape(m[p].minArgs, m[t].minArgs, n)
    ensures forall n :: n in LocalNames(c, p) ==> SameShape(m[p].minArgs, LocalShapes(c, p), n)
  {
    hide Target, ParseAt, StarEdge, Feeds, Linked;
    assert Entry(c, m, p);
    var parsed := ParseAt(c, p).value;
    var k := |parsed.wildcards|;
    forall n, t ensures Supplies(c, m, p, parsed, k, n, t) <==> StarEdge(c, p, t) && GivesName(c, m, p, t, n) {
      SupplyIsEdge(c, m, p, parsed, k, n, t);
    }
  }

  lemma SupplyIsEdge(c: Setting, m: Table, p: Path, parsed: Parsed, k: nat, n: Name, t: Path)
    requires ParseAt(c, p) == Some(parsed) && k == |parsed.wildcards|
    ensures Supplies(c, m, p, parsed, k, n, t) <==> StarEdge(c, p, t) && GivesName(c, m, p, t, n)
  {
    hide Target, ParseAt, StarEdge;
    if StarEdge(c, p, t) {
      var i := EdgeHasIndex(c, p, parsed, t);
    }
    if Supplies(c, m, p, parsed, k, n, t) {
      var i :| 0 <= i < k && TargetAt(c, p, parsed, i) == Some(t);
      IndexIsEdge(c, p, parsed, i);
    }
  }

  ghost predicate GivesName(c: Setting, m: Table, p: Path, t: Path, n: Name) {
    t in m && n in m[t].symbols && n != "default" && n !in LocalNames(c, p)
  }

  /** A name other than "default" is an entry's name iff some module behind it declares it. */
  lemma {:induction false} NamesAreReachableLocals(c: Setting, m: Table, p: Path, n: Name)
    requires IsTable(c, m) && p in m
    ensures n in m[p].symbols <==>
              n in LocalNames(c, p) || (n != "default" && exists q :: q in m[p].sourcePaths && n in LocalNames(c, q))
    decreases m[p].sourcePaths
  {
    hide Target, StarEdge, Entry, LocalNames;
    SymbolsOfEntry(c, m, p);
    if n in m[p].symbols && n !in LocalNames(c, p) {
      var t :| StarEdge(c, p, t) && GivesName(c, m, p, t, n);
      EdgeShrinks(c, m, p, t);
      NamesAreReachableLocals(c, m, t, n);
      if n in LocalNames(c, t) {
        EntryIsSource(c, m, t);
        assert t in m[p].sourcePaths;
      }
    }
    if n != "default" && n !in LocalNames(c, p) && exists q :: q in m[p].sourcePaths && n in LocalNames(c, q) {
      var q :| q in m[p].sourcePaths && n in LocalNames(c, q);
      var t := SourceHasEdge(c, m, p, q);
      EdgeShrinks(c, m, p, t);
      NamesAreReachableLocals(c, m, t, n);
      assert StarEdge(c, p, t) && GivesName(c, m, p, t, n);
    }
  }

  lemma NamesPassUp(c: Setting, m: Table, p: Path, q: Path, n: Name)
    requires IsTable(c, m) && p in m && q in m[p].sourcePaths && n != "default"
    requires q in m && n in m[q].symbols
    ensures n in m[p].symbols
  {
    hide Target, StarEdge, Entry, LocalNames, StarPath;
    NamesAreReachableLocals(c, m, p, n);
    NamesAreReachableLocals(c, m, q, n);
    SourcesNest(c, m, p, q);
  }

  /** The module whose own declaration an exported name finally denotes. */
  ghost function Origin(c: Setting, m: Table, p: Path, n: Name): (o: Path)
    requires IsTable(c, m) && p in m && n in m[p].symbols
    ensures o in m[p].sourcePaths && n in LocalNames(c, o)
    ensures SameShape(m[p].minArgs, LocalShapes(c, o), n)
    decreases m[p].sourcePaths
  {
    SymbolsOfEntry(c, m, p);
    if n in LocalNames(c, p) then
      EntryIsSource(c, m, p);
      p
    else
      var t :| StarEdge(c, p, t) && GivesName(c, m, p, t, n);
      EdgeShrinks(c, m, p, t);
      Origin(c, m, t, n)
  }
}
