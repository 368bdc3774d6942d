/**
 Comparing the exports of published Node targets before and after a change
 (`risk.py`, lines 696-827). The comparison of a target is skipped when none of the
 files that either search read has changed; the module proves that the skip loses no finding.
 */
module PublishedExports {
  import opened Wrappers
  import opened NodePaths
  import opened StarReexports
  import opened ResolverTheorems
  import opened TextOrder

  /** What a change broke, without the file it is reported for. */
  datatype Break =
    | Unproven
    | ExportRemoved(symbol: Name)
    | ArityIncreased(symbol: Name, before: nat, after: nat)

  /** `path` is the text of the changed file that the break is reported for. */
  datatype Finding = Finding(path: string, what: Break)

  const TYPESCRIPT_SUFFIXES: seq<string> := [".ts", ".tsx", ".mts", ".cts"]

  predicate IsTypeScript(p: Path) {
    p != [] && var name := p[|p| - 1];
    exists i :: 0 <= i < |TYPESCRIPT_SUFFIXES| && EndsWith(name, TYPESCRIPT_SUFFIXES[i])
  }

  predicate EndsWith(name: string, suffix: string) {
    |suffix| <= |name|
    && Lower(name[|name| - |suffix|..]) == suffix
  }

  function Removed(before: Surface, after: Surface): set<Break> {
    set n | n in before.symbols - after.symbols :: ExportRemoved(n)
  }

  function Raised(before: Surface, after: Surface): set<Break> {
    set n | n in before.minArgs && n in after.minArgs && after.minArgs[n] > before.minArgs[n]
      :: ArityIncreased(n, before.minArgs[n], after.minArgs[n])
  }

  /** The breaks between two resolved surfaces of a target. */
  function Breaks(target: Path, before: Option<Surface>, after: Option<Surface>): set<Break> {
    if before.None? || !before.value.complete || after.None? then {}
    else if !after.value.complete then {Unproven}
    else Removed(before.value, after.value)
         + (if IsTypeScript(target) then Raised(before.value, after.value) else {})
  }

  function Sources(s: Option<Surface>): set<Path> {
    match s case None => {} case Some(surface) => surface.sourcePaths
  }

  /** Every file that either search of the target read or names. */
  function SurfacePaths(base: Setting, candidate: Setting, target: Path): set<Path> {
    var (t, before) := ResolveTop(base, target);
    var (t', after) := ResolveTop(candidate, target);
    t.probes + t'.probes + {target} + Sources(before) + Sources(after)
  }

  predicate HasStars(s: Option<Parsed>) {
    s.Some? && s.value.wildcards != []
  }

  /** An unchanged target is looked into only if it parses on both sides and has stars on one. */
  predicate LookInto(base: Setting, candidate: Setting, changed: set<Path>, target: Path) {
    || target in changed
    || (ParseAt(base, target).Some? && ParseAt(candidate, target).Some?
        && (HasStars(ParseAt(base, target)) || HasStars(ParseAt(candidate, target))))
  }


  // ----- the list of findings -----

  /** The text of a path (`as_posix`). */
  function Text(p: Path): string {
    if p == [] then "." else Join(p)
  }

  /** The text of a repository path names that path and no other. */
  lemma TextNamesPath(p: Path)
    requires IsNormal(p) && NoSlash(p)
    ensures Parts(Text(p)) == p
  {
    PartsOfJoin(p);
    PartsOfName(".");
  }

  /** A file is TypeScript by its last extension, in either case. */
  lemma TypeScriptIs(d: Path, stem: string, ext: string)
    requires '.' !in ext
    ensures IsTypeScript(d + [stem + "." + ext]) <==>
              Lower(ext) == "ts" || Lower(ext) == "tsx" || Lower(ext) == "mts" || Lower(ext) == "cts"
  {
    hide EndsWith, IsTypeScript, Lower;
    var name := stem + "." + ext;
    forall kind | kind in {"ts", "tsx", "mts", "cts"} ensures EndsWith(name, "." + kind) <==> Lower(ext) == kind {
      EndsWithIs(stem, ext, kind);
    }
    TypeScriptByName(d, name);
    assert "." + "ts" == ".ts" && "." + "tsx" == ".tsx" && "." + "mts" == ".mts" && "." + "cts" == ".cts";
  }

  lemma TypeScriptByName(d: Path, name: string)
    ensures IsTypeScript(d + [name]) <==>
              EndsWith(name, ".ts") || EndsWith(name, ".tsx") || EndsWith(name, ".mts") || EndsWith(name, ".cts")
  {
    hide EndsWith;
    assert TYPESCRIPT_SUFFIXES[0] == ".ts" && TYPESCRIPT_SUFFIXES[1] == ".tsx";
    assert TYPESCRIPT_SUFFIXES[2] == ".mts" && TYPESCRIPT_SUFFIXES[3] == ".cts";
  }

  lemma EndsWithIs(stem: string, ext: string, kind: string)
    requires '.' !in ext && '.' !in kind
    ensures EndsWith(stem + "." + ext, "." + kind) <==> Lower(ext) == kind
  {
    var name, n := stem + "." + ext, 1 + |kind|;
    if |ext| == |kind| {
      assert name[|name| - n..] == "." + ext;
      assert Lower("." + ext)[1..] == Lower(ext) && Lower("." + ext)[0] == '.';
      assert ("." + kind)[1..] == kind;
    } else if |ext| > |kind| {
      var last := name[|name| - n..];
      assert last[0] == ext[|ext| - n] && ext[|ext| - n] in ext;
      assert Lower(last)[0] != '.';
    } else if n <= |name| {
      var last := name[|name| - n..];
      var dot := |kind| - |ext|;
      assert last[dot] == '.' && Lower(last)[dot] == '.';
      assert ("." + kind)[dot] == kind[dot - 1] && kind[dot - 1] in kind;
    }
  }

  function Texts(paths: set<Path>): set<string> {
    set p | p in paths :: Text(p)
  }

  /** The file a target's breaks are reported for: the target itself if it changed, else the first changed file
      that either search touched. */
  ghost function ReportedFor(changed: set<Path>, affected: set<Path>, target: Path): string {
    if target in changed || affected == {} then Text(target) else
      TextsAreSome(affected);
      Sorted(Texts(affected))[0]
  }

  lemma TextsAreSome(paths: set<Path>)
    requires paths != {}
    ensures Sorted(Texts(paths)) != [] && Sorted(Texts(paths))[0] in Texts(paths)
  {
    var p :| p in paths;
    assert Text(p) in Texts(paths);
    FirstIsLeast(Sorted(Texts(paths)), Texts(paths), Text(p));
    assert Sorted(Texts(paths))[0] in Sorted(Texts(paths));
  }

  function RemovedList(path: string, names: seq<string>): seq<Finding> {
    seq(|names|, i requires 0 <= i < |names| => Finding(path, ExportRemoved(names[i])))
  }

  /** Names whose minimum argument count has grown. */
  function RaisedNames(before: Surface, after: Surface): set<Name> {
    set n | n in before.minArgs && n in after.minArgs && after.minArgs[n] > before.minArgs[n]
  }

  function RaisedList(path: string, names: seq<string>, before: Surface, after: Surface): seq<Finding>
    requires forall n :: n in names ==> n in before.minArgs && n in after.minArgs
  {
    seq(|names|, i requires 0 <= i < |names| =>
      Finding(path, ArityIncreased(names[i], before.minArgs[names[i]], after.minArgs[names[i]])))
  }

  /** The breaks between two surfaces, in the order they are found. */
  ghost function ListOf(target: Path, before: Option<Surface>, after: Option<Surface>, path: string): seq<Finding> {
    if before.None? || !before.value.complete || after.None? then []
    else if !after.value.complete then [Finding(path, Unproven)]
    else
      RemovedList(path, Sorted(before.value.symbols - after.value.symbols))
      + if IsTypeScript(target)
        then RaisedList(path, Sorted(RaisedNames(before.value, after.value)), before.value, after.value) else []
  }

  /** The findings of one target, with both skips. */
  ghost function TargetList(base: Setting, candidate: Setting, changed: set<Path>, target: Path): seq<Finding> {
    var affected := changed * SurfacePaths(base, candidate, target);
    if !LookInto(base, candidate, changed, target) || affected == {} then []
    else
      ListOf(target, ResolveTop(base, target).1, ResolveTop(candidate, target).1,
          ReportedFor(changed, affected, target))
  }

  /** The breaks that findings report. */
  function Whats(findings: seq<Finding>): set<Break> {
    set f | f in findings :: f.what
  }

  lemma RemovedListSays(path: string, names: seq<string>, all: set<string>)
    requires InOrder(names, all)
    ensures Whats(RemovedList(path, names)) == set n | n in all :: ExportRemoved(n)
  {
    hide AtMost;
    var list := RemovedList(path, names);
    forall n | n in all ensures Finding(path, ExportRemoved(n)) in list {
      var i :| 0 <= i < |names| && names[i] == n;
      assert list[i] == Finding(path, ExportRemoved(n));
    }
    forall f | f in list ensures f.what.ExportRemoved? && f.what.symbol in all {
      var i :| 0 <= i < |list| && list[i] == f;
      assert names[i] in names;
    }
  }

  lemma RaisedListSays(path: string, names: seq<string>, before: Surface, after: Surface)
    requires InOrder(names, RaisedNames(before, after))
    ensures forall n :: n in names ==> n in before.minArgs && n in after.minArgs
    ensures Whats(RaisedList(path, names, before, after)) == Raised(before, after)
  {
    hide AtMost;
    var list := RaisedList(path, names, before, after);
    forall n | n in RaisedNames(before, after)
      ensures Finding(path, ArityIncreased(n, before.minArgs[n], after.minArgs[n])) in list
    {
      var i :| 0 <= i < |names| && names[i] == n;
      assert list[i] == Finding(path, ArityIncreased(n, before.minArgs[n], after.minArgs[n]));
    }
    forall f | f in list ensures f.what in Raised(before, after) {
      var i :| 0 <= i < |list| && list[i] == f;
      assert names[i] in names;
    }
  }

  /** The list of a target holds exactly the breaks between its two surfaces, each reported for a changed file; a
      target that is skipped has none. */
  lemma TargetListSays(base: Setting, candidate: Setting, changed: set<Path>, target: Path)
    ensures Whats(TargetList(base, candidate, changed, target)) ==
              if LookInto(base, candidate, changed, target) && changed * SurfacePaths(base, candidate, target) != {}
              then Breaks(target, ResolveTop(base, target).1, ResolveTop(candidate, target).1) else {}
    ensures forall f :: f in TargetList(base, candidate, changed, target) ==>
              f.path in Texts(changed) && (target in changed ==> f.path == Text(target))
  {
    hide ResolveTop, LookInto, IsTypeScript, SurfacePaths, ParseAt;
    var affected := changed * SurfacePaths(base, candidate, target);
    var before, after := ResolveTop(base, target).1, ResolveTop(candidate, target).1;
    if affected != {} {
      TextsAreSome(affected);
      ListSays(target, before, after, ReportedFor(changed, affected, target));
    }
  }

  /** Either search of the target read the file, or one of the two surfaces comes from it, or it is the target. */
  ghost predicate Touched(base: Setting, candidate: Setting, target: Path, p: Path) {
    var (t, before) := ResolveTop(base, target);
    var (t', after) := ResolveTop(candidate, target);
    || p == target || p in t.probes || p in t'.probes
    || (before.Some? && p in before.value.sourcePaths) || (after.Some? && p in after.value.sourcePaths)
  }

  /** The breaks of an unchanged target are reported for a changed file that its searches touched, the one whose text
      comes first; without such a file there are none. */
  lemma ReportedIs(base: Setting, candidate: Setting, changed: set<Path>, target: Path, f: Finding)
    requires f in TargetList(base, candidate, changed, target) && target !in changed
    ensures exists p :: p in changed && Touched(base, candidate, target, p) && f.path == Text(p)
    ensures forall p :: p in changed && Touched(base, candidate, target, p) ==> AtMost(f.path, Text(p))
  {
    hide ResolveTop, LookInto, IsTypeScript, ParseAt, AtMost, ListOf, Text;
    var affected := changed * SurfacePaths(base, candidate, target);
    var before, after := ResolveTop(base, target).1, ResolveTop(candidate, target).1;
    ListSays(target, before, after, ReportedFor(changed, affected, target));
    TextsAreSome(affected);
    forall p | p in changed && Touched(base, candidate, target, p) ensures AtMost(f.path, Text(p)) {
      assert p in affected;
      FirstIsLeast(Sorted(Texts(affected)), Texts(affected), Text(p));
    }
  }

  lemma ListSays(target: Path, before: Option<Surface>, after: Option<Surface>, path: string)
    ensures Whats(ListOf(target, before, after, path)) == Breaks(target, before, after)
    ensures forall f :: f in ListOf(target, before, after, path) ==> f.path == path
  {
    hide IsTypeScript, Raised;
    if before.Some? && before.value.complete && after.Some? && after.value.complete {
      var removed := before.value.symbols - after.value.symbols;
      RemovedListSays(path, Sorted(removed), removed);
      RaisedListSays(path, Sorted(RaisedNames(before.value, after.value)), before.value, after.value);
      var first := RemovedList(path, Sorted(removed));
      var second := RaisedList(path, Sorted(RaisedNames(before.value, after.value)), before.value, after.value);
      assert forall f :: f in first + second <==> f in first || f in second;
    }
  }

  // ----- the stop at twenty -----

  const LIMIT := 20

  /** Append findings one by one; the limit is looked at after every finding but the unproven ones. The second
      component says that it was reached. */
  function Collected(found: seq<Finding>, more: seq<Finding>): (seq<Finding>, bool)
    decreases |more|
  {
    if more == [] then (found, false)
    else
      var longer := found + [more[0]];
      if more[0].what != Unproven && |longer| >= LIMIT then (longer, true) else Collected(longer, more[1..])
  }

  lemma {:induction false} CollectedAppend(found: seq<Finding>, a: seq<Finding>, b: seq<Finding>)
    ensures Collected(found, a + b) ==
              if Collected(found, a).1 then Collected(found, a) else Collected(Collected(found, a).0, b)
    decreases |a|
  {
    if a == [] {
      assert a + b == b;
    } else {
      assert (a + b)[1..] == a[1..] + b;
      CollectedAppend(found + [a[0]], a[1..], b);
    }
  }

  /** The collector stops at the `i`-th of the findings it would list without a limit. */
  predicate Stops(full: seq<Finding>, i: nat) {
    i < |full| && i + 1 >= LIMIT && full[i].what != Unproven
  }

  /** What is collected is the front of the full list, up to the first finding from the twentieth on that proves a
      break; if there is none, everything. So nothing is lost below the limit, and unproven targets pass it. */
  ghost predicate IsFront(found: seq<Finding>, stopped: bool, full: seq<Finding>) {
    && found <= full
    && (stopped <==> exists i :: Stops(full, i))
    && (if stopped then Ends(full, |found|) else found == full)
  }

  /** The list ends after its first `n` findings: the last of them stops it and none before does. */
  ghost predicate Ends(full: seq<Finding>, n: nat) {
    n > 0 && Stops(full, n - 1) && forall i: nat :: i < n - 1 ==> !Stops(full, i)
  }

  lemma CollectedIsTheFront(full: seq<Finding>)
    ensures IsFront(Collected([], full).0, Collected([], full).1, full)
  {
    hide Collected, IsFront;
    CollectedFromThere(full, full[..0], full, 0);
  }

  lemma {:induction false} CollectedFromThere(full: seq<Finding>, found: seq<Finding>, more: seq<Finding>, k: nat)
    requires k <= |full| && found == full[..k] && more == full[k..] && forall i: nat :: i < k ==> !Stops(full, i)
    ensures IsFront(Collected(found, more).0, Collected(found, more).1, full)
    decreases |more|
  {
    hide Stops, IsFront;
    if more == [] {
      EverythingIsFront(full);
      assert found == full;
    } else {
      var longer, n: nat := found + [more[0]], k + 1;
      assert longer == full[..n] && more[1..] == full[n..] && more[0] == full[k];
      StopsIff(full, k, |longer|);
      if Stops(full, k) {
        FrontEnds(full, n);
      } else {
        CollectedFromThere(full, longer, more[1..], n);
      }
    }
  }

  lemma StopsIff(full: seq<Finding>, k: nat, n: nat)
    requires k < |full| && n == k + 1
    ensures Stops(full, k) <==> full[k].what != Unproven && n >= LIMIT
  {
  }

  lemma EverythingIsFront(full: seq<Finding>)
    requires forall i: nat :: i < |full| ==> !Stops(full, i)
    ensures IsFront(full, false, full)
  {
  }

  lemma FrontEnds(full: seq<Finding>, n: nat)
    requires 0 < n <= |full| && Stops(full, n - 1) && forall i: nat :: i < n - 1 ==> !Stops(full, i)
    ensures IsFront(full[..n], true, full)
  {
    hide Stops;
  }

  // ----- the collector -----

  /** One entry of a manifest: the two sides, the targets both publish, and the file each of them names. */
  datatype Entry = Entry(base: Setting, candidate: Setting, targets: set<string>, locate: string -> Option<Path>)

  ghost function NamedList(e: Entry, changed: set<Path>, name: string): seq<Finding> {
    match e.locate(name)
    case None => []
    case Some(target) => TargetList(e.base, e.candidate, changed, target)
  }

  ghost function NamesList(e: Entry, changed: set<Path>, names: seq<string>): seq<Finding> {
    if names == [] then [] else NamedList(e, changed, names[0]) + NamesList(e, changed, names[1..])
  }

  /** Every finding of every target, entry by entry and target by target in order. */
  ghost function FullList(entries: seq<Entry>, changed: set<Path>): seq<Finding> {
    if entries == [] then []
    else NamesList(entries[0], changed, Sorted(entries[0].targets)) + FullList(entries[1..], changed)
  }

  /** `_node_published_source_export_findings` over the manifests' entries in order: the front of the full list. */
  method PublishedFindings(entries: seq<Entry>, changed: set<Path>) returns (findings: seq<Finding>)
    ensures findings == Collected([], FullList(entries, changed)).0
  {
    hide Collected, NamesList, Sorted, FullList;
    findings := [];
    assert entries[0..] == entries;
    for k := 0 to |entries|
      invariant Collected([], FullList(entries, changed)) == Collected(findings, FullList(entries[k..], changed))
    {
      var names := Sort(entries[k].targets);
      NextEntry(entries[k..], entries[k + 1..], changed);
      ghost var before := findings;
      var stopped;
      findings, stopped := EntryFindings(findings, entries[k], changed, names);
      CollectedAppend(before, NamesList(entries[k], changed, names), FullList(entries[k + 1..], changed));
      if stopped {
        return;
      }
    }
    assert entries[|entries|..] == [];
    NothingMore(findings, changed);
  }

  lemma NextEntry(entries: seq<Entry>, rest: seq<Entry>, changed: set<Path>)
    requires entries != [] && rest == entries[1..]
    ensures FullList(entries, changed) ==
              NamesList(entries[0], changed, Sorted(entries[0].targets)) + FullList(rest, changed)
  {
  }

  lemma NothingMore(found: seq<Finding>, changed: set<Path>)
    ensures FullList([], changed) == [] && Collected(found, []) == (found, false)
  {
  }

  /** The loop over the targets of one entry. */
  method EntryFindings(before: seq<Finding>, e: Entry, changed: set<Path>, names: seq<string>)
      returns (findings: seq<Finding>, stopped: bool)
    ensures (findings, stopped) == Collected(before, NamesList(e, changed, names))
  {
    hide Collected, NamesList, TargetList;
    findings, stopped := before, false;
    assert names[0..] == names;
    for k := 0 to |names|
      invariant !stopped
      invariant Collected(before, NamesList(e, changed, names))
          == Collected(findings, NamesList(e, changed, names[k..]))
    {
      ghost var found := findings;
      NextName(e, changed, names[k..], names[k + 1..]);
      var target := e.locate(names[k]);
      if target.Some? {
        findings, stopped := TargetFindings(findings, e.base, e.candidate, changed, target.value);
      } else {
        NoneCollected(findings);
      }
      CollectedAppend(found, NamedList(e, changed, names[k]), NamesList(e, changed, names[k + 1..]));
      if stopped {
        return;
      }
    }
    assert names[|names|..] == [];
    NoNames(e, changed);
    NoneCollected(findings);
  }

  lemma NextName(e: Entry, changed: set<Path>, names: seq<string>, rest: seq<string>)
    requires names != [] && rest == names[1..]
    ensures NamesList(e, changed, names) == NamedList(e, changed, names[0]) + NamesList(e, changed, rest)
  {
  }

  lemma NoNames(e: Entry, changed: set<Path>)
    ensures NamesList(e, changed, []) == []
  {
  }

  lemma NoneCollected(found: seq<Finding>)
    ensures Collected(found, []) == (found, false)
  {
  }

  /** The turn of the loop for one target. */
  method TargetFindings(before: seq<Finding>, base: Setting, candidate: Setting, changed: set<Path>, target: Path)
      returns (findings: seq<Finding>, stopped: bool)
    ensures (findings, stopped) == Collected(before, TargetList(base, candidate, changed, target))
  {
    hide ResolveTop, ParseAt, IsTypeScript, Collected, RemovedList, RaisedList, Sorted;
    NoneCollected(before);
    findings, stopped := before, false;
    if !LookInto(base, candidate, changed, target) {
      return;
    }
    var old_, new_ := ResolveTop(base, target), ResolveTop(candidate, target);
    var affected := changed * SurfacePaths(base, candidate, target);
    if affected == {} {
      return;
    }
    var path := Text(target);
    if target !in changed {
      var paths := Sort(Texts(affected));
      TextsAreSome(affected);
      path := paths[0];
    }
    var was, now := old_.1, new_.1;
    if was.None? || !was.value.complete || now.None? {
      return;
    }
    if !now.value.complete {
      OneUnproven(before, path);
      return before + [Finding(path, Unproven)], false;
    }
    findings, stopped := CollectRemoved(before, path, was.value, now.value);
    var removed := Sorted(was.value.symbols - now.value.symbols);
    var names := Sorted(RaisedNames(was.value, now.value));
    if IsTypeScript(target) {
      CollectedAppend(before, RemovedList(path, removed), RaisedList(path, names, was.value, now.value));
      if !stopped {
        findings, stopped := CollectRaised(findings, path, was.value, now.value);
      }
    } else {
      assert RemovedList(path, removed) + [] == RemovedList(path, removed);
    }
  }

  lemma OneUnproven(found: seq<Finding>, path: string)
    ensures Collected(found, [Finding(path, Unproven)]) == (found + [Finding(path, Unproven)], false)
  {
    assert [Finding(path, Unproven)][1..] == [];
  }

  method CollectRemoved(before: seq<Finding>, path: string, was: Surface, now: Surface)
      returns (findings: seq<Finding>, stopped: bool)
    ensures (findings, stopped) == Collected(before, RemovedList(path, Sorted(was.symbols - now.symbols)))
  {
    var names := Sort(was.symbols - now.symbols);
    findings, stopped := AppendAll(before, RemovedList(path, names));
  }

  method CollectRaised(before: seq<Finding>, path: string, was: Surface, now: Surface)
      returns (findings: seq<Finding>, stopped: bool)
    ensures (findings, stopped) == Collected(before, RaisedList(path, Sorted(RaisedNames(was, now)), was, now))
  {
    var names := Sort(RaisedNames(was, now));
    findings, stopped := AppendAll(before, RaisedList(path, names, was, now));
  }

  /** Append and look at the limit. */
  method AppendAll(before: seq<Finding>, more: seq<Finding>) returns (findings: seq<Finding>, stopped: bool)
    requires forall f :: f in more ==> f.what != Unproven
    ensures (findings, stopped) == Collected(before, more)
  {
    findings, stopped := before, false;
    assert more[0..] == more;
    for k := 0 to |more|
      invariant Collected(before, more) == Collected(findings, more[k..])
    {
      assert more[k..][0] == more[k] && more[k..][1..] == more[k + 1..] && more[k] in more;
      findings := findings + [more[k]];
      if |findings| >= LIMIT {
        return findings, true;
      }
    }
  }

  /** The two sides read the same repository except for the changed files. */
  ghost predicate DiffersOnlyIn(base: Setting, candidate: Setting, changed: set<Path>) {
    candidate == base.(reader := candidate.reader)
    && forall q :: q !in changed ==> base.reader(q) == candidate.reader(q)
  }

  /** A surface compared with itself breaks nothing. */
  lemma SameSurfaceNoBreaks(target: Path, s: Option<Surface>)
    ensures Breaks(target, s, s) == {}
  {
    hide IsTypeScript;
  }

  /** Whatever the skips leave out has no breaks: if nothing that was read has changed, both
      searches return the same surface. */
  lemma SkipsLoseNothing(base: Setting, candidate: Setting, changed: set<Path>, target: Path)
    requires DiffersOnlyIn(base, candidate, changed) && IsNormal(target) && base.maxModules >= 1
    requires !LookInto(base, candidate, changed, target) || changed * SurfacePaths(base, candidate, target) == {}
    ensures Breaks(target, ResolveTop(base, target).1, ResolveTop(candidate, target).1) == {}
  {
    hide ResolveTop, ParseAt, IsTypeScript;
    if LookInto(base, candidate, changed, target) {
      forall q | q in ResolveTop(base, target).0.probes ensures base.reader(q) == candidate.reader(q) {
        ProbesAreSurfacePaths(base, candidate, target, q);
        assert q in changed ==> q in changed * SurfacePaths(base, candidate, target);
      }
      FootprintDecides(base, candidate, target);
    } else {
      ParseReadsOneFile(base, candidate, target);
      StarlessSearch(base, target);
      StarlessSearch(candidate, target);
      WithinBothOrNeither(base, candidate, target);
    }
    SameSurfaceNoBreaks(target, ResolveTop(base, target).1);
  }

  lemma ProbesAreSurfacePaths(base: Setting, candidate: Setting, target: Path, q: Path)
    requires q in ResolveTop(base, target).0.probes
    ensures q in SurfacePaths(base, candidate, target)
  {
    hide ResolveTop;
  }

  lemma ParseReadsOneFile(base: Setting, candidate: Setting, target: Path)
    requires candidate == base.(reader := candidate.reader) && base.reader(target) == candidate.reader(target)
    ensures ParseAt(base, target) == ParseAt(candidate, target)
  {
  }

  predicate InPackage(c: Setting, target: Path) {
    Normalized(c.root).Some? && Within(target, Normalized(c.root).value)
  }

  lemma WithinBothOrNeither(base: Setting, candidate: Setting, target: Path)
    requires candidate == base.(reader := candidate.reader)
    ensures InPackage(base, target) == InPackage(candidate, target)
  {
  }

  /** Without stars the search returns the parsed file itself. */
  lemma StarlessSearch(c: Setting, target: Path)
    requires IsNormal(target) && c.maxModules >= 1 && !HasStars(ParseAt(c, target))
    ensures ResolveTop(c, target).1 ==
              if !InPackage(c, target) || ParseAt(c, target).None? then None
              else Some(ParsedSurface(target, ParseAt(c, target).value))
  {
    hide IsNodeSource, Normalized;
    NormalizedIsIdentityOnNormal(target);
  }

  /** Comparing every target, skipped or not, would list nothing else. */
  lemma SkipsChangeNothing(base: Setting, candidate: Setting, changed: set<Path>, target: Path, path: string)
    requires DiffersOnlyIn(base, candidate, changed) && IsNormal(target) && base.maxModules >= 1
    requires !LookInto(base, candidate, changed, target) || changed * SurfacePaths(base, candidate, target) == {}
    ensures TargetList(base, candidate, changed, target)
            == ListOf(target, ResolveTop(base, target).1, ResolveTop(candidate, target).1, path) == []
  {
    hide ResolveTop, ParseAt, IsTypeScript, LookInto, SurfacePaths, ListOf, Breaks;
    SkipsLoseNothing(base, candidate, changed, target);
    var before, after := ResolveTop(base, target).1, ResolveTop(candidate, target).1;
    ListSays(target, before, after, path);
    FirstIsSaid(ListOf(target, before, after, path));
  }

  lemma FirstIsSaid(list: seq<Finding>)
    ensures list != [] ==> list[0].what in Whats(list)
  {
    if list != [] {
      assert list[0] in list;
    }
  }
}
