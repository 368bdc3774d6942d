/**
 The budgeted, memoised resolver of star re-exports (`node_compat.py`, lines 346-492).

 The tree-sitter parse is a function from path and source text to `Parsed`. `Resolve` and `Walk`
 specify the closure `resolve` on values; the class `Resolver` runs it on mutable tables.
 */
module StarReexports {
  import opened Wrappers
  import opened NodePaths

  type Name = string

  datatype RawParsed = RawParsed(
    symbols: set<Name>,
    localComplete: bool,
    wildcards: seq<string>,
    minArgs: map<Name, nat>)

  /** A call shape is recorded only for a declaration whose name is exported as well
      (`_export_statement_names` and `_export_statement_minimum_arguments`). */
  type Parsed = p: RawParsed | p.minArgs.Keys <= p.symbols witness RawParsed({}, true, [], map[])

  type Reader = Path -> Option<string>
  type Parser = (Path, string) -> Parsed

  /** `NodeExportSurface`. */
  datatype Surface = Surface(
    symbols: set<Name>,
    complete: bool,
    minArgs: map<Name, nat>,
    wildcards: seq<string>,
    localComplete: bool,
    sourcePaths: set<Path>)

  datatype Setting = Setting(
    reader: Reader,
    parse: Parser,
    root: Path,
    maxDepth: nat,
    maxModules: nat,
    maxEdges: nat)

  /** The tables of one top-level call. `probes` and `calls` count what the caller can observe: the
      paths read through the reader and the calls of the inner `resolve`. */
  datatype Tables = Tables(
    memo: map<Path, Surface>,
    active: set<Path>,
    seen: set<Path>,
    edges: nat,
    probes: set<Path>,
    calls: nat)

  /** The locals of one activation: what the loop over the star specifiers accumulates. */
  datatype Frame = Frame(
    symbols: set<Name>,
    minArgs: map<Name, nat>,
    sources: set<Path>,
    origins: map<Name, Path>,
    complete: bool)

  // ----- reading -----

  /** `node_export_surface`: None for an unreadable or unsupported file. */
  function ParseAt(c: Setting, p: Path): Option<Parsed> {
    match c.reader(p)
    case None => None
    case Some(text) => if IsNodeSource(p) then Some(c.parse(p, text)) else None
  }

  /** A module is a file that can be read and has one of the supported extensions; its parse is that of its text. */
  lemma ParseAtIs(c: Setting, p: Path, parsed: Parsed)
    ensures ParseAt(c, p) == Some(parsed) <==>
              c.reader(p).Some? && IsNodeSource(p) && parsed == c.parse(p, c.reader(p).value)
  {
    hide IsNodeSource;
  }

  function ParsedSurface(p: Path, parsed: Parsed): Surface {
    Surface(parsed.symbols, parsed.localComplete && parsed.wildcards == [], parsed.minArgs,
            parsed.wildcards, parsed.localComplete, {p})
  }

  /** `_resolve_reexport_target` on the remaining candidates, with the one found so far. */
  function Pick(reader: Reader, candidates: seq<Path>, found: Option<Path>): Option<Path> {
    if candidates == [] then found
    else if reader(candidates[0]).None? then Pick(reader, candidates[1..], found)
    else if found.Some? then None
    else Pick(reader, candidates[1..], Some(candidates[0]))
  }

  /** The candidates `Pick` reads before it returns. */
  function PickProbes(reader: Reader, candidates: seq<Path>, found: bool): set<Path> {
    if candidates == [] then {}
    else if reader(candidates[0]).None? then {candidates[0]} + PickProbes(reader, candidates[1..], found)
    else if found then {candidates[0]}
    else {candidates[0]} + PickProbes(reader, candidates[1..], true)
  }

  function Target(c: Setting, p: Path, specifier: string): Option<Path> {
    Pick(c.reader, Candidates(p, specifier, c.root), None)
  }

  function TargetProbes(c: Setting, p: Path, specifier: string): set<Path> {
    PickProbes(c.reader, Candidates(p, specifier, c.root), false)
  }

  // ----- one dependency -----

  /** Names that star re-export passes on from a dependency. */
  function Passed(parsed: Parsed, dep: Surface): set<Name> {
    set n | n in dep.symbols && n != "default" && n !in parsed.symbols
  }

  /** Names already supplied by a different target. */
  function Clashes(parsed: Parsed, f: Frame, target: Path, dep: Surface): set<Name> {
    set n | n in Passed(parsed, dep) && n in f.origins && f.origins[n] != target
  }

  function Absorb(parsed: Parsed, f: Frame, target: Path, dep: Surface): Frame {
    var clashes := Clashes(parsed, f, target, dep);
    var gained := Passed(parsed, dep) - clashes;
    Frame(f.symbols - clashes + gained,
          (f.minArgs - clashes) + (map n | n in gained && n in dep.minArgs :: dep.minArgs[n]),
          f.sources,
          f.origins + (map n | n in gained :: target),
          f.complete && clashes == {})
  }

  /** What the loop does with the outcome for one resolved target. */
  function Account(parsed: Parsed, f: Frame, target: Path, outcome: Option<Surface>): Frame {
    match outcome
    case None => f.(complete := false, sources := f.sources + {target})
    case Some(dep) =>
      var g := f.(sources := f.sources + dep.sourcePaths);
      if dep.complete then Absorb(parsed, g, target, dep) else g.(complete := false)
  }

  /** Whatever a target gives, its files are named: those of its surface, or the file itself if there is none; and only
      a complete surface without clashes leaves the answer complete. */
  lemma AccountNames(parsed: Parsed, f: Frame, target: Path, outcome: Option<Surface>)
    ensures var after := Account(parsed, f, target, outcome);
            && after.sources == f.sources + (if outcome.Some? then outcome.value.sourcePaths else {target})
            && (after.complete <==>
                && f.complete && outcome.Some? && outcome.value.complete
                && Clashes(parsed, f, target, outcome.value) == {})
  {
    hide Clashes, Passed;
    if outcome.Some? {
      ClashesIgnoreSources(parsed, f, f.(sources := f.sources + outcome.value.sourcePaths), target, outcome.value);
    }
  }

  lemma ClashesIgnoreSources(parsed: Parsed, f: Frame, g: Frame, target: Path, dep: Surface)
    requires g.origins == f.origins
    ensures Clashes(parsed, g, target, dep) == Clashes(parsed, f, target, dep)
  {
  }

  // ----- the search -----

  function Incomplete(p: Path): Surface {
    Surface({}, false, map[], [], false, {p})
  }

  function Start(p: Path, parsed: Parsed): Frame {
    Frame(parsed.symbols, parsed.minArgs, {p}, map[], true)
  }

  function Finish(parsed: Parsed, f: Frame): Surface {
    Surface(f.symbols, f.complete, f.minArgs, parsed.wildcards, parsed.localComplete, f.sources)
  }

  function Remember(t: Tables, p: Path, s: Surface): Tables {
    if s.complete then t.(memo := t.memo[p := s]) else t
  }

  /** Why `resolve` answers without looking at the file, if it does. */
  predicate Refused(c: Setting, t: Tables, p: Path, depth: nat) {
    || depth > c.maxDepth
    || (p !in t.memo && (p in t.active || (p !in t.seen && |t.seen| >= c.maxModules)))
  }

  /** Within the depth budget a module that has an answer, or was admitted before and is not being searched, is never
      refused; a new one is refused exactly when the module budget is used up, and one on the current path always. */
  lemma RefusedIff(c: Setting, t: Tables, p: Path, depth: nat)
    requires depth <= c.maxDepth
    ensures p in t.memo ==> !Refused(c, t, p, depth)
    ensures p in t.seen && p !in t.memo ==> (Refused(c, t, p, depth) <==> p in t.active)
    ensures p !in t.seen && p !in t.memo && p !in t.active ==> (Refused(c, t, p, depth) <==> |t.seen| >= c.maxModules)
    ensures Refused(c, t, p, c.maxDepth + 1)
  {
  }

  /** Tables once the module is admitted and read. */
  function Admit(t: Tables, p: Path): Tables {
    t.(seen := t.seen + {p}, probes := t.probes + {p})
  }

  function Resolve(c: Setting, t: Tables, p: Path, depth: nat): (Tables, Option<Surface>)
    requires depth <= c.maxDepth + 1
    decreases c.maxDepth + 1 - depth, 1, 0
  {
    var called := t.(calls := t.calls + 1);
    if Refused(c, t, p, depth) then (called, Some(Incomplete(p)))
    else if p in t.memo then (called, Some(t.memo[p]))
    else
      var admitted := Admit(called, p);
      match ParseAt(c, p)
      case None => (admitted, None)
      case Some(parsed) =>
        if !parsed.localComplete || parsed.wildcards == [] then
          var s := ParsedSurface(p, parsed);
          (Remember(admitted, p, s), Some(s))
        else
          var (after, f) := Walk(c, admitted.(active := admitted.active + {p}), p, parsed, depth, 0, Start(p, parsed));
          var left := after.(active := after.active - {p});
          var s := Finish(parsed, f);
          (Remember(left, p, s), Some(s))
  }

  /** The loop over the star specifiers from index `i` on. */
  function Walk(c: Setting, t: Tables, p: Path, parsed: Parsed, depth: nat, i: nat, f: Frame): (Tables, Frame)
    requires depth <= c.maxDepth && i <= |parsed.wildcards|
    decreases c.maxDepth + 1 - depth, 0, |parsed.wildcards| - i
  {
    if i == |parsed.wildcards| then (t, f)
    else
      var counted := t.(edges := t.edges + 1);
      if counted.edges > c.maxEdges then (counted, f.(complete := false))
      else
        var (t', f') := Follow(c, counted, p, parsed, depth, i, f);
        Walk(c, t', p, parsed, depth, i + 1, f')
  }

  /** One specifier whose edge fits the budget. */
  function Follow(c: Setting, t: Tables, p: Path, parsed: Parsed, depth: nat, i: nat, f: Frame): (Tables, Frame)
    requires depth <= c.maxDepth && i < |parsed.wildcards|
    decreases c.maxDepth + 1 - depth, 0, |parsed.wildcards| - i - 1, 0
  {
    var looked := t.(probes := t.probes + TargetProbes(c, p, parsed.wildcards[i]));
    match Target(c, p, parsed.wildcards[i])
    case None => (looked, f.(complete := false))
    case Some(target) =>
      var (t', outcome) := Resolve(c, looked, target, depth + 1);
      (t', Account(parsed, f, target, outcome))
  }

  const EMPTY_TABLES := Tables(map[], {}, {}, 0, {}, 0)

  datatype BadBudget = BadBudget

  /** `resolve_node_export_surface` after its budget check, with everything it read. */
  function ResolveTop(c: Setting, path: Path): (Tables, Option<Surface>) {
    match (Normalized(c.root), Normalized(path))
    case (Some(root), Some(p)) =>
      if Within(p, root) then Resolve(c.(root := root), EMPTY_TABLES, p, 0) else (EMPTY_TABLES, None)
    case (_, _) => (EMPTY_TABLES, None)
  }

  // ----- the running resolver -----

  class Resolver {
    const c: Setting
    var memo: map<Path, Surface>
    var active: set<Path>
    var seenModules: set<Path>
    var edgeCount: nat
    var probes: set<Path>
    ghost var calls: nat

    constructor (c: Setting)
      ensures this.c == c && State() == EMPTY_TABLES
    {
      this.c := c;
      memo, active, seenModules, edgeCount, probes, calls := map[], {}, {}, 0, {}, 0;
    }

    ghost function State(): Tables
      reads this
    {
      Tables(memo, active, seenModules, edgeCount, probes, calls)
    }

    /** `source_reader` as traced by the caller in `risk.py`. */
    method Read(p: Path) returns (text: Option<string>)
      modifies `probes
      ensures text == c.reader(p) && probes == old(probes) + {p}
    {
      probes := probes + {p};
      text := c.reader(p);
    }

    /** `_resolve_reexport_target`. */
    method ResolveTarget(p: Path, specifier: string) returns (found: Option<Path>)
      modifies `probes
      ensures found == Target(c, p, specifier)
      ensures probes == old(probes) + TargetProbes(c, p, specifier)
    {
      var candidates := Candidates(p, specifier, c.root);
      found := None;
      for i := 0 to |candidates|
        invariant Pick(c.reader, candidates[i..], found) == Target(c, p, specifier)
        invariant probes + PickProbes(c.reader, candidates[i..], found.Some?)
                  == old(probes) + TargetProbes(c, p, specifier)
      {
        assert candidates[i..][1..] == candidates[i + 1..];
        var text := Read(candidates[i]);
        if text.Some? {
          if found.Some? {
            return None;
          }
          found := Some(candidates[i]);
        }
      }
    }

    /** The loop over the symbols of a complete dependency. The source sorts them; every order gives
        the same frame, so the loop takes them in any order. */
    method Merge(parsed: Parsed, f: Frame, target: Path, dep: Surface) returns (g: Frame)
      ensures g == Absorb(parsed, f, target, dep)
    {
      g := f;
      var todo := dep.symbols;
      ghost var done: set<Name> := {};
      while todo != {}
        invariant todo !! done && todo + done == dep.symbols
        invariant g == Absorb(parsed, f, target, dep.(symbols := done))
        decreases todo
      {
        var symbol :| symbol in todo;
        todo, done := todo - {symbol}, done + {symbol};
        ghost var before := g;
        if symbol != "default" && symbol !in parsed.symbols {
          if symbol in g.origins && g.origins[symbol] != target {
            g := g.(symbols := g.symbols - {symbol}, minArgs := g.minArgs - {symbol}, complete := false);
          } else {
            g := g.(origins := g.origins[symbol := target], symbols := g.symbols + {symbol});
            if symbol in dep.minArgs {
              g := g.(minArgs := g.minArgs[symbol := dep.minArgs[symbol]]);
            }
          }
        }
        AbsorbOneMore(parsed, f, target, dep, done - {symbol}, symbol, before);
        assert done - {symbol} + {symbol} == done;
      }
      assert dep.(symbols := done) == dep;
    }

    /** The closure `resolve`. */
    method ResolveModule(p: Path, depth: nat) returns (r: Option<Surface>)
      requires depth <= c.maxDepth + 1
      modifies this
      ensures (State(), r) == Resolve(c, old(State()), p, depth)
      decreases c.maxDepth + 1 - depth, 1, 0
    {
      calls := calls + 1;
      if depth > c.maxDepth {
        return Some(Incomplete(p));
      }
      if p in memo {
        return Some(memo[p]);
      }
      if p in active {
        return Some(Incomplete(p));
      }
      if p !in seenModules {
        if |seenModules| >= c.maxModules {
          return Some(Incomplete(p));
        }
        seenModules := seenModules + {p};
      }
      assert seenModules == old(seenModules) + {p};
      var text := Read(p);
      if text.None? || !IsNodeSource(p) {
        return None;
      }
      var parsed := c.parse(p, text.value);
      if !parsed.localComplete {
        return Some(ParsedSurface(p, parsed));
      }
      if parsed.wildcards == [] {
        var s := ParsedSurface(p, parsed);
        memo := memo[p := s];
        return Some(s);
      }

      active := active + {p};
      var f := FollowStars(p, parsed, depth);
      active := active - {p};
      var s := Finish(parsed, f);
      if s.complete {
        memo := memo[p := s];
      }
      return Some(s);
    }

    /** The loop over the star specifiers. */
    method FollowStars(p: Path, parsed: Parsed, depth: nat) returns (f: Frame)
      requires depth <= c.maxDepth
      modifies this
      ensures (State(), f) == Walk(c, old(State()), p, parsed, depth, 0, Start(p, parsed))
      decreases c.maxDepth + 1 - depth, 0, |parsed.wildcards| + 1
    {
      f := Start(p, parsed);
      var i := 0;
      while i < |parsed.wildcards|
        invariant i <= |parsed.wildcards|
        invariant Walk(c, State(), p, parsed, depth, i, f)
            == Walk(c, old(State()), p, parsed, depth, 0, Start(p, parsed))
      {
        edgeCount := edgeCount + 1;
        if edgeCount > c.maxEdges {
          f := f.(complete := false);
          return;
        }
        f := FollowStar(p, parsed, depth, i, f);
        i := i + 1;
      }
    }

    method FollowStar(p: Path, parsed: Parsed, depth: nat, i: nat, f: Frame) returns (g: Frame)
      requires depth <= c.maxDepth && i < |parsed.wildcards|
      modifies this
      ensures (State(), g) == Follow(c, old(State()), p, parsed, depth, i, f)
      decreases c.maxDepth + 1 - depth, 0, |parsed.wildcards| - i
    {
      var target := ResolveTarget(p, parsed.wildcards[i]);
      if target.None? {
        return f.(complete := false);
      }
      var outcome := ResolveModule(target.value, depth + 1);
      if outcome.None? {
        return f.(complete := false, sources := f.sources + {target.value});
      }
      g := f.(sources := f.sources + outcome.value.sourcePaths);
      if !outcome.value.complete {
        return g.(complete := false);
      }
      g := Merge(parsed, g, target.value, outcome.value);
    }
  }

  lemma AbsorbOneMore(parsed: Parsed, f: Frame, target: Path, dep: Surface, done: set<Name>, symbol: Name, g: Frame)
    requires symbol !in done && g == Absorb(parsed, f, target, dep.(symbols := done))
    ensures
      Absorb(parsed, f, target, dep.(symbols := done + {symbol})) ==
      if symbol == "default" || symbol in parsed.symbols then g
      else if symbol in g.origins && g.origins[symbol] != target then
        g.(symbols := g.symbols - {symbol}, minArgs := g.minArgs - {symbol}, complete := false)
      else
        g.(origins := g.origins[symbol := target], symbols := g.symbols + {symbol},
           minArgs := if symbol in dep.minArgs then g.minArgs[symbol := dep.minArgs[symbol]] else g.minArgs)
  {
    var small, big := dep.(symbols := done), dep.(symbols := done + {symbol});
    var passed, clashes := Passed(parsed, small), Clashes(parsed, f, target, small);
    if symbol == "default" || symbol in parsed.symbols {
      assert Passed(parsed, big) == passed;
    } else if symbol in f.origins && f.origins[symbol] != target {
      ClashOneMore(parsed, f, target, dep, done, symbol);
    } else {
      assert Passed(parsed, big) == passed + {symbol};
      assert Clashes(parsed, f, target, big) == clashes;
      AbsorbGains(f, target, dep, clashes, passed - clashes, symbol);
      assert passed + {symbol} - clashes == passed - clashes + {symbol};
    }
  }

  lemma ClashOneMore(parsed: Parsed, f: Frame, target: Path, dep: Surface, done: set<Name>, symbol: Name)
    requires symbol !in done && symbol != "default" && symbol !in parsed.symbols
    requires symbol in f.origins && f.origins[symbol] != target
    ensures
      var g := Absorb(parsed, f, target, dep.(symbols := done));
      && symbol in g.origins && g.origins[symbol] != target
      && Absorb(parsed, f, target, dep.(symbols := done + {symbol}))
         == g.(symbols := g.symbols - {symbol}, minArgs := g.minArgs - {symbol}, complete := false)
  {
    var small, big := dep.(symbols := done), dep.(symbols := done + {symbol});
    var passed, clashes := Passed(parsed, small), Clashes(parsed, f, target, small);
    assert Passed(parsed, big) == passed + {symbol};
    assert Clashes(parsed, f, target, big) == clashes + {symbol};
    var gained := passed - clashes;
    assert passed + {symbol} - (clashes + {symbol}) == gained;
    assert f.symbols - (clashes + {symbol}) + gained == f.symbols - clashes + gained - {symbol};
    var more := map n | n in gained && n in dep.minArgs :: dep.minArgs[n];
    assert (f.minArgs - (clashes + {symbol})) + more == (f.minArgs - clashes) + more - {symbol};
  }

  lemma AbsorbGains(f: Frame, target: Path, dep: Surface, clashes: set<Name>, gained: set<Name>, symbol: Name)
    requires symbol !in gained && symbol !in clashes
    ensures f.symbols - clashes + (gained + {symbol}) == f.symbols - clashes + gained + {symbol}
    ensures f.origins + (map n | n in gained + {symbol} :: target)
            == (f.origins + map n | n in gained :: target)[symbol := target]
    ensures
      var kept := f.minArgs - clashes;
      var before := kept + (map n | n in gained && n in dep.minArgs :: dep.minArgs[n]);
      kept + (map n | n in gained + {symbol} && n in dep.minArgs :: dep.minArgs[n])
      == if symbol in dep.minArgs then before[symbol := dep.minArgs[symbol]] else before
  {
  }

  /** `resolve_node_export_surface`: the budget check, then the search on gained tables. */
  method ResolveNodeExportSurface(reader: Reader, parse: Parser, path: Path, packageRoot: Path,
                                  maxDepth: int, maxModules: int, maxEdges: int)
      returns (r: Result<Option<Surface>, BadBudget>)
    ensures r.Failure? <==> maxDepth < 0 || maxModules < 1 || maxEdges < 1
    ensures r.Success? ==>
              r.value == ResolveTop(Setting(reader, parse, packageRoot, maxDepth, maxModules, maxEdges), path).1
  {
    if maxDepth < 0 || maxModules < 1 || maxEdges < 1 {
      return Failure(BadBudget);
    }
    var root := NormalizeRepoPath(packageRoot);
    var start := NormalizeRepoPath(path);
    if root.None? || start.None? || !Within(start.value, root.value) {
      return Success(None);
    }
    var resolver := new Resolver(Setting(reader, parse, root.value, maxDepth, maxModules, maxEdges));
    var surface := resolver.ResolveModule(start.value, 0);
    return Success(surface);
  }
}
