/**
 What a `complete` surface means: a table of surfaces in which every entry is assembled from its own
 exports and the entries of its star targets. The resolver's memo is always such a table.
 */
module StarTables {
  import opened Wrappers
  import opened NodePaths
  import opened StarReexports

  type Table = map<Path, Surface>

  function TargetAt(c: Setting, p: Path, parsed: Parsed, i: nat): Option<Path>
    requires i < |parsed.wildcards|
  {
    Target(c, p, parsed.wildcards[i])
  }

  /** Each of the first `k` star specifiers of `p` resolves to an entry that does not lead back. */
  ghost predicate Linked(c: Setting, m: Table, p: Path, parsed: Parsed, k: nat)
    requires k <= |parsed.wildcards|
  {
    forall i :: 0 <= i < k ==>
      var t := TargetAt(c, p, parsed, i); t.Some? && t.value in m && p !in m[t.value].sourcePaths
  }

  /** Target `t`, among the first `k`, passes name `n` on to `p`. */
  ghost predicate Supplies(c: Setting, m: Table, p: Path, parsed: Parsed, k: nat, n: Name, t: Path)
    requires k <= |parsed.wildcards|
  {
    && t in m && n in m[t].symbols && n != "default" && n !in parsed.symbols
    && exists i :: 0 <= i < k && TargetAt(c, p, parsed, i) == Some(t)
  }

  ghost predicate Supplied(c: Setting, m: Table, p: Path, parsed: Parsed, k: nat, n: Name)
    requires k <= |parsed.wildcards|
  {
    exists t :: Supplies(c, m, p, parsed, k, n, t)
  }

  ghost predicate Feeds(c: Setting, m: Table, p: Path, parsed: Parsed, k: nat, q: Path)
    requires k <= |parsed.wildcards|
  {
    exists i :: 0 <= i < k &&
      var t := TargetAt(c, p, parsed, i); t.Some? && t.value in m && q in m[t.value].sourcePaths
  }

  ghost predicate Assembled(c: Setting, m: Table, p: Path, parsed: Parsed, k: nat,
                            symbols: set<Name>, minArgs: map<Name, nat>, sources: set<Path>)
    requires k <= |parsed.wildcards|
  {
    && (forall n :: n in symbols <==> n in parsed.symbols || Supplied(c, m, p, parsed, k, n))
    && (forall n, t, t' :: Supplies(c, m, p, parsed, k, n, t) && Supplies(c, m, p, parsed, k, n, t') ==> t == t')
    && (forall n, t :: Supplies(c, m, p, parsed, k, n, t) ==> SameShape(minArgs, m[t].minArgs, n))
    && (forall n :: n in parsed.symbols ==> SameShape(minArgs, parsed.minArgs, n))
    && minArgs.Keys <= symbols
    && (forall q :: q in sources <==> q == p || Feeds(c, m, p, parsed, k, q))
  }

  predicate SameShape(a: map<Name, nat>, b: map<Name, nat>, n: Name) {
    (n in a <==> n in b) && (n in a ==> a[n] == b[n])
  }

  ghost predicate Entry(c: Setting, m: Table, p: Path)
    requires p in m
  {
    var parsed := ParseAt(c, p);
    && parsed.Some? && parsed.value.localComplete
    && m[p].complete && m[p].localComplete && m[p].wildcards == parsed.value.wildcards
    && m[p].sourcePaths <= m.Keys
    && Linked(c, m, p, parsed.value, |parsed.value.wildcards|)
    && Assembled(c, m, p, parsed.value, |parsed.value.wildcards|, m[p].symbols, m[p].minArgs, m[p].sourcePaths)
  }

  ghost predicate IsTable(c: Setting, m: Table) {
    forall p :: p in m ==> Entry(c, m, p)
  }

  // ----- growing a table -----

  predicate Grown(m: Table, m': Table) {
    forall p :: p in m ==> p in m' && m'[p] == m[p]
  }

  lemma SuppliesStays(c: Setting, m: Table, m': Table, p: Path, parsed: Parsed, k: nat)
    requires k <= |parsed.wildcards| && Linked(c, m, p, parsed, k) && Grown(m, m')
    ensures Linked(c, m', p, parsed, k)
    ensures forall n, t :: Supplies(c, m', p, parsed, k, n, t) <==> Supplies(c, m, p, parsed, k, n, t)
    ensures forall n :: Supplied(c, m', p, parsed, k, n) <==> Supplied(c, m, p, parsed, k, n)
    ensures forall q :: Feeds(c, m', p, parsed, k, q) <==> Feeds(c, m, p, parsed, k, q)
  {
    hide Target;
    forall n, t ensures Supplies(c, m', p, parsed, k, n, t) <==> Supplies(c, m, p, parsed, k, n, t) {
    }
  }

  lemma AssembledStays(c: Setting, m: Table, m': Table, p: Path, parsed: Parsed, k: nat,
                       symbols: set<Name>, minArgs: map<Name, nat>, sources: set<Path>)
    requires k <= |parsed.wildcards| && Linked(c, m, p, parsed, k) && Grown(m, m')
    requires Assembled(c, m, p, parsed, k, symbols, minArgs, sources)
    ensures Assembled(c, m', p, parsed, k, symbols, minArgs, sources)
  {
    hide Target;
    SuppliesStays(c, m, m', p, parsed, k);
  }

  lemma EntryStays(c: Setting, m: Table, m': Table, p: Path)
    requires p in m && Entry(c, m, p) && Grown(m, m')
    ensures p in m' && Entry(c, m', p)
  {
    hide Target;
    var parsed := ParseAt(c, p).value;
    SuppliesStays(c, m, m', p, parsed, |parsed.wildcards|);
    AssembledStays(c, m, m', p, parsed, |parsed.wildcards|, m[p].symbols, m[p].minArgs, m[p].sourcePaths);
  }

  /** An assembled surface of a module that is not yet in the table extends it. */
  lemma TableExtends(c: Setting, m: Table, p: Path, parsed: Parsed, s: Surface)
    requires IsTable(c, m) && p !in m
    requires ParseAt(c, p) == Some(parsed) && parsed.localComplete
    requires s.complete && s.localComplete && s.wildcards == parsed.wildcards
    requires Linked(c, m, p, parsed, |parsed.wildcards|)
    requires Assembled(c, m, p, parsed, |parsed.wildcards|, s.symbols, s.minArgs, s.sourcePaths)
    ensures IsTable(c, m[p := s]) && Grown(m, m[p := s])
  {
    hide Target;
    var m' := m[p := s];
    var k := |parsed.wildcards|;
    SuppliesStays(c, m, m', p, parsed, k);
    AssembledStays(c, m, m', p, parsed, k, s.symbols, s.minArgs, s.sourcePaths);
    forall q | q in s.sourcePaths ensures q in m' {
      if q != p {
        assert Feeds(c, m, p, parsed, k, q);
        var i :| 0 <= i < k && q in m[TargetAt(c, p, parsed, i).value].sourcePaths;
        assert Entry(c, m, TargetAt(c, p, parsed, i).value);
      }
    }
    forall q | q in m' ensures Entry(c, m', q) {
      if q != p {
        EntryStays(c, m, m', q);
      }
    }
  }

  // ----- the memo is a table -----

  ghost predicate Sane(c: Setting, t: Tables) {
    IsTable(c, t.memo) && t.memo.Keys !! t.active
  }

  /** As long as the frame is complete it is assembled from the targets met so far. */
  ghost predicate FrameOk(c: Setting, m: Table, p: Path, parsed: Parsed, k: nat, f: Frame)
    requires k <= |parsed.wildcards|
  {
    f.complete ==>
      && Linked(c, m, p, parsed, k)
      && Assembled(c, m, p, parsed, k, f.symbols, f.minArgs, f.sources)
      && (forall n :: n in f.origins <==> Supplied(c, m, p, parsed, k, n))
      && (forall n, t :: Supplies(c, m, p, parsed, k, n, t) ==> f.origins[n] == t)
  }

  lemma FrameStays(c: Setting, m: Table, m': Table, p: Path, parsed: Parsed, k: nat, f: Frame)
    requires k <= |parsed.wildcards| && FrameOk(c, m, p, parsed, k, f) && Grown(m, m')
    ensures FrameOk(c, m', p, parsed, k, f)
  {
    hide Target;
    if f.complete {
      SuppliesStays(c, m, m', p, parsed, k);
      AssembledStays(c, m, m', p, parsed, k, f.symbols, f.minArgs, f.sources);
    }
  }

  lemma SuppliesOneMore(c: Setting, m: Table, p: Path, parsed: Parsed, k: nat, k': nat, target: Path)
    requires k < k' == k + 1 <= |parsed.wildcards| && TargetAt(c, p, parsed, k) == Some(target) && target in m
    ensures forall n, t :: Supplies(c, m, p, parsed, k', n, t) <==>
              Supplies(c, m, p, parsed, k, n, t) || (t == target && n in Passed(parsed, m[target]))
    ensures forall n :: Supplied(c, m, p, parsed, k', n) <==>
              Supplied(c, m, p, parsed, k, n) || n in Passed(parsed, m[target])
    ensures forall q :: Feeds(c, m, p, parsed, k', q) <==>
              Feeds(c, m, p, parsed, k, q) || q in m[target].sourcePaths
  {
    hide Target;
    forall n | n in Passed(parsed, m[target]) ensures Supplies(c, m, p, parsed, k', n, target) {
      assert TargetAt(c, p, parsed, k) == Some(target);
    }
    forall n, t | Supplies(c, m, p, parsed, k, n, t) ensures Supplies(c, m, p, parsed, k', n, t) {
      var i :| 0 <= i < k && TargetAt(c, p, parsed, i) == Some(t);
    }
    forall n | Supplied(c, m, p, parsed, k, n) ensures Supplied(c, m, p, parsed, k', n) {
      var t :| Supplies(c, m, p, parsed, k, n, t);
      assert Supplies(c, m, p, parsed, k', n, t);
    }
    forall q | q in m[target].sourcePaths ensures Feeds(c, m, p, parsed, k', q) {
      assert TargetAt(c, p, parsed, k) == Some(target);
    }
    forall q | Feeds(c, m, p, parsed, k, q) ensures Feeds(c, m, p, parsed, k', q) {
      var i :| 0 <= i < k && var t := TargetAt(c, p, parsed, i); t.Some? && t.value in m && q in m[t.value].sourcePaths;
    }
  }

  /** A frame that took in everything `dep` passes on, without a clash. */
  ghost predicate TookIn(parsed: Parsed, f: Frame, target: Path, dep: Surface, g: Frame) {
    && g.symbols == f.symbols + Passed(parsed, dep)
    && g.sources == f.sources + dep.sourcePaths
    && (forall n :: n in Passed(parsed, dep) ==>
          && (n in f.origins ==> f.origins[n] == target)
          && n in g.origins && g.origins[n] == target
          && (n in dep.minArgs ==> n in g.minArgs && g.minArgs[n] == dep.minArgs[n])
          && (n !in dep.minArgs ==> SameShape(g.minArgs, f.minArgs, n)))
    && (forall n :: n !in Passed(parsed, dep) ==>
          && SameShape(g.minArgs, f.minArgs, n)
          && (n in g.origins <==> n in f.origins)
          && (n in f.origins ==> g.origins[n] == f.origins[n]))
  }

  lemma AccountTakesIn(parsed: Parsed, f: Frame, target: Path, dep: Surface)
    requires dep.complete
    ensures var g := Account(parsed, f, target, Some(dep));
            g.complete ==> f.complete && TookIn(parsed, f, target, dep, g)
  {
    var g := Account(parsed, f, target, Some(dep));
    if g.complete {
      var f' := f.(sources := f.sources + dep.sourcePaths);
      assert Clashes(parsed, f', target, dep) == {};
      assert Passed(parsed, dep) - {} == Passed(parsed, dep);
      forall n | n in Passed(parsed, dep) && n in f.origins ensures f.origins[n] == target {
        assert n !in Clashes(parsed, f', target, dep);
      }
    }
  }

  /** Taking in one complete dependency keeps the frame assembled. */
  lemma TakingInKeepsFrame(c: Setting, m: Table, p: Path, parsed: Parsed, k: nat, k': nat, f: Frame, target: Path,
      g: Frame)
    requires k < k' == k + 1 <= |parsed.wildcards| && f.complete && FrameOk(c, m, p, parsed, k, f)
    requires TargetAt(c, p, parsed, k) == Some(target) && target in m && Shaped(m[target])
    requires p !in m[target].sourcePaths
    requires TookIn(parsed, f, target, m[target], g)
    ensures FrameOk(c, m, p, parsed, k', g)
  {
    hide Target, Supplied, Feeds;
    SuppliesOneMore(c, m, p, parsed, k, k', target);
    assert Linked(c, m, p, parsed, k');
    forall n, t | Supplies(c, m, p, parsed, k', n, t)
      ensures n in g.origins && g.origins[n] == t && SameShape(g.minArgs, m[t].minArgs, n)
    {
      TookInShape(c, m, p, parsed, k, f, target, g, n, t);
    }
    TookInShaped(parsed, f, target, m[target], g);
    SupplyIsMember(c, m, p, parsed, k', g);
  }

  lemma TookInShaped(parsed: Parsed, f: Frame, target: Path, dep: Surface, g: Frame)
    requires TookIn(parsed, f, target, dep, g) && Shaped(dep) && f.minArgs.Keys <= f.symbols
    ensures g.minArgs.Keys <= g.symbols
  {
    forall n | n in g.minArgs ensures n in g.symbols {
      if n !in Passed(parsed, dep) || n !in dep.minArgs {
        assert n in f.minArgs;
      }
    }
  }

  lemma SupplyIsMember(c: Setting, m: Table, p: Path, parsed: Parsed, k: nat, g: Frame)
    requires k <= |parsed.wildcards|
    requires forall n, t :: Supplies(c, m, p, parsed, k, n, t) ==> n in g.origins && g.origins[n] == t
    ensures forall n, t, t' :: Supplies(c, m, p, parsed, k, n, t) && Supplies(c, m, p, parsed, k, n, t') ==> t == t'
  {
    hide Supplies;
  }

  predicate Shaped(s: Surface) {
    s.minArgs.Keys <= s.symbols
  }

  lemma TookInShape(c: Setting, m: Table, p: Path, parsed: Parsed, k: nat, f: Frame, target: Path, g: Frame, n: Name,
      t: Path)
    requires k < |parsed.wildcards| && f.complete && FrameOk(c, m, p, parsed, k, f) && target in m
    requires TookIn(parsed, f, target, m[target], g)
    requires Supplies(c, m, p, parsed, k, n, t) || (t == target && n in Passed(parsed, m[target]))
    ensures n in g.origins && g.origins[n] == t && SameShape(g.minArgs, m[t].minArgs, n)
  {
    hide Target;
    if Supplies(c, m, p, parsed, k, n, t) {
      assert Supplied(c, m, p, parsed, k, n) && f.origins[n] == t;
    }
  }

  lemma StartIsAssembled(c: Setting, m: Table, p: Path, parsed: Parsed)
    ensures FrameOk(c, m, p, parsed, 0, Start(p, parsed))
  {
    hide Target;
  }

  /** The three functions of the search keep the memo a table; a complete answer is its entry. */
  lemma {:induction false} ResolveKeepsTable(c: Setting, t: Tables, p: Path, depth: nat)
    requires depth <= c.maxDepth + 1 && Sane(c, t)
    ensures var (t', r) := Resolve(c, t, p, depth);
            && Sane(c, t') && Grown(t.memo, t'.memo) && t'.active == t.active
            && (r.Some? && r.value.complete ==> p in t'.memo && t'.memo[p] == r.value)
    decreases c.maxDepth + 1 - depth, 1, 0
  {
    hide Assembled, Linked, Entry, Target, IsNodeSource, Follow;
    if !Refused(c, t, p, depth) && p !in t.memo {
      var admitted := Admit(t.(calls := t.calls + 1), p);
      match ParseAt(c, p)
      case None =>
      case Some(parsed) =>
        if !parsed.localComplete || parsed.wildcards == [] {
          var s := ParsedSurface(p, parsed);
          if s.complete {
            StartIsAssembled(c, t.memo, p, parsed);
            assert parsed.wildcards == [];
            TableExtends(c, t.memo, p, parsed, s);
          }
        } else {
          var inside := admitted.(active := admitted.active + {p});
          StartIsAssembled(c, t.memo, p, parsed);
          WalkKeepsTable(c, inside, p, parsed, depth, 0, Start(p, parsed));
          var (after, f) := Walk(c, inside, p, parsed, depth, 0, Start(p, parsed));
          if f.complete {
            TableExtends(c, after.memo, p, parsed, Finish(parsed, f));
          }
        }
    }
  }

  lemma {:induction false} WalkKeepsTable(c: Setting, t: Tables, p: Path, parsed: Parsed, depth: nat, i: nat, f: Frame)
    requires depth <= c.maxDepth && i <= |parsed.wildcards|
    requires Sane(c, t) && p in t.active && FrameOk(c, t.memo, p, parsed, i, f)
    ensures var (t', f') := Walk(c, t, p, parsed, depth, i, f);
            && Sane(c, t') && Grown(t.memo, t'.memo) && t'.active == t.active
            && FrameOk(c, t'.memo, p, parsed, |parsed.wildcards|, f')
    decreases c.maxDepth + 1 - depth, 0, |parsed.wildcards| - i
  {
    var counted := t.(edges := t.edges + 1);
    if i < |parsed.wildcards| && counted.edges <= c.maxEdges {
      FollowKeepsTable(c, counted, p, parsed, depth, i, f);
      var (t', f') := Follow(c, counted, p, parsed, depth, i, f);
      WalkKeepsTable(c, t', p, parsed, depth, i + 1, f');
    }
  }

  lemma {:induction false} FollowKeepsTable(c: Setting, t: Tables, p: Path, parsed: Parsed, depth: nat, i: nat,
      f: Frame)
    requires depth <= c.maxDepth && i < |parsed.wildcards|
    requires Sane(c, t) && p in t.active && FrameOk(c, t.memo, p, parsed, i, f)
    ensures var (t', f') := Follow(c, t, p, parsed, depth, i, f);
            && Sane(c, t') && Grown(t.memo, t'.memo) && t'.active == t.active
            && FrameOk(c, t'.memo, p, parsed, i + 1, f')
    decreases c.maxDepth + 1 - depth, 0, |parsed.wildcards| - i - 1, 0
  {
    match TargetAt(c, p, parsed, i)
    case None =>
    case Some(target) =>
      var looked := t.(probes := t.probes + TargetProbes(c, p, parsed.wildcards[i]));
      ResolveKeepsTable(c, looked, target, depth + 1);
      var (t', outcome) := Resolve(c, looked, target, depth + 1);
      FrameStays(c, t.memo, t'.memo, p, parsed, i, f);
      if outcome.Some? && outcome.value.complete {
        assert Entry(c, t'.memo, target);
        AccountTakesIn(parsed, f, target, outcome.value);
        if f.complete && Account(parsed, f, target, outcome).complete {
          TakingInKeepsFrame(c, t'.memo, p, parsed, i, i + 1, f, target, Account(parsed, f, target, outcome));
        }
      }
  }
}
