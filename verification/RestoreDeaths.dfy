/**
 Resuming a restore over any layout of targets, after any history of deaths (`restore_apply.py`, lines 83-84,
 156-207, 259-411 and 485-626). While a target is published, its missing ancestors are created, a stage beside it
 is cleared and filled, and the stage is moved over the target; a process may die between any two of these.
 */
module RestoreDeaths {
  import opened Wrappers
  import opened RestorePlans
  import opened RestorePaths
  import opened RestoreLayouts

  // ----- stages -----

  /** `_stage_path`: a name of its own in the parent of the target. */
  function StagePath(path: Path, token: string): Path
    requires path != []
  {
    path[..|path| - 1] + ["." + path[|path| - 1] + ".converge-restore-" + token + ".stage"]
  }

  lemma StageHasItsAncestors(path: Path, token: string, q: Path)
    requires path != []
    ensures q < StagePath(path, token) <==> q < path
  {
    var stage := StagePath(path, token);
    assert stage[..|path| - 1] == path[..|path| - 1];
    if q < path {
      assert q == path[..|path| - 1][..|q|];
      assert q == stage[..|q|];
    }
    if q < stage {
      assert q == stage[..|path| - 1][..|q|];
      assert q == path[..|q|];
    }
  }

  /** A stage is hidden beside its target under a name made of the target's and the token, so no two targets share one
      and none is its own. */
  lemma StageIsBeside(path: Path, other: Path, token: string)
    requires path != [] && other != []
    ensures var stage, last := StagePath(path, token), |path| - 1;
            && |stage| == |path| && stage[..last] == path[..last] && stage != path
            && stage[last] == "." + path[last] + ".converge-restore-" + token + ".stage"
    ensures StagePath(path, token) == StagePath(other, token) <==> path == other
  {
    var stage, last := StagePath(path, token), |path| - 1;
    assert |stage[last]| > |path[last]|;
    if StagePath(path, token) == StagePath(other, token) {
      var tail := ".converge-restore-" + token + ".stage";
      NameFromStage(path[last], tail);
      NameFromStage(other[last], tail);
      assert stage[last] == "." + path[last] + tail && stage[last] == "." + other[last] + tail;
      assert path == path[..last] + [path[last]] && other == stage[..last] + [other[last]];
    }
  }

  lemma NameFromStage(name: string, tail: string)
    ensures ("." + name + tail)[1..|"." + name + tail| - |tail|] == name
  {
  }

  /** A stage as it may look while it is filled: any content of a file, any part of a directory. */
  ghost predicate IsPartial(item: Item, partial: Tree) {
    match item.kind
    case SingleFile => partial.Keys == {[]} && partial[[]].FileOf?
    case EmptyDirectory => partial == map[[] := Dir]
    case _ => [] in partial && partial[[]] == Dir && Closed(partial)
  }

  function StageItem(item: Item, partial: Tree, token: string): Item
    requires item.path != []
  {
    Item(StagePath(item.path, token), partial, item.kind)
  }

  function WithParents(fs: Tree, path: Path): Tree {
    map q | q in fs.Keys + Ancestors(path) :: if q in fs then fs[q] else Dir
  }

  function WithStage(fs: Tree, stage: Item): Tree {
    map q | q in fs.Keys + Placed(stage) :: if At(stage, q).Some? then At(stage, q).value else fs[q]
  }

  /** `_remove_stage`. */
  function Clear(fs: Tree, stage: Path): Tree {
    map q | q in fs && !(stage <= q) :: fs[q]
  }

  /** What a death leaves besides the targets published before: nothing, the ancestors of the next one, or these
      and a stage. */
  datatype Residue = Clean | Prepared | Staged(partial: Tree)

  function Left(base: Tree, item: Item, r: Residue, token: string): Tree
    requires item.path != []
  {
    match r
    case Clean => base
    case Prepared => WithParents(base, item.path)
    case Staged(partial) => WithStage(WithParents(base, item.path), StageItem(item, partial, token))
  }

  // ----- attempts -----

  /** The ensure functions on whatever is there: check an existing target, or clear its stage and publish it. */
  ghost function Ensured(fs: Tree, item: Item, token: string): Option<Tree>
    requires [] in item.tree && item.path != []
  {
    if item.path in fs then if Accepts(fs, item) then Some(fs) else None
    else if Blocked(fs, item.path) then None
    else Some(Publish(Clear(fs, StagePath(item.path, token)), item))
  }

  ghost predicate Named(items: seq<Item>) {
    AllWellFormed(items) && forall i :: 0 <= i < |items| ==> items[i].path != []
  }

  /** The disk after an attempt over the targets, and whether it got through. */
  ghost function Attempted(fs: Tree, items: seq<Item>, token: string): (Tree, bool)
    requires Named(items)
  {
    if items == [] then (fs, true)
    else
      var (before, ok) := Attempted(fs, items[..|items| - 1], token);
      if !ok then (before, false)
      else
        match Ensured(before, items[|items| - 1], token)
        case None => (before, false)
        case Some(after) => (after, true)
  }

  /** Where a process dies while it publishes a target. A death after the move is one before the next target. */
  datatype How = Before | Preparing | Clearing | Copying(partial: Tree)

  datatype Death = Death(n: nat, how: How)

  function Die(fs: Tree, item: Item, how: How, token: string): Tree
    requires item.path != []
  {
    var prepared := WithParents(fs, item.path);
    match how
    case Before => fs
    case Preparing => prepared
    case Clearing => Clear(prepared, StagePath(item.path, token))
    case Copying(partial) => WithStage(Clear(prepared, StagePath(item.path, token)), StageItem(item, partial, token))
  }

  /** An attempt that dies at target `n`, if it gets there and has to publish it. */
  ghost function Dying(fs: Tree, items: seq<Item>, d: Death, token: string): Tree
    requires Named(items)
  {
    if d.n >= |items| then Attempted(fs, items, token).0
    else
      var (reached, ok) := Attempted(fs, items[..d.n], token);
      var item := items[d.n];
      if !ok || item.path in reached || Blocked(reached, item.path) then reached
      else if d.how.Copying? && !IsPartial(item, d.how.partial) then reached
      else Die(reached, item, d.how, token)
  }

  ghost function After(host: Tree, items: seq<Item>, deaths: seq<Death>, token: string): Tree
    requires Named(items)
  {
    if deaths == [] then host
    else Dying(After(host, items, deaths[..|deaths| - 1], token), items, deaths[|deaths| - 1], token)
  }

  // ----- the disks that histories reach -----

  /** Nothing of the host or of a target lies at or below a stage: its name carries the restore's token. */
  ghost predicate FreshStages(host: Tree, items: seq<Item>, token: string)
    requires forall i :: 0 <= i < |items| ==> items[i].path != []
  {
    forall n :: 0 <= n < |items| ==> FreshStage(host, items, StagePath(items[n].path, token))
  }

  ghost predicate FreshStage(host: Tree, items: seq<Item>, stage: Path) {
    && (forall q :: q in host ==> !(stage <= q))
    && (forall i :: 0 <= i < |items| ==> !(stage <= items[i].path))
    && (forall i, q :: 0 <= i < |items| && At(items[i], q).Some? ==> !(stage <= q))
  }

  ghost predicate Restorable(host: Tree, items: seq<Item>, token: string) {
    Ready(host, items) && Named(items) && FreshStages(host, items, token)
  }

  /** The first `n` targets are published, each fits behind the earlier ones, and a death at the next one has left
      its residue. */
  ghost predicate Reached(host: Tree, items: seq<Item>, n: nat, r: Residue, token: string, base: Tree, fs: Tree)
    requires Named(items)
  {
    && n <= |items| && Laid(base, host, items[..n]) && (forall k: nat :: k < n ==> FitsBehind(host, items, k))
    && (if r == Clean then fs == base
        else && n < |items| && FitsBehind(host, items, n) && items[n].path !in base
             && (r.Staged? ==> IsPartial(items[n], r.partial))
             && fs == Left(base, items[n], r, token))
  }

  // ----- residues -----

  lemma NothingAtStage(base: Tree, host: Tree, items: seq<Item>, stage: Path, q: Path)
    requires Laid(base, host, items) && FreshStage(host, items, stage) && q in base
    ensures !(stage <= q)
  {
    hide Laid, At, Closed;
    if q !in host {
      var i := LaidFrom(base, host, items, q);
      if At(items[i], q).None? && stage <= q {
        AboveOf(stage, q, items[i].path);
      }
    }
  }

  lemma AboveOf(a: Path, b: Path, c: Path)
    requires a <= b && b < c
    ensures a <= c
  {
  }

  lemma PrefixIsFresh(host: Tree, items: seq<Item>, n: nat, stage: Path)
    requires FreshStage(host, items, stage) && n <= |items|
    ensures FreshStage(host, items[..n], stage)
  {
    hide At;
  }

  lemma ClearNothing(fs: Tree, stage: Path)
    requires forall q :: q in fs ==> !(stage <= q)
    ensures Clear(fs, stage) == fs
  {
  }

  /** Clearing takes a residue back to the ancestors alone. */
  lemma ClearedResidue(base: Tree, item: Item, r: Residue, token: string)
    requires item.path != [] && forall q :: q in base ==> !(StagePath(item.path, token) <= q)
    ensures Clear(Left(base, item, r, token), StagePath(item.path, token))
              == Left(base, item, if r == Clean then Clean else Prepared, token)
  {
    var stage := StagePath(item.path, token);
    forall q | q in WithParents(base, item.path) ensures !(stage <= q) {
      if q !in base {
        assert q < item.path && |q| < |stage|;
      }
    }
    ClearNothing(base, stage);
    ClearNothing(WithParents(base, item.path), stage);
    if r.Staged? {
      var fs := Left(base, item, r, token);
      forall q | q in fs ensures q in WithParents(base, item.path) <==> !(stage <= q) {
        if q !in WithParents(base, item.path) {
          AtLiesIn(StageItem(item, r.partial, token), q);
        }
      }
      assert Clear(fs, stage) == WithParents(base, item.path);
    }
  }

  /** A residue neither is the target nor puts a file on the way to it. */
  lemma ResidueIsBeside(base: Tree, item: Item, r: Residue, token: string)
    requires item.path != [] && item.path !in base && !(StagePath(item.path, token) <= item.path)
    requires r.Staged? ==> IsPartial(item, r.partial)
    ensures item.path !in Left(base, item, r, token)
    ensures Blocked(Left(base, item, r, token), item.path) <==> Blocked(base, item.path)
  {
    hide Closed;
    var stage := StagePath(item.path, token);
    var fs := Left(base, item, r, token);
    forall q | q < item.path || q == item.path ensures q in fs && q !in base ==> q != item.path && fs[q] == Dir
    {
      StageIsNotAbove(item.path, token, q);
    }
    forall q | q in base && q < item.path ensures q in fs && fs[q] == base[q] {
      StageIsNotAbove(item.path, token, q);
    }
  }

  lemma StageIsNotAbove(path: Path, token: string, q: Path)
    requires path != [] && (q < path || q == path) && !(StagePath(path, token) <= path)
    ensures !(StagePath(path, token) <= q)
  {
  }

  /** Publishing creates the ancestors anyway. */
  lemma PublishOverParents(base: Tree, item: Item)
    requires WellFormed(item)
    ensures Publish(WithParents(base, item.path), item) == Publish(base, item)
  {
    hide At, WellFormed;
  }

  /** The next target is published from a residue as if there were none. */
  lemma EnsuredOverResidue(base: Tree, item: Item, r: Residue, token: string)
    requires WellFormed(item) && item.path != [] && item.path !in base
    requires !(StagePath(item.path, token) <= item.path) && forall q :: q in base ==>
               !(StagePath(item.path, token) <= q)
    requires r.Staged? ==> IsPartial(item, r.partial)
    ensures Ensured(Left(base, item, r, token), item, token) == Step(base, item)
  {
    hide Blocked, Publish, Left, Clear, WellFormed, Accepts, WithParents, StagePath, IsPartial;
    RootOf(item);
    ResidueIsBeside(base, item, r, token);
    ClearedResidue(base, item, r, token);
    PublishOverParents(base, item);
    LeftIs(base, item, token);
  }

  lemma RootOf(item: Item)
    requires WellFormed(item)
    ensures [] in item.tree
  {
    hide Closed;
  }

  lemma LeftIs(base: Tree, item: Item, token: string)
    requires item.path != []
    ensures Left(base, item, Clean, token) == base && Left(base, item, Prepared, token) == WithParents(base, item.path)
  {
  }

  // ----- earlier targets beside a residue -----

  /** The check of an earlier target does not mind what a death at the next one has left: an empty directory must
      not gain anything below it, and a stage in a repository or state directory must be no file or be spared. */
  ghost predicate Spares(item: Item, next: Item, r: Residue, token: string)
    requires next.path != []
  {
    match r
    case Clean => true
    case Prepared => item.kind.EmptyDirectory? ==> !(item.path < next.path[..|next.path| - 1])
    case Staged(_) => SparesStage(item, next, token)
  }

  ghost predicate SparesStage(item: Item, next: Item, token: string)
    requires next.path != []
  {
    item.path < StagePath(next.path, token) ==>
      match item.kind
      case SingleFile => true
      case EmptyDirectory => false
      case _ => next.kind.SingleFile? ==> Spared(item, StagePath(next.path, token))
  }

  /** A residue adds to the disk and changes nothing on it. */
  lemma ResidueAdds(base: Tree, item: Item, r: Residue, token: string, q: Path)
    requires item.path != [] && forall q :: q in base ==> !(StagePath(item.path, token) <= q)
    requires r.Staged? ==> IsPartial(item, r.partial)
    ensures q in base ==> q in Left(base, item, r, token) && Left(base, item, r, token)[q] == base[q]
    ensures q in Left(base, item, r, token) && q !in base ==>
              || (r != Clean && q < item.path && Left(base, item, r, token)[q] == Dir)
              || (r.Staged? && At(StageItem(item, r.partial, token), q) == Some(Left(base, item, r, token)[q]))
  {
    hide Closed, StagePath, IsPartial;
    if r.Staged? {
      var stage := StageItem(item, r.partial, token);
      if At(stage, q).Some? {
        AtLiesIn(stage, q);
      }
    }
  }

  lemma ResidueHas(base: Tree, item: Item, r: Residue, token: string, q: Path)
    requires item.path != [] && r != Clean
    ensures q < item.path ==> q in Left(base, item, r, token)
    ensures r.Staged? && At(StageItem(item, r.partial, token), q).Some? ==>
              q in Left(base, item, r, token)
              && Left(base, item, r, token)[q] == At(StageItem(item, r.partial, token), q).value
  {
    hide StagePath, At;
  }

  /** An earlier target is still accepted beside a residue exactly when it was and spares the residue. */
  lemma AcceptedBesideResidue(base: Tree, item: Item, next: Item, r: Residue, token: string)
    requires WellFormed(item) && next.path != [] && item.path in base
    requires forall q :: q in base ==> !(StagePath(next.path, token) <= q)
    requires forall q :: At(item, q).Some? ==> !(StagePath(next.path, token) <= q)
    requires r.Staged? ==> IsPartial(next, r.partial)
    requires item.IsStore() && next.IsStore() ==> !Overlap(item.path, next.path)
    ensures item.path in Left(base, next, r, token)
    ensures Accepts(Left(base, next, r, token), item) <==> Accepts(base, item) && Spares(item, next, r, token)
  {
    hide Closed, At, Left, StagePath, IsPartial, Overlap;
    var fs := Left(base, next, r, token);
    ResidueAdds(base, next, r, token, item.path);
    match item.kind
    case SingleFile =>
    case EmptyDirectory => EmptyBesideResidue(base, item, next, r, token);
    case _ => StoreBesideResidue(base, item, next, r, token);
  }

  lemma EmptyBesideResidue(base: Tree, item: Item, next: Item, r: Residue, token: string)
    requires item.kind.EmptyDirectory? && [] in item.tree && next.path != [] && item.path in base
    requires item.path in Left(base, next, r, token) && Left(base, next, r, token)[item.path] == base[item.path]
    requires forall q :: q in base ==> !(StagePath(next.path, token) <= q)
    requires r.Staged? ==> IsPartial(next, r.partial)
    ensures Accepts(Left(base, next, r, token), item) <==> Accepts(base, item) && Spares(item, next, r, token)
  {
    hide Closed, At, Left, StagePath, IsPartial;
    var fs := Left(base, next, r, token);
    var parent := next.path[..|next.path| - 1];
    if Accepts(fs, item) {
      forall q | q in base ensures !(item.path < q) {
        ResidueAdds(base, next, r, token, q);
      }
      if r.Prepared? {
        ResidueHas(base, next, r, token, parent);
      }
      if r.Staged? {
        var stage := StagePath(next.path, token);
        StageRoot(next, r.partial, token);
        ResidueHas(base, next, r, token, stage);
      }
    }
    if Accepts(base, item) && Spares(item, next, r, token) {
      forall q | q in fs ensures !(item.path < q) {
        ResidueAdds(base, next, r, token, q);
        if q !in base && item.path < q {
          if q < next.path {
            BelowParent(item.path, q, next.path);
            StageHasItsAncestors(next.path, token, item.path);
            AboveOf(item.path, q, next.path);
          } else {
            AtLiesIn(StageItem(next, r.partial, token), q);
            AboveItsStage(base, item, next, token, q);
          }
        }
      }
    }
  }

  lemma StageRoot(next: Item, partial: Tree, token: string)
    requires next.path != [] && IsPartial(next, partial)
    ensures At(StageItem(next, partial, token), StagePath(next.path, token)) == Some(partial[[]])
  {
    hide StagePath, Closed;
    AtItsPath(StageItem(next, partial, token));
  }

  /** An ancestor strictly below `a` lies below or at the parent. */
  lemma BelowParent(a: Path, q: Path, path: Path)
    requires a < q && q < path
    ensures a < path[..|path| - 1] && a < path
  {
    assert q == path[..|q|];
    assert a == path[..|a|] == path[..|path| - 1][..|a|];
  }

  lemma AboveItsStage(base: Tree, item: Item, next: Item, token: string, q: Path)
    requires next.path != [] && item.path in base && item.path < q && StagePath(next.path, token) <= q
    requires forall q :: q in base ==> !(StagePath(next.path, token) <= q)
    ensures item.path < StagePath(next.path, token)
  {
    hide StagePath;
    PrefixesOverlap(item.path, StagePath(next.path, token), q);
    SamePath(item.path, StagePath(next.path, token));
  }

  lemma StoreBesideResidue(base: Tree, item: Item, next: Item, r: Residue, token: string)
    requires item.IsStore() && WellFormed(item) && next.path != [] && item.path in base
    requires item.path in Left(base, next, r, token) && Left(base, next, r, token)[item.path] == base[item.path]
    requires forall q :: q in base ==> !(StagePath(next.path, token) <= q)
    requires forall q :: At(item, q).Some? ==> !(StagePath(next.path, token) <= q)
    requires r.Staged? ==> IsPartial(next, r.partial)
    requires next.IsStore() ==> !Overlap(item.path, next.path)
    ensures Accepts(Left(base, next, r, token), item) <==> Accepts(base, item) && Spares(item, next, r, token)
  {
    hide Closed, At, Left, StagePath, IsPartial, Overlap, Spared;
    var fs := Left(base, next, r, token);
    var stage := StagePath(next.path, token);
    forall q | q in base ensures q in fs && fs[q] == base[q] {
      ResidueAdds(base, next, r, token, q);
    }
    if Accepts(fs, item) {
      if r.Staged? && next.kind.SingleFile? && item.path < stage {
        StageRoot(next, r.partial, token);
        FileStage(next, r.partial);
        ResidueHas(base, next, r, token, stage);
      }
      forall q | At(item, q).Some? && At(item, q).value.FileOf? ensures q in base && base[q] == At(item, q).value {
        ResidueAdds(base, next, r, token, q);
        if r.Staged? && At(StageItem(next, r.partial, token), q).Some? {
          AtLiesIn(StageItem(next, r.partial, token), q);
        }
      }
    }
    if Accepts(base, item) && Spares(item, next, r, token) {
      forall q | q in fs && fs[q].FileOf? && item.path <= q ensures At(item, q) == Some(fs[q]) || Spared(item, q) {
        ResidueAdds(base, next, r, token, q);
        if q !in base {
          StagedFile(base, item, next, r.partial, token, q);
        }
      }
    }
  }

  lemma FileStage(next: Item, partial: Tree)
    requires next.kind.SingleFile? && IsPartial(next, partial)
    ensures [] in partial && partial[[]].FileOf?
  {
  }

  /** A file of a stage below an earlier store is the stage of a file. */
  lemma StagedFile(base: Tree, item: Item, next: Item, partial: Tree, token: string, q: Path)
    requires item.IsStore() && next.path != [] && item.path in base && item.path <= q && IsPartial(next, partial)
    requires forall q :: q in base ==> !(StagePath(next.path, token) <= q)
    requires At(StageItem(next, partial, token), q).Some? && At(StageItem(next, partial, token), q).value.FileOf?
    requires next.IsStore() ==> !Overlap(item.path, next.path)
    ensures next.kind.SingleFile? && q == StagePath(next.path, token) && item.path < q
  {
    hide Closed, StagePath;
    var stage := StageItem(next, partial, token);
    AtLiesIn(stage, q);
    assert q == stage.path + q[|stage.path|..];
    if item.path != q {
      AboveItsStage(base, item, next, token, q);
      StageHasItsAncestors(next.path, token, item.path);
    }
  }

  // ----- an attempt from a reached disk -----

  /** The targets published before are all accepted: none disturbs an earlier one, and each spares the residue. */
  ghost predicate GoesOn(items: seq<Item>, n: nat, r: Residue, token: string)
    requires n <= |items| && Named(items) && (r != Clean ==> n < |items|)
  {
    && (forall j, i :: 0 <= j < i < n ==> Undisturbed(items[j], items[i]))
    && (r != Clean ==> forall j :: 0 <= j < n ==> Spares(items[j], items[n], r, token))
  }

  lemma PrefixIsReady(host: Tree, items: seq<Item>, n: nat)
    requires Ready(host, items) && n <= |items|
    ensures Ready(host, items[..n])
  {
    hide Closed, WellFormed, Overlap;
    var some := items[..n];
    forall j | 0 <= j < |some| && some[j].IsStore() ensures Sealed(some, some[j]) {
      assert Sealed(items, items[j]);
    }
  }

  lemma PrefixFits(host: Tree, items: seq<Item>, n: nat)
    requires AllWellFormed(items) && n <= |items| && forall k: nat :: k < n ==> FitsBehind(host, items, k)
    ensures AllWellFormed(items[..n]) && AllFit(host, items[..n])
  {
    hide Compatible, WellFormed, Blocked;
    var some := items[..n];
    forall k: nat | k < |some| ensures FitsBehind(host, some, k) {
      assert FitsBehind(host, items, k);
    }
  }

  /** Each target published before is accepted exactly when no later one of them disturbs it and it spares the
      residue. */
  lemma PublishedIsAcceptedIff(host: Tree, items: seq<Item>, n: nat, r: Residue, token: string, base: Tree, fs: Tree,
      j: nat)
    requires Restorable(host, items, token) && Reached(host, items, n, r, token, base, fs) && j < n
    ensures items[j].path in fs
    ensures Accepts(fs, items[j]) <==>
              && (forall i :: j < i < n ==> Undisturbed(items[j], items[i]))
              && (r != Clean ==> Spares(items[j], items[n], r, token))
  {
    hide Laid, Closed, At, Left, StagePath, IsPartial, Accepts, Undisturbed, Spares, Sealed, Overlap, FitsBehind,
        FreshStage;
    var some := items[..n];
    assert WellFormed(items[j]);
    PrefixIsReady(host, items, n);
    PrefixFits(host, items, n);
    StillAcceptedIff(base, host, some, j);
    if r != Clean {
      var stage := StagePath(items[n].path, token);
      assert FreshStage(host, items, stage);
      BaseIsFresh(host, items, n, base, stage);
      ItemIsFresh(host, items, j, stage);
      assert IsStoreApart(items, j, n);
      AcceptedBesideResidue(base, items[j], items[n], r, token);
    }
  }

  ghost predicate IsStoreApart(items: seq<Item>, j: nat, n: nat)
    requires j < n < |items|
  {
    items[j].IsStore() && items[n].IsStore() ==> !Overlap(items[j].path, items[n].path)
  }

  lemma BaseIsFresh(host: Tree, items: seq<Item>, n: nat, base: Tree, stage: Path)
    requires n <= |items| && Laid(base, host, items[..n]) && FreshStage(host, items, stage)
    ensures forall q :: q in base ==> !(stage <= q)
  {
    hide Laid, FreshStage;
    PrefixIsFresh(host, items, n, stage);
    forall q | q in base ensures !(stage <= q) {
      NothingAtStage(base, host, items[..n], stage, q);
    }
  }

  lemma ItemIsFresh(host: Tree, items: seq<Item>, j: nat, stage: Path)
    requires FreshStage(host, items, stage) && j < |items|
    ensures !(stage <= items[j].path) && forall q :: At(items[j], q).Some? ==> !(stage <= q)
  {
    hide At;
  }

  lemma AttemptedOneMore(fs: Tree, items: seq<Item>, k: nat, k': nat, token: string)
    requires Named(items) && k' == k + 1 <= |items|
    ensures var (before, ok) := Attempted(fs, items[..k], token);
            var after := Ensured(before, items[k], token);
            Attempted(fs, items[..k'], token) ==
              if ok && after.Some? then (after.value, true) else (before, false)
  {
    hide Ensured, AllWellFormed;
    RootOfAll(items, k);
    assert items[..k'][..k] == items[..k] && items[..k'][k] == items[k];
  }

  lemma RootOfAll(items: seq<Item>, k: nat)
    requires Named(items) && k < |items|
    ensures WellFormed(items[k]) && [] in items[k].tree && items[k].path != []
  {
    hide Closed;
    assert WellFormed(items[k]);
  }

  /** Over the targets published before, an attempt changes nothing. */
  lemma {:induction false} OverThePublished(host: Tree, items: seq<Item>, n: nat, r: Residue, token: string,
                                            base: Tree, fs: Tree, k: nat)
    requires Restorable(host, items, token) && Reached(host, items, n, r, token, base, fs) && k <= n
    ensures Attempted(fs, items[..k], token).0 == fs
    ensures Attempted(fs, items[..k], token).1 <==> forall j: nat :: j < k ==> AcceptsThere(fs, items, j)
  {
    hide Restorable, Reached, Accepts, Attempted, AllWellFormed;
    NamedItems(host, items, token);
    if k == 0 {
      NoneAttempted(fs, items[..0], token);
    } else {
      var k1: nat := k - 1;
      ReachedIsInside(host, items, n, r, token, base, fs);
      OverThePublished(host, items, n, r, token, base, fs, k1);
      AttemptedOneMore(fs, items, k1, k, token);
      PublishedIsAcceptedIff(host, items, n, r, token, base, fs, k1);
      RootOfAll(items, k1);
      assert AcceptsThere(fs, items, k1) <==> Ensured(fs, items[k1], token) == Some(fs);
    }
  }

  ghost predicate AcceptsThere(fs: Tree, items: seq<Item>, j: nat)
    requires j < |items|
  {
    items[j].path in fs && [] in items[j].tree && Accepts(fs, items[j])
  }

  lemma NamedItems(host: Tree, items: seq<Item>, token: string)
    requires Restorable(host, items, token)
    ensures Named(items) && AllWellFormed(items) && Ready(host, items)
  {
  }

  lemma ReachedIsInside(host: Tree, items: seq<Item>, n: nat, r: Residue, token: string, base: Tree, fs: Tree)
    requires Named(items) && Reached(host, items, n, r, token, base, fs)
    ensures n <= |items| && (r != Clean ==> n < |items|)
  {
    hide Laid, Left;
  }

  lemma NoneAttempted(fs: Tree, none: seq<Item>, token: string)
    requires none == []
    ensures Attempted(fs, none, token) == (fs, true)
  {
  }

  /** All of them are accepted exactly when the attempt goes on. */
  lemma GoesOnIff(host: Tree, items: seq<Item>, n: nat, r: Residue, token: string, base: Tree, fs: Tree)
    requires Restorable(host, items, token) && Reached(host, items, n, r, token, base, fs)
    ensures n <= |items| && Named(items) && (r != Clean ==> n < |items|)
    ensures GoesOn(items, n, r, token) <==> forall j: nat :: j < n ==> AcceptsThere(fs, items, j)
  {
    hide Reached, Accepts, Undisturbed, Spares, AllWellFormed, Ready, FreshStages;
    NamedItems(host, items, token);
    ReachedIsInside(host, items, n, r, token, base, fs);
    forall j: nat | j < n
      ensures AcceptsThere(fs, items, j) <==>
                && (forall i :: j < i < n ==> Undisturbed(items[j], items[i]))
                && (r != Clean ==> Spares(items[j], items[n], r, token))
    {
      PublishedIsAcceptedIff(host, items, n, r, token, base, fs, j);
      RootOfAll(items, j);
    }
  }

  /** The next target is published, over whatever residue, exactly when it fits. */
  lemma NextIsPublished(host: Tree, items: seq<Item>, n: nat, n': nat, r: Residue, token: string, base: Tree, fs: Tree)
    requires Restorable(host, items, token) && Reached(host, items, n, r, token, base, fs) && n' == n + 1 <= |items|
    ensures WellFormed(items[n])
    ensures Ensured(fs, items[n], token).Some? <==> FitsBehind(host, items, n)
    ensures Ensured(fs, items[n], token).Some? ==>
              var next := Ensured(fs, items[n], token).value; Reached(host, items, n', Clean, token, next, next)
  {
    hide Laid, Closed, Ensured, Step, Left, StagePath, IsPartial, FitsBehind, Sealed, FreshStage;
    RootOfAll(items, n);
    var stage := StagePath(items[n].path, token);
    assert FreshStage(host, items, stage);
    BaseIsFresh(host, items, n, base, stage);
    ItemIsFresh(host, items, n, stage);
    StepIff(base, host, items, n);
    if items[n].path in base {
      EnsuredPresent(base, items[n], token);
    } else {
      EnsuredOverResidue(base, items[n], r, token);
      LeftIs(base, items[n], token);
    }
    if Step(base, items[n]).Some? {
      StepLays(base, host, items, n, n');
    }
  }

  lemma EnsuredPresent(fs: Tree, item: Item, token: string)
    requires [] in item.tree && item.path != [] && item.path in fs
    ensures Ensured(fs, item, token) == Step(fs, item)
  {
  }

  /** `fs` is reached with at least `least` targets published. */
  ghost predicate ReachedSome(host: Tree, items: seq<Item>, token: string, fs: Tree, least: nat)
    requires Named(items)
  {
    exists n: nat, r, base :: n >= least && Reached(host, items, n, r, token, base, fs)
  }

  /** From a reached disk an attempt passes the first `k` targets exactly when the published ones are accepted and
      each of the others fits; it leaves a reached disk in any case. */
  lemma {:induction false} AttemptFrom(host: Tree, items: seq<Item>, n: nat, r: Residue, token: string, base: Tree,
                                       fs: Tree, k: nat)
    requires Restorable(host, items, token) && Reached(host, items, n, r, token, base, fs) && n < k <= |items|
    ensures Named(items) && (r != Clean ==> n < |items|)
    ensures Attempted(fs, items[..k], token).1 <==>
              GoesOn(items, n, r, token) && forall m: nat :: n <= m < k ==> FitsBehind(host, items, m)
    ensures Attempted(fs, items[..k], token).1 ==>
              var after := Attempted(fs, items[..k], token).0; Reached(host, items, k, Clean, token, after, after)
    ensures ReachedSome(host, items, token, Attempted(fs, items[..k], token).0, 0)
    decreases k
  {
    hide Restorable, Reached, Accepts, Attempted, WellFormed, GoesOn, FitsBehind, Ensured;
    NamedItems(host, items, token);
    ReachedIsInside(host, items, n, r, token, base, fs);
    var k1: nat := k - 1;
    AttemptedOneMore(fs, items, k1, k, token);
    if k1 == n {
      OverThePublished(host, items, n, r, token, base, fs, n);
      GoesOnIff(host, items, n, r, token, base, fs);
      NextIsPublished(host, items, n, k, r, token, base, fs);
    } else {
      AttemptFrom(host, items, n, r, token, base, fs, k1);
      if Attempted(fs, items[..k1], token).1 {
        var before := Attempted(fs, items[..k1], token).0;
        NextIsPublished(host, items, k1, k, Clean, token, before, before);
      }
    }
  }

  /** The next uninterrupted attempt completes exactly when every target fits, no published one disturbs an earlier
      one, and each of them spares what the last death has left. */
  lemma NextAttemptCompletesIff(host: Tree, items: seq<Item>, n: nat, r: Residue, token: string, base: Tree, fs: Tree)
    requires Restorable(host, items, token) && Reached(host, items, n, r, token, base, fs)
    ensures n <= |items| && Named(items) && (r != Clean ==> n < |items|)
    ensures Attempted(fs, items, token).1 <==> GoesOn(items, n, r, token) && AllFit(host, items)
    ensures Attempted(fs, items, token).1 ==> Laid(Attempted(fs, items, token).0, host, items)
  {
    hide Restorable, Accepts, Attempted, AllWellFormed, GoesOn, FitsBehind, Laid, Left;
    NamedItems(host, items, token);
    assert items[..|items|] == items;
    if n < |items| {
      AttemptFrom(host, items, n, r, token, base, fs, |items|);
    } else {
      OverThePublished(host, items, n, r, token, base, fs, n);
      GoesOnIff(host, items, n, r, token, base, fs);
    }
  }

  /** An attempt over any number of targets leaves a reached disk, with all of them published if it got through. */
  lemma AttemptKeepsReached(host: Tree, items: seq<Item>, token: string, fs: Tree, k: nat)
    requires Restorable(host, items, token) && ReachedSome(host, items, token, fs, 0) && k <= |items|
    ensures ReachedSome(host, items, token, Attempted(fs, items[..k], token).0,
                        if Attempted(fs, items[..k], token).1 then k else 0)
  {
    hide Restorable, Reached, Accepts, Attempted, GoesOn, FitsBehind, WellFormed;
    NamedItems(host, items, token);
    var n: nat, r, base :| Reached(host, items, n, r, token, base, fs);
    if k <= n {
      OverThePublished(host, items, n, r, token, base, fs, k);
    } else {
      AttemptFrom(host, items, n, r, token, base, fs, k);
    }
  }

  // ----- deaths -----

  /** What a death makes of the residue it found. */
  function Becomes(r: Residue, how: How): Residue {
    match how
    case Before => r
    case Preparing => if r == Clean then Prepared else r
    case Clearing => Prepared
    case Copying(partial) => Staged(partial)
  }

  lemma ParentsTwice(fs: Tree, path: Path)
    ensures WithParents(WithParents(fs, path), path) == WithParents(fs, path)
  {
  }

  lemma ParentsBesideStage(fs: Tree, path: Path, stage: Item)
    requires forall q :: q < path ==> At(stage, q).None?
    ensures WithParents(WithStage(WithParents(fs, path), stage), path) == WithStage(WithParents(fs, path), stage)
  {
  }

  /** A death leaves the disk it found with another residue. */
  lemma DieLeaves(base: Tree, item: Item, r: Residue, how: How, token: string)
    requires item.path != [] && forall q :: q in base ==> !(StagePath(item.path, token) <= q)
    requires !(StagePath(item.path, token) <= item.path)
    ensures Die(Left(base, item, r, token), item, how, token) == Left(base, item, Becomes(r, how), token)
  {
    hide Left, Clear, StagePath, At, WithStage, WithParents;
    LeftIs(base, item, token);
    ClearedResidue(base, item, Prepared, token);
    ClearedResidue(base, item, r, token);
    ParentsOfResidue(base, item, r, token);
    StagedIs(base, item, token);
  }

  lemma StagedIs(base: Tree, item: Item, token: string)
    requires item.path != []
    ensures forall partial :: Left(base, item, Staged(partial), token)
                              == WithStage(WithParents(base, item.path), StageItem(item, partial, token))
  {
  }

  /** The ancestors are there after any death but one before them. */
  lemma ParentsOfResidue(base: Tree, item: Item, r: Residue, token: string)
    requires item.path != [] && !(StagePath(item.path, token) <= item.path)
    ensures WithParents(Left(base, item, r, token), item.path)
              == Left(base, item, if r == Clean then Prepared else r, token)
  {
    hide WithStage, WithParents, StagePath;
    LeftIs(base, item, token);
    ParentsTwice(base, item.path);
    if r.Staged? {
      var stage := StageItem(item, r.partial, token);
      forall q | q < item.path ensures At(stage, q).None? {
        StageIsNotAbove(item.path, token, q);
      }
      ParentsBesideStage(base, item.path, stage);
    }
  }

  lemma DyingKeepsReached(host: Tree, items: seq<Item>, token: string, fs: Tree, d: Death)
    requires Restorable(host, items, token) && ReachedSome(host, items, token, fs, 0)
    ensures ReachedSome(host, items, token, Dying(fs, items, d, token), 0)
  {
    hide Restorable, Reached, Attempted, WellFormed, Die, IsPartial, Blocked;
    NamedItems(host, items, token);
    if d.n >= |items| {
      assert items[..|items|] == items;
      AttemptKeepsReached(host, items, token, fs, |items|);
    } else {
      AttemptKeepsReached(host, items, token, fs, d.n);
      var (reached, ok) := Attempted(fs, items[..d.n], token);
      var item := items[d.n];
      if ok && item.path !in reached && !Blocked(reached, item.path)
          && (d.how.Copying? ==> IsPartial(item, d.how.partial)) {
        var n: nat, r, base :| n >= d.n && Reached(host, items, n, r, token, base, reached);
        DyingAt(host, items, n, r, token, base, reached, d);
      }
    }
  }

  lemma DyingAt(host: Tree, items: seq<Item>, n: nat, r: Residue, token: string, base: Tree, reached: Tree, d: Death)
    requires Restorable(host, items, token) && Reached(host, items, n, r, token, base, reached) && d.n <= n
               && d.n < |items|
    requires items[d.n].path !in reached && !Blocked(reached, items[d.n].path)
    requires d.how.Copying? ==> IsPartial(items[d.n], d.how.partial)
    ensures items[d.n].path != [] && Named(items)
    ensures Reached(host, items, d.n, Becomes(r, d.how), token, base, Die(reached, items[d.n], d.how, token))
  {
    hide Laid, Closed, At, Left, StagePath, IsPartial, FitsBehind, Sealed, FreshStage, Die, Blocked, Accepts;
    var item := items[d.n];
    RootOfAll(items, d.n);
    if d.n < n {
      PublishedIsThere(host, items, n, r, token, base, reached, d.n);
    }
    var stage := StagePath(item.path, token);
    assert FreshStage(host, items, stage);
    BaseIsFresh(host, items, n, base, stage);
    ItemIsFresh(host, items, d.n, stage);
    ResidueIsThere(base, item, r, token);
    LeftIs(base, item, token);
    ResidueIsBeside(base, item, r, token);
    AbsentStepIff(base, host, items, n);
    DieLeaves(base, item, r, d.how, token);
  }

  lemma PublishedIsThere(host: Tree, items: seq<Item>, n: nat, r: Residue, token: string, base: Tree, fs: Tree, j: nat)
    requires Restorable(host, items, token) && Reached(host, items, n, r, token, base, fs) && j < n
    ensures items[j].path in fs
  {
    PublishedIsAcceptedIff(host, items, n, r, token, base, fs, j);
  }

  lemma ResidueIsThere(base: Tree, item: Item, r: Residue, token: string)
    requires item.path != [] && forall q :: q in base ==> !(StagePath(item.path, token) <= q)
    ensures forall q :: q in base ==> q in Left(base, item, r, token)
  {
    hide StagePath, At;
  }

  // ----- whole histories -----

  lemma {:induction false} HistoriesAreReached(host: Tree, items: seq<Item>, token: string, deaths: seq<Death>)
    requires Restorable(host, items, token)
    ensures Named(items) && ReachedSome(host, items, token, After(host, items, deaths, token), 0)
  {
    hide Restorable, Reached, Dying, AllWellFormed;
    NamedItems(host, items, token);
    if deaths == [] {
      HostIsReached(host, items, token);
    } else {
      HistoriesAreReached(host, items, token, deaths[..|deaths| - 1]);
      DyingKeepsReached(host, items, token, After(host, items, deaths[..|deaths| - 1], token), deaths[|deaths| - 1]);
    }
  }

  lemma HostIsReached(host: Tree, items: seq<Item>, token: string)
    requires Restorable(host, items, token)
    ensures Reached(host, items, 0, Clean, token, host, host)
  {
    hide Laid, FitsBehind, Left;
    ClosedHost(host, items);
    NothingLaid(host, items[..0]);
  }

  /** The target is published from a stage: nothing published before is already there. */
  ghost predicate NeedsStage(items: seq<Item>, n: nat)
    requires n < |items|
  {
    forall i :: 0 <= i < n ==> At(items[i], items[n].path).None?
  }

  /** No target disturbs an earlier one, neither when it is published nor by the stage it is published from. */
  ghost predicate NeverDisturbed(items: seq<Item>, token: string)
    requires Named(items)
  {
    && AllUndisturbed(items)
    && forall j, n: nat :: 0 <= j < n < |items| && NeedsStage(items, n) ==> SparesStage(items[j], items[n], token)
  }

  lemma ResidueNeedsStage(host: Tree, items: seq<Item>, n: nat, r: Residue, token: string, base: Tree, fs: Tree)
    requires Named(items) && Reached(host, items, n, r, token, base, fs) && r != Clean
    ensures n < |items| && NeedsStage(items, n)
  {
    hide Laid, At, Left, IsPartial, FitsBehind;
    forall i | 0 <= i < n ensures At(items[i], items[n].path).None? {
      if At(items[i], items[n].path).Some? {
        assert items[..n][i] == items[i];
        LaidAt(base, host, items[..n], i, items[n].path);
      }
    }
  }

  /** Whatever deaths came before, an uninterrupted attempt completes. */
  ghost predicate AlwaysResumes(host: Tree, items: seq<Item>, token: string)
    requires Named(items)
  {
    forall deaths: seq<Death> :: Attempted(After(host, items, deaths, token), items, token).1
  }

  /** Whatever deaths came before, an uninterrupted attempt completes exactly when every target fits behind the
      earlier ones and none disturbs one, neither itself nor by its stage. */
  lemma AlwaysResumableIff(host: Tree, items: seq<Item>, token: string)
    requires Restorable(host, items, token)
    ensures Named(items)
    ensures AlwaysResumes(host, items, token) <==> AllFit(host, items) && NeverDisturbed(items, token)
  {
    hide Restorable, Reached, Attempted, AllWellFormed, After, AllFit, NeverDisturbed;
    NamedItems(host, items, token);
    if AllFit(host, items) && NeverDisturbed(items, token) {
      forall deaths: seq<Death> ensures Attempted(After(host, items, deaths, token), items, token).1 {
        HistoriesAreReached(host, items, token, deaths);
        var fs := After(host, items, deaths, token);
        var n: nat, r, base :| Reached(host, items, n, r, token, base, fs);
        NextAttemptCompletesIff(host, items, n, r, token, base, fs);
        if r != Clean {
          ResidueNeedsStage(host, items, n, r, token, base, fs);
        }
        NeverDisturbedGoesOn(items, n, r, token);
      }
    }
    if AlwaysResumes(host, items, token) {
      assert Attempted(After(host, items, [], token), items, token).1;
      AlwaysFits(host, items, token);
      forall j, i | 0 <= j < i < |items| ensures Undisturbed(items[j], items[i]) {
        AlwaysUndisturbed(host, items, token, j, i);
      }
      forall j, n: nat | 0 <= j < n < |items| && NeedsStage(items, n) ensures SparesStage(items[j], items[n], token) {
        AlwaysSpares(host, items, token, j, n);
      }
      DisturbedIs(items, token);
    }
  }

  lemma DisturbedIs(items: seq<Item>, token: string)
    requires Named(items)
    requires forall j, i :: 0 <= j < i < |items| ==> Undisturbed(items[j], items[i])
    requires forall j, n: nat :: 0 <= j < n < |items| && NeedsStage(items, n) ==> SparesStage(items[j], items[n], token)
    ensures NeverDisturbed(items, token)
  {
    hide Undisturbed, SparesStage, AllWellFormed, NeedsStage;
  }

  lemma NeverDisturbedGoesOn(items: seq<Item>, n: nat, r: Residue, token: string)
    requires Named(items) && NeverDisturbed(items, token) && n <= |items|
    requires r != Clean ==> n < |items| && NeedsStage(items, n)
    ensures GoesOn(items, n, r, token)
  {
    hide Undisturbed, SparesStage, AllWellFormed, NeedsStage;
    if r != Clean {
      forall j | 0 <= j < n ensures Spares(items[j], items[n], r, token) {
        SparingTheStage(items[j], items[n], r, token);
      }
    }
  }

  lemma SparingTheStage(item: Item, next: Item, r: Residue, token: string)
    requires next.path != [] && SparesStage(item, next, token)
    ensures Spares(item, next, r, token)
  {
    hide StagePath;
    var parent := next.path[..|next.path| - 1];
    if item.path < parent {
      AboveOf(item.path, parent, next.path);
      StageHasItsAncestors(next.path, token, item.path);
      assert item.path < next.path;
    }
  }

  lemma NoDeaths(host: Tree, items: seq<Item>, token: string)
    requires Named(items)
    ensures After(host, items, [], token) == host
  {
  }

  lemma OneDeath(host: Tree, items: seq<Item>, d: Death, token: string)
    requires Named(items)
    ensures After(host, items, [d], token) == Dying(host, items, d, token)
  {
    hide Dying, AllWellFormed;
    assert [d][..0] == [];
    NoDeaths(host, items, token);
  }

  lemma AlwaysFits(host: Tree, items: seq<Item>, token: string)
    requires Restorable(host, items, token) && Named(items) && Attempted(After(host, items, [], token), items, token).1
    ensures AllFit(host, items)
  {
    hide Attempted, After, Reached, Restorable, AllWellFormed;
    NoDeaths(host, items, token);
    HostIsReached(host, items, token);
    NextAttemptCompletesIff(host, items, 0, Clean, token, host, host);
  }

  lemma AlwaysUndisturbed(host: Tree, items: seq<Item>, token: string, j: nat, i: nat)
    requires Restorable(host, items, token) && Named(items) && AllFit(host, items) && j < i < |items|
    requires AlwaysResumes(host, items, token)
    ensures Undisturbed(items[j], items[i])
  {
    hide Attempted, After, Reached, Restorable, AllWellFormed, Undisturbed, FitsBehind;
    var d := Death(|items|, Before);
    assert Attempted(After(host, items, [d], token), items, token).1;
    OneDeath(host, items, d, token);
    HostIsReached(host, items, token);
    assert items[..|items|] == items;
    assert GoesOn(items, 0, Clean, token);
    AttemptFrom(host, items, 0, Clean, token, host, host, |items|);
    var fs := Attempted(host, items, token).0;
    NextAttemptCompletesIff(host, items, |items|, Clean, token, fs, fs);
  }

  lemma AlwaysSpares(host: Tree, items: seq<Item>, token: string, j: nat, n: nat)
    requires Restorable(host, items, token) && Named(items) && AllFit(host, items) && j < n < |items|
               && NeedsStage(items, n)
    requires AlwaysResumes(host, items, token)
    ensures SparesStage(items[j], items[n], token)
  {
    hide Attempted, After, Reached, Restorable, AllWellFormed, Undisturbed, FitsBehind, SparesStage, Dying, NeedsStage;
    var partial := items[n].tree;
    var d := Death(n, Copying(partial));
    assert Attempted(After(host, items, [d], token), items, token).1;
    OneDeath(host, items, d, token);
    var base := DiesCopying(host, items, token, n);
    NextAttemptCompletesIff(host, items, n, Staged(partial), token, base, Dying(host, items, d, token));
  }

  /** Where every target fits, a process can die with the stage of any target that needs one on the disk. */
  lemma DiesCopying(host: Tree, items: seq<Item>, token: string, n: nat) returns (base: Tree)
    requires Restorable(host, items, token) && Named(items) && AllFit(host, items) && n < |items|
               && NeedsStage(items, n)
    ensures Reached(host, items, n, Staged(items[n].tree), token, base,
                    Dying(host, items, Death(n, Copying(items[n].tree)), token))
  {
    hide Attempted, Reached, Restorable, WellFormed, FitsBehind, IsPartial, Die, Blocked;
    var partial := items[n].tree;
    HostIsReached(host, items, token);
    base := Attempted(host, items[..n], token).0;
    if n == 0 {
      NoneAttempted(host, items[..0], token);
    } else {
      assert GoesOn(items, 0, Clean, token);
      AttemptFrom(host, items, 0, Clean, token, host, host, n);
    }
    assert Attempted(host, items[..n], token).1;
    StageIsNeeded(host, items, n, token, base);
    DyingAt(host, items, n, Clean, token, base, base, Death(n, Copying(partial)));
  }

  lemma StageIsNeeded(host: Tree, items: seq<Item>, n: nat, token: string, base: Tree)
    requires Restorable(host, items, token) && Named(items) && AllFit(host, items) && n < |items|
               && NeedsStage(items, n)
    requires Reached(host, items, n, Clean, token, base, base)
    ensures items[n].path !in base && !Blocked(base, items[n].path) && IsPartial(items[n], items[n].tree)
  {
    hide Laid, At, Closed, Blocked, Sealed, FreshStages, Overlap;
    var before := items[..n];
    assert WellFormed(items[n]) && FitsBehind(host, items, n);
    ExistsIff(base, host, before, items[n].path);
    forall i | 0 <= i < |before| ensures !FromItem(before[i], items[n].path) {
      assert before[i] == items[i] && Compatible(items[i], items[n]);
    }
    AbsentStepIff(base, host, items, n);
  }

  // ----- plans -----

  /** The stages of a sound, accepted plan are fresh; the root of the host exists. */
  ghost predicate SoundStages(l: Layout, host: Tree, token: string) {
    && Accepted(l, host) && Sound(l, host) && [] in host
    && forall n :: 0 <= n < |Items(l)| && Items(l)[n].path != [] ==>
         FreshStage(host, Items(l), StagePath(Items(l)[n].path, token))
  }

  lemma PlanIsRestorable(l: Layout, host: Tree, token: string)
    requires SoundStages(l, host, token)
    ensures Restorable(host, Items(l), token)
  {
    hide FilesystemItems, Accepted, FreshStage, WellFormed, Closed, Sealed, Overlap, StagePath;
    AcceptedIsReady(l, host);
    forall i | 0 <= i < |Items(l)| ensures Items(l)[i].path != [] {
      assert Items(l)[i].path !in host;
    }
  }

  /** For an accepted plan and any history of deaths: the disk holds the first `n` targets and a residue of the next
      one, and the next uninterrupted attempt completes exactly when the published targets are still accepted beside
      it and all targets fit. */
  lemma NextAttemptAfterAnyHistory(l: Layout, host: Tree, token: string, deaths: seq<Death>)
    returns (n: nat, r: Residue, base: Tree)
    requires SoundStages(l, host, token)
    ensures Named(Items(l)) && n <= |Items(l)| && (r != Clean ==> n < |Items(l)|)
    ensures Reached(host, Items(l), n, r, token, base, After(host, Items(l), deaths, token))
    ensures Attempted(After(host, Items(l), deaths, token), Items(l), token).1
            <==> GoesOn(Items(l), n, r, token) && AllFit(host, Items(l))
  {
    hide Items, Reached, Attempted, After, Restorable, GoesOn, AllFit, AllWellFormed, WellFormed, Closed, Sealed,
        FreshStage, Accepted;
    PlanIsRestorable(l, host, token);
    HistoriesAreReached(host, Items(l), token, deaths);
    n, r, base :| Reached(host, Items(l), n, r, token, base, After(host, Items(l), deaths, token));
    NextAttemptCompletesIff(host, Items(l), n, r, token, base, After(host, Items(l), deaths, token));
  }

  /** An accepted plan can always be resumed to completion exactly when all its targets fit and none disturbs an
      earlier one, neither itself nor by its stage. */
  lemma PlanAlwaysResumesIff(l: Layout, host: Tree, token: string)
    requires SoundStages(l, host, token)
    ensures Named(Items(l))
    ensures AlwaysResumes(host, Items(l), token) <==> AllFit(host, Items(l)) && NeverDisturbed(Items(l), token)
  {
    hide Items, AlwaysResumes, AllFit, NeverDisturbed, Restorable, AllWellFormed, WellFormed, Closed, Sealed,
        FreshStage, Accepted;
    PlanIsRestorable(l, host, token);
    AlwaysResumableIff(host, Items(l), token);
  }

  /** The state check ignores a nested database but sees its stage, unless the stage lies in the nested worktree. */
  lemma NestedDatabaseShowsItsStage(p: ProjectTargets, a: Artifacts, database: Path, content: Bytes, token: string)
    requires database != [] && Or(p.state) < database && !(StagePath(database, token) <= database)
    ensures SparesStage(ProjectItems(p, a, database)[3], File(database, content), token)
            <==> LiesIn(Or(p.worktree), Or(p.state)) && LiesIn(StagePath(database, token), Or(p.worktree))
  {
    var stage := StagePath(database, token);
    StageHasItsAncestors(database, token, Or(p.state));
    assert |stage| == |database|;
    assert LiesIn(stage, database) ==> stage == database;
    if LiesIn(Or(p.worktree), Or(p.state)) && LiesIn(stage, Or(p.worktree)) {
      assert Or(p.worktree) in Nested(p, database);
    }
  }
}
