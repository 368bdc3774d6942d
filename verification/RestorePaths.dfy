/**
 Which accepted restore plans can be published, given where their targets lie (`restore_apply.py`, lines
 72-80, 165-411 and 560-615). A file system maps each existing path to a directory or a file. Targets are
 published in the order of the journal keys; publishing one creates its missing ancestors.
 */
module RestorePaths {
  import opened Wrappers
  import opened RestorePlans
  import B = BackupManifests

  type Bytes = B.Bytes

  datatype Node = Dir | FileOf(content: Bytes)

  type Tree = map<Path, Node>

  /** How an existing target is checked. `gitIgnored` are the paths of a checkout that `git status` does not
      report; `ignored` are the nested worktree and database of a state directory. */
  datatype Kind =
    | SingleFile
    | Repository(gitIgnored: Path -> bool)
    | StateStore(ignored: set<Path>)
    | EmptyDirectory

  /** One target and what the backup holds for it: nodes at paths relative to the target. */
  datatype Item = Item(path: Path, tree: Tree, kind: Kind) {
    predicate IsStore() {
      kind.Repository? || kind.StateStore?
    }
  }

  /** Whatever exists lies in directories that exist. */
  ghost predicate Closed(tree: Tree) {
    forall q, r :: q in tree && r < q ==> r in tree && tree[r] == Dir
  }

  predicate UnderAny(paths: set<Path>, q: Path) {
    exists path :: path in paths && LiesIn(q, path)
  }

  ghost predicate WellFormed(item: Item) {
    && [] in item.tree && Closed(item.tree)
    && match item.kind
       case SingleFile => item.tree.Keys == {[]} && item.tree[[]].FileOf?
       case EmptyDirectory => item.tree == map[[] := Dir]
       case Repository(_) => item.tree[[]] == Dir
       case StateStore(ignored) =>
         item.tree[[]] == Dir
         && forall rel :: rel in item.tree && item.tree[rel].FileOf? ==> !UnderAny(ignored, item.path + rel)
  }

  // ----- publishing one target -----

  /** What the item itself places at `q`. */
  function At(item: Item, q: Path): Option<Node> {
    if item.path <= q && q[|item.path|..] in item.tree then Some(item.tree[q[|item.path|..]]) else None
  }

  function Ancestors(path: Path): (ancestors: set<Path>)
    ensures forall q :: q in ancestors <==> q < path
  {
    var all := set k: nat | k < |path| :: path[..k];
    assert forall q :: q < path ==> q == path[..|q|];
    all
  }

  function Placed(item: Item): (placed: set<Path>)
    ensures forall q :: q in placed <==> At(item, q).Some?
  {
    var all := set rel | rel in item.tree :: item.path + rel;
    assert forall q :: At(item, q).Some? ==> q == item.path + q[|item.path|..];
    assert forall rel :: rel in item.tree ==> (item.path + rel)[|item.path|..] == rel;
    all
  }

  function Publish(fs: Tree, item: Item): Tree {
    map q | q in fs.Keys + Ancestors(item.path) + Placed(item) ::
      if At(item, q).Some? then At(item, q).value else if q in fs then fs[q] else Dir
  }

  /** Creating the parents of the path fails: one of its ancestors is a file. */
  predicate Blocked(fs: Tree, path: Path) {
    exists q | q in fs :: q < path && fs[q].FileOf?
  }

  /** Files below a directory target that its check does not mind. */
  predicate Spared(item: Item, q: Path)
    requires item.path <= q
  {
    match item.kind
    case Repository(gitIgnored) => gitIgnored(q[|item.path|..])
    case StateStore(ignored) => UnderAny(ignored, q)
    case _ => false
  }

  /** The check of an existing target: its own files are intact, and other files are spared. */
  ghost predicate Accepts(fs: Tree, item: Item)
    requires item.path in fs && [] in item.tree
  {
    match item.kind
    case SingleFile => fs[item.path] == item.tree[[]]
    case EmptyDirectory => fs[item.path] == Dir && forall q :: q in fs ==> !(item.path < q)
    case _ =>
      && fs[item.path] == Dir
      && (forall q :: At(item, q).Some? && At(item, q).value.FileOf? ==> q in fs && fs[q] == At(item, q).value)
      && (forall q :: q in fs && fs[q].FileOf? && item.path <= q ==> At(item, q) == Some(fs[q]) || Spared(item, q))
  }

  /** The ensure functions: check what exists, or publish it; None if they refuse. */
  ghost function Step(fs: Tree, item: Item): Option<Tree>
    requires [] in item.tree
  {
    if item.path in fs then if Accepts(fs, item) then Some(fs) else None
    else if Blocked(fs, item.path) then None
    else Some(Publish(fs, item))
  }

  ghost predicate AllWellFormed(items: seq<Item>) {
    forall i :: 0 <= i < |items| ==> WellFormed(items[i])
  }

  /** An uninterrupted attempt over all targets in order. */
  ghost function Run(fs: Tree, items: seq<Item>): Option<Tree>
    requires AllWellFormed(items)
  {
    if items == [] then Some(fs)
    else
      match Run(fs, items[..|items| - 1])
      case None => None
      case Some(before) => Step(before, items[|items| - 1])
  }

  // ----- which targets can stand together -----

  /** The later target finds what it wants where the earlier one has put something: the same file, or a
      directory that is empty. */
  ghost predicate Shared(earlier: Item, later: Item)
    requires At(earlier, later.path).Some? && [] in later.tree
  {
    match later.kind
    case SingleFile => At(earlier, later.path).value == later.tree[[]]
    case EmptyDirectory =>
      At(earlier, later.path).value == Dir && forall q :: later.path < q ==> At(earlier, q).None?
    case _ => false
  }

  /** The later target can be published after the earlier one: it is no ancestor of it, it does not meet other
      content in it, and no file of it lies on the way. */
  ghost predicate Compatible(earlier: Item, later: Item)
    requires [] in later.tree
  {
    && !(later.path < earlier.path)
    && (At(earlier, later.path).Some? ==> Shared(earlier, later))
    && !PutsFileOnTheWay(earlier, later.path)
  }

  /** The checks of the preflight, and artifacts whose markers are not themselves file targets: some file of every
      repository and state directory, as `.git/HEAD` or `.converge-state-id`, is no other target. */
  ghost predicate Ready(fs: Tree, items: seq<Item>) {
    && Closed(fs) && AllWellFormed(items)
    && (forall i :: 0 <= i < |items| ==> items[i].path !in fs)
    && (forall i, j :: 0 <= i < j < |items| && items[i].IsStore() && items[j].IsStore() ==>
        !Overlap(items[i].path, items[j].path))
    && (forall j :: 0 <= j < |items| && items[j].IsStore() ==> Sealed(items, items[j]))
  }

  ghost predicate Sealed(items: seq<Item>, item: Item) {
    exists rel :: rel in item.tree && item.tree[rel].FileOf?
                  && forall i :: 0 <= i < |items| && items[i].kind.SingleFile? ==> items[i].path != item.path + rel
  }

  /** The target fits behind all earlier ones, and no file of the host lies on the way to it. */
  ghost predicate FitsBehind(fs: Tree, items: seq<Item>, n: nat)
    requires AllWellFormed(items) && n < |items|
  {
    !Blocked(fs, items[n].path) && forall i :: 0 <= i < n ==> Compatible(items[i], items[n])
  }

  ghost predicate AllFit(fs: Tree, items: seq<Item>)
    requires AllWellFormed(items)
  {
    forall n: nat :: n < |items| ==> FitsBehind(fs, items, n)
  }

  // ----- what is on disk after some targets -----

  /** `fs` holds the host's own nodes, what the items place, and the ancestors of their targets. */
  ghost predicate Laid(fs: Tree, host: Tree, items: seq<Item>) {
    && Closed(fs)
    && (forall q :: q in host ==> q in fs && fs[q] == host[q])
    && (forall i, q :: 0 <= i < |items| && At(items[i], q).Some? ==> q in fs && fs[q] == At(items[i], q).value)
    && (forall q :: q in fs ==> q in host || exists i :: 0 <= i < |items| && FromItem(items[i], q))
  }

  predicate FromItem(item: Item, q: Path) {
    At(item, q).Some? || q < item.path
  }

  lemma AtItsPath(item: Item)
    requires [] in item.tree
    ensures At(item, item.path) == Some(item.tree[[]])
  {
    assert item.path[|item.path|..] == [];
  }

  /** What lies above something placed by the item is an ancestor of its target or a directory of it. */
  lemma AboveIsPlaced(item: Item, q: Path, r: Path)
    requires WellFormed(item) && At(item, q).Some? && r < q && item.path <= r
    ensures At(item, r) == Some(Dir)
  {
    assert r[|item.path|..] < q[|item.path|..];
  }

  lemma ClosedAt(fs: Tree, q: Path, r: Path)
    requires Closed(fs) && q in fs && r < q
    ensures r in fs && fs[r] == Dir
  {
  }

  lemma LaidAt(fs: Tree, host: Tree, items: seq<Item>, i: nat, q: Path)
    requires Laid(fs, host, items) && i < |items| && At(items[i], q).Some?
    ensures q in fs && fs[q] == At(items[i], q).value
  {
    hide Closed, At;
  }

  lemma LaidFrom(fs: Tree, host: Tree, items: seq<Item>, q: Path) returns (i: nat)
    requires Laid(fs, host, items) && q in fs && q !in host
    ensures i < |items| && FromItem(items[i], q)
  {
    hide Closed, FromItem;
    i :| 0 <= i < |items| && FromItem(items[i], q);
  }

  lemma LaidIsClosed(fs: Tree, host: Tree, items: seq<Item>)
    requires Laid(fs, host, items)
    ensures Closed(fs) && forall q :: q in host ==> q in fs && fs[q] == host[q]
  {
    hide Closed, FromItem;
  }

  lemma FromItemIsOnDisk(fs: Tree, host: Tree, items: seq<Item>, i: nat, q: Path)
    requires AllWellFormed(items) && Laid(fs, host, items) && i < |items| && FromItem(items[i], q)
    ensures q in fs && (At(items[i], q).Some? ==> fs[q] == At(items[i], q).value)
              && (q < items[i].path ==> fs[q] == Dir)
  {
    hide Laid, Closed, At;
    assert WellFormed(items[i]);
    AtItsPath(items[i]);
    LaidAt(fs, host, items, i, items[i].path);
    LaidIsClosed(fs, host, items);
    if q < items[i].path {
      ClosedAt(fs, items[i].path, q);
    }
    if At(items[i], q).Some? {
      LaidAt(fs, host, items, i, q);
    }
  }

  lemma PathIsOnDisk(fs: Tree, host: Tree, items: seq<Item>, i: nat)
    requires AllWellFormed(items) && Laid(fs, host, items) && i < |items|
    ensures items[i].path in fs && fs[items[i].path] == items[i].tree[[]]
  {
    hide Laid, Closed;
    assert WellFormed(items[i]);
    AtItsPath(items[i]);
    LaidAt(fs, host, items, i, items[i].path);
  }

  /** A target exists exactly when an earlier one placed something there or lies below it. */
  lemma ExistsIff(fs: Tree, host: Tree, items: seq<Item>, path: Path)
    requires AllWellFormed(items) && Laid(fs, host, items) && path !in host
    ensures path in fs <==> exists i :: 0 <= i < |items| && FromItem(items[i], path)
  {
    hide Laid, FromItem, AllWellFormed;
    if i :| 0 <= i < |items| && FromItem(items[i], path) {
      FromItemIsOnDisk(fs, host, items, i, path);
    }
    if path in fs {
      var i := LaidFrom(fs, host, items, path);
    }
  }

  /** The earlier target puts a file on the way to the path. */
  ghost predicate PutsFileOnTheWay(item: Item, path: Path) {
    exists q :: q < path && At(item, q).Some? && At(item, q).value.FileOf?
  }

  lemma BlockedIff(fs: Tree, host: Tree, items: seq<Item>, path: Path)
    requires AllWellFormed(items) && Laid(fs, host, items)
    ensures Blocked(fs, path) <==> Blocked(host, path) || exists i ::
              0 <= i < |items| && PutsFileOnTheWay(items[i], path)
  {
    hide Laid, AllWellFormed, At, Closed;
    LaidIsClosed(fs, host, items);
    if Blocked(fs, path) {
      var q :| q in fs && q < path && fs[q].FileOf?;
      if q !in host {
        var i := LaidFrom(fs, host, items, q);
        FromItemIsOnDisk(fs, host, items, i, q);
        assert PutsFileOnTheWay(items[i], path);
      }
    }
    if i :| 0 <= i < |items| && PutsFileOnTheWay(items[i], path) {
      var q :| q < path && At(items[i], q).Some? && At(items[i], q).value.FileOf?;
      LaidAt(fs, host, items, i, q);
    }
  }

  lemma NothingBelowVacant(host: Tree, path: Path, q: Path)
    requires Closed(host) && path !in host && path <= q
    ensures q !in host
  {
    if q in host {
      if path == q {
        assert false;
      } else {
        ClosedAt(host, q, path);
      }
    }
  }

  // ----- one more target -----

  /** Nothing on the way to an existing path is a file. */
  lemma NoFileOnTheWay(fs: Tree, host: Tree, items: seq<Item>, i: nat, path: Path)
    requires Laid(fs, host, items) && i < |items| && path in fs
    ensures !PutsFileOnTheWay(items[i], path)
  {
    hide Laid, At;
    LaidIsClosed(fs, host, items);
    if PutsFileOnTheWay(items[i], path) {
      var q :| q < path && At(items[i], q).Some? && At(items[i], q).value.FileOf?;
      LaidAt(fs, host, items, i, q);
      ClosedAt(fs, path, q);
    }
  }

  /** An existing file target is accepted exactly when every earlier target that reaches it shares it. */
  lemma FileAcceptedIff(fs: Tree, host: Tree, items: seq<Item>, item: Item)
    requires AllWellFormed(items) && WellFormed(item) && Laid(fs, host, items)
    requires item.kind.SingleFile? && item.path !in host && item.path in fs
    ensures Accepts(fs, item) <==> forall i :: 0 <= i < |items| ==> Compatible(items[i], item)
  {
    hide Laid, At, Closed, AllWellFormed, PutsFileOnTheWay;
    if Accepts(fs, item) {
      forall i | 0 <= i < |items| ensures Compatible(items[i], item) {
        NoFileOnTheWay(fs, host, items, i, item.path);
        if FromItem(items[i], item.path) {
          FromItemIsOnDisk(fs, host, items, i, item.path);
        }
      }
    }
    if forall i :: 0 <= i < |items| ==> Compatible(items[i], item) {
      var k := LaidFrom(fs, host, items, item.path);
      assert Compatible(items[k], item);
      FromItemIsOnDisk(fs, host, items, k, item.path);
    }
  }

  /** An existing directory is accepted as an empty one under the same condition. */
  lemma EmptyAcceptedIff(fs: Tree, host: Tree, items: seq<Item>, item: Item)
    requires AllWellFormed(items) && WellFormed(item) && Laid(fs, host, items) && Closed(host)
    requires item.kind.EmptyDirectory? && item.path !in host && item.path in fs
    ensures Accepts(fs, item) <==> forall i :: 0 <= i < |items| ==> Compatible(items[i], item)
  {
    hide Laid, At, Closed, AllWellFormed, PutsFileOnTheWay;
    if Accepts(fs, item) {
      forall i | 0 <= i < |items| ensures Compatible(items[i], item) {
        EmptyIsCompatible(fs, host, items, i, item);
      }
    }
    if forall i :: 0 <= i < |items| ==> Compatible(items[i], item) {
      var k := LaidFrom(fs, host, items, item.path);
      assert Compatible(items[k], item);
      FromItemIsOnDisk(fs, host, items, k, item.path);
      forall q | q in fs ensures !(item.path < q) {
        if item.path < q {
          NothingBelowVacant(host, item.path, q);
          var i := LaidFrom(fs, host, items, q);
          assert Compatible(items[i], item);
          NothingBelowCompatible(items, i, item, q);
        }
      }
    }
  }

  lemma EmptyIsCompatible(fs: Tree, host: Tree, items: seq<Item>, i: nat, item: Item)
    requires AllWellFormed(items) && WellFormed(item) && Laid(fs, host, items) && i < |items|
    requires item.kind.EmptyDirectory? && item.path in fs && Accepts(fs, item)
    ensures Compatible(items[i], item)
  {
    hide Laid, At, Closed, AllWellFormed, PutsFileOnTheWay;
    NoFileOnTheWay(fs, host, items, i, item.path);
    PathIsOnDisk(fs, host, items, i);
    if At(items[i], item.path).Some? {
      LaidAt(fs, host, items, i, item.path);
      forall q | item.path < q ensures At(items[i], q).None? {
        if At(items[i], q).Some? {
          LaidAt(fs, host, items, i, q);
        }
      }
    }
  }

  lemma NothingBelowCompatible(items: seq<Item>, i: nat, item: Item, q: Path)
    requires AllWellFormed(items) && i < |items| && [] in item.tree && item.kind.EmptyDirectory?
    requires Compatible(items[i], item) && item.path < q
    ensures !FromItem(items[i], q)
  {
    hide At, Closed, PutsFileOnTheWay;
    assert WellFormed(items[i]);
    if At(items[i], q).Some? {
      AtLiesIn(items[i], q);
      PrefixesMeet(items[i].path, item.path, q);
      AboveIsPlaced(items[i], q, item.path);
    } else if q < items[i].path {
      PrefixIsTransitive(item.path, q, items[i].path);
    }
  }

  lemma AtLiesIn(item: Item, q: Path)
    requires At(item, q).Some?
    ensures item.path <= q
  {
  }

  lemma PrefixIsTransitive(a: Path, b: Path, c: Path)
    requires a < b && b < c
    ensures a < c
  {
  }

  lemma PrefixesMeet(a: Path, b: Path, q: Path)
    requires a <= q && b <= q && !(b < a)
    ensures a <= b
  {
    PrefixesOverlap(a, b, q);
  }

  /** An existing directory of a repository or state target is never accepted before it was published. */
  lemma StoreIsRefused(fs: Tree, host: Tree, items: seq<Item>, n: nat)
    requires Ready(host, items) && n < |items| && items[n].IsStore() && Laid(fs, host, items[..n])
               && items[n].path in fs
    ensures !Accepts(fs, items[n]) && exists i :: 0 <= i < n && !Compatible(items[i], items[n])
  {
    hide Laid, At, Closed, PutsFileOnTheWay;
    var item, before := items[n], items[..n];
    assert WellFormed(item);
    var k := LaidFrom(fs, host, before, item.path);
    assert before[k] == items[k] && WellFormed(item);
    StoresShareNothing(items[k], item);
    assert Sealed(items, item);
    var q := SealOf(items, item);
    if Accepts(fs, item) {
      NothingBelowVacant(host, item.path, q);
      var i := LaidFrom(fs, host, before, q);
      assert before[i] == items[i];
      FromItemIsOnDisk(fs, host, before, i, q);
      assert At(items[i], q).Some? && At(items[i], q).value.FileOf?;
      FilesOfItems(items[i], q);
      AtLiesIn(items[i], q);
      PrefixesOverlap(items[i].path, item.path, q);
    }
  }

  lemma StoresShareNothing(earlier: Item, later: Item)
    requires WellFormed(later) && later.IsStore() && FromItem(earlier, later.path)
    ensures !Compatible(earlier, later)
  {
    hide At;
  }

  lemma SealOf(items: seq<Item>, item: Item) returns (q: Path)
    requires Sealed(items, item)
    ensures item.path <= q && At(item, q).Some? && At(item, q).value.FileOf?
    ensures forall i :: 0 <= i < |items| && items[i].kind.SingleFile? ==> items[i].path != q
  {
    var rel :| rel in item.tree && item.tree[rel].FileOf?
               && forall i :: 0 <= i < |items| && items[i].kind.SingleFile? ==> items[i].path != item.path + rel;
    q := item.path + rel;
    assert q[|item.path|..] == rel;
  }

  /** An item that places a file at `q` is that file or a store. */
  lemma FilesOfItems(item: Item, q: Path)
    requires WellFormed(item) && At(item, q).Some? && At(item, q).value.FileOf?
    ensures item.IsStore() || (item.kind.SingleFile? && item.path == q)
  {
    hide Closed;
    if !item.IsStore() {
      OnlyAtItsPath(item, q);
    }
  }

  lemma PrefixesOverlap(a: Path, b: Path, q: Path)
    requires a <= q && b <= q
    ensures Overlap(a, b)
  {
    assert a == q[..|a|] && b == q[..|b|];
    if |a| <= |b| {
      assert a == b[..|a|];
    } else {
      assert b == a[..|b|];
    }
  }

  /** The next target is accepted or published exactly when it fits behind the earlier ones. */
  lemma StepIff(fs: Tree, host: Tree, items: seq<Item>, n: nat)
    requires Ready(host, items) && n < |items| && Laid(fs, host, items[..n])
    ensures Step(fs, items[n]).Some? <==> FitsBehind(host, items, n)
  {
    hide Laid, Closed, Accepts, Compatible, Sealed, Blocked, At, PutsFileOnTheWay;
    var item, before := items[n], items[..n];
    ExistsIff(fs, host, before, item.path);
    if item.path in fs {
      NotBlockedIfPresent(fs, host, before, item.path);
      if item.IsStore() {
        StoreIsRefused(fs, host, items, n);
      } else {
        ClosedHost(host, items);
        if item.kind.SingleFile? {
          FileAcceptedIff(fs, host, before, item);
        } else {
          EmptyAcceptedIff(fs, host, before, item);
        }
        assert forall i :: 0 <= i < n ==> before[i] == items[i];
      }
    } else {
      AbsentStepIff(fs, host, items, n);
    }
  }

  lemma ClosedHost(host: Tree, items: seq<Item>)
    requires Ready(host, items)
    ensures Closed(host) && AllWellFormed(items)
  {
  }

  lemma NotBlockedIfPresent(fs: Tree, host: Tree, items: seq<Item>, path: Path)
    requires Laid(fs, host, items) && path in fs
    ensures !Blocked(fs, path) && !Blocked(host, path)
  {
    hide Laid;
    LaidIsClosed(fs, host, items);
  }

  lemma AbsentStepIff(fs: Tree, host: Tree, items: seq<Item>, n: nat)
    requires Ready(host, items) && n < |items| && Laid(fs, host, items[..n]) && items[n].path !in fs
    ensures !Blocked(fs, items[n].path) <==> FitsBehind(host, items, n)
  {
    hide Sealed, Accepts, Blocked, Laid, Closed, At, PutsFileOnTheWay;
    var item, before := items[n], items[..n];
    assert WellFormed(item);
    BlockedIff(fs, host, before, item.path);
    ExistsIff(fs, host, before, item.path);
    forall i | 0 <= i < n ensures Compatible(items[i], item) <==> !PutsFileOnTheWay(items[i], item.path) {
      assert before[i] == items[i] && !FromItem(before[i], item.path) && WellFormed(item);
    }
    if exists i :: 0 <= i < n && PutsFileOnTheWay(items[i], item.path) {
      var i :| 0 <= i < n && PutsFileOnTheWay(items[i], item.path);
      assert before[i] == items[i];
    }
  }

  // ----- laying one more target -----

  lemma PublishIsClosed(fs: Tree, item: Item)
    requires Closed(fs) && WellFormed(item) && item.path !in fs && !Blocked(fs, item.path)
    ensures Closed(Publish(fs, item))
  {
    hide Closed, WellFormed, At, Publish, Blocked;
    var after := Publish(fs, item);
    forall q, r | q in after && r < q ensures r in after && after[r] == Dir {
      AboveIsDir(fs, item, q, r);
    }
    assert Closed(after) by { ClosedIf(after); }
  }

  lemma ClosedIf(tree: Tree)
    requires forall q, r :: q in tree && r < q ==> r in tree && tree[r] == Dir
    ensures Closed(tree)
  {
  }

  lemma AboveIsDir(fs: Tree, item: Item, q: Path, r: Path)
    requires Closed(fs) && WellFormed(item) && item.path !in fs && !Blocked(fs, item.path)
    requires q in Publish(fs, item) && r < q
    ensures r in Publish(fs, item) && Publish(fs, item)[r] == Dir
  {
    hide Closed, WellFormed, At, Blocked;
    if At(item, q).Some? {
      AtLiesIn(item, q);
      if item.path <= r {
        AboveIsPlaced(item, q, r);
      } else {
        PrefixesOverlap(r, item.path, q);
        AncestorAfter(fs, item, r);
      }
    } else if q < item.path {
      PrefixIsTransitive(r, q, item.path);
      AncestorAfter(fs, item, r);
    } else {
      ClosedAt(fs, q, r);
      NotPlacedOverOld(fs, item, r);
    }
  }

  lemma AncestorAfter(fs: Tree, item: Item, r: Path)
    requires r < item.path && !Blocked(fs, item.path)
    ensures r in Publish(fs, item) && Publish(fs, item)[r] == Dir
  {
  }

  /** Nothing that existed lies below a target that did not. */
  lemma NotPlacedOverOld(fs: Tree, item: Item, q: Path)
    requires Closed(fs) && item.path !in fs && q in fs
    ensures At(item, q).None? && q in Publish(fs, item) && Publish(fs, item)[q] == fs[q]
  {
    hide Closed;
    if item.path <= q {
      NothingBelowVacant(fs, item.path, q);
    }
  }

  lemma LaidIf(fs: Tree, host: Tree, items: seq<Item>)
    requires Closed(fs) && forall q :: q in host ==> q in fs && fs[q] == host[q]
    requires forall i, q :: 0 <= i < |items| && At(items[i], q).Some? ==> q in fs && fs[q] == At(items[i], q).value
    requires forall q :: q in fs ==> q in host || exists i :: 0 <= i < |items| && FromItem(items[i], q)
    ensures Laid(fs, host, items)
  {
    hide Closed, At, FromItem;
  }

  lemma PublishLays(fs: Tree, host: Tree, items: seq<Item>, item: Item)
    requires WellFormed(item) && Laid(fs, host, items) && item.path !in fs && !Blocked(fs, item.path)
    ensures Laid(Publish(fs, item), host, items + [item])
  {
    hide Blocked, WellFormed, Laid, At, Closed, Publish, FromItem;
    var after, more := Publish(fs, item), items + [item];
    LaidIsClosed(fs, host, items);
    PublishIsClosed(fs, item);
    forall q | q in fs ensures q in after && after[q] == fs[q] {
      NotPlacedOverOld(fs, item, q);
    }
    forall i, q | 0 <= i < |more| && At(more[i], q).Some? ensures q in after && after[q] == At(more[i], q).value {
      if i < |items| {
        assert more[i] == items[i];
        LaidAt(fs, host, items, i, q);
      } else {
        PublishPlaces(fs, item, q);
      }
    }
    forall q | q in after ensures q in host || exists i :: 0 <= i < |more| && FromItem(more[i], q) {
      if q in fs && q !in host {
        var i := LaidFrom(fs, host, items, q);
        assert more[i] == items[i];
      } else if q !in fs {
        PublishPlaces(fs, item, q);
        assert more[|items|] == item && FromItem(more[|items|], q);
      }
    }
    LaidIf(after, host, more);
  }

  lemma PublishPlaces(fs: Tree, item: Item, q: Path)
    ensures At(item, q).Some? ==> q in Publish(fs, item) && Publish(fs, item)[q] == At(item, q).value
    ensures q in Publish(fs, item) && q !in fs ==> FromItem(item, q)
  {
    hide At;
  }

  /** A target that is shared adds nothing. */
  lemma AcceptedIsLaid(fs: Tree, host: Tree, items: seq<Item>, item: Item)
    requires Laid(fs, host, items) && WellFormed(item) && !item.IsStore() && item.path in fs && Accepts(fs, item)
    ensures Laid(fs, host, items + [item])
  {
    hide Laid, Closed, FromItem, At;
    var more := items + [item];
    LaidIsClosed(fs, host, items);
    forall i, q | 0 <= i < |more| && At(more[i], q).Some? ensures q in fs && fs[q] == At(more[i], q).value {
      if i < |items| {
        assert more[i] == items[i];
        LaidAt(fs, host, items, i, q);
      } else {
        OnlyAtItsPath(item, q);
        AtItsPath(item);
      }
    }
    forall q | q in fs ensures q in host || exists i :: 0 <= i < |more| && FromItem(more[i], q) {
      if q !in host {
        var i := LaidFrom(fs, host, items, q);
        assert more[i] == items[i];
      }
    }
    LaidIf(fs, host, more);
  }

  lemma OnlyAtItsPath(item: Item, q: Path)
    requires WellFormed(item) && !item.IsStore() && At(item, q).Some?
    ensures q == item.path
  {
    hide Closed;
    assert q[|item.path|..] == [] && q == item.path + q[|item.path|..];
  }

  lemma StepLays(fs: Tree, host: Tree, items: seq<Item>, n: nat, n': nat)
    requires Ready(host, items) && n' == n + 1 <= |items| && Laid(fs, host, items[..n]) && Step(fs, items[n]).Some?
    ensures Laid(Step(fs, items[n]).value, host, items[..n'])
  {
    hide Laid, Accepts, Blocked, Sealed, Closed, WellFormed;
    assert items[..n'] == items[..n] + [items[n]];
    if items[n].path in fs {
      if items[n].IsStore() {
        StoreIsRefused(fs, host, items, n);
      }
      AcceptedIsLaid(fs, host, items[..n], items[n]);
    } else {
      PublishLays(fs, host, items[..n], items[n]);
    }
  }

  // ----- whole attempts -----

  lemma RunOneMore(fs: Tree, items: seq<Item>, n: nat, n': nat)
    requires AllWellFormed(items) && n' == n + 1 <= |items|
    ensures Run(fs, items[..n']) == if Run(fs, items[..n]).None? then None
              else Step(Run(fs, items[..n]).value, items[n])
  {
    hide Step, WellFormed;
    assert items[..n'][..n] == items[..n] && items[..n'][n] == items[n];
  }

  lemma {:induction false} RunIff(host: Tree, items: seq<Item>, n: nat)
    requires Ready(host, items) && n <= |items|
    ensures Run(host, items[..n]).Some? <==> forall k: nat :: k < n ==> FitsBehind(host, items, k)
    ensures Run(host, items[..n]).Some? ==> Laid(Run(host, items[..n]).value, host, items[..n])
  {
    hide Step, FitsBehind, Laid, Ready;
    ClosedHost(host, items);
    if n == 0 {
      NothingLaid(host, items[..0]);
    } else {
      var n1: nat := n - 1;
      RunIff(host, items, n1);
      RunOneMore(host, items, n1, n);
      if Run(host, items[..n1]).Some? {
        var before := Run(host, items[..n1]).value;
        StepIff(before, host, items, n1);
        if Step(before, items[n1]).Some? {
          StepLays(before, host, items, n1, n);
        }
      }
    }
  }

  lemma NothingLaid(host: Tree, none: seq<Item>)
    requires none == [] && Closed(host)
    ensures Run(host, none) == Some(host) && Laid(host, host, none)
  {
  }

  /** An attempt over vacant targets completes exactly when each target fits behind all earlier ones. */
  lemma CompletesIff(host: Tree, items: seq<Item>)
    requires Ready(host, items)
    ensures Run(host, items).Some? <==> AllFit(host, items)
    ensures Run(host, items).Some? ==> Laid(Run(host, items).value, host, items)
  {
    hide FitsBehind, Run, Laid, Ready;
    ClosedHost(host, items);
    assert items[..|items|] == items;
    RunIff(host, items, |items|);
  }

  // ----- resuming a completed attempt -----

  /** A target published later does not make the check of an earlier one fail. */
  ghost predicate Undisturbed(earlier: Item, later: Item) {
    earlier.path < later.path ==>
      match earlier.kind
      case SingleFile => true
      case EmptyDirectory => false
      case _ => later.kind.SingleFile? && At(earlier, later.path).None? ==> Spared(earlier, later.path)
  }

  ghost predicate AllUndisturbed(items: seq<Item>) {
    forall j, i :: 0 <= j < i < |items| ==> Undisturbed(items[j], items[i])
  }

  lemma StillAcceptedIff(fs: Tree, host: Tree, items: seq<Item>, j: nat)
    requires Ready(host, items) && AllFit(host, items) && Laid(fs, host, items) && j < |items|
    ensures items[j].path in fs
    ensures Accepts(fs, items[j]) <==> forall i :: j < i < |items| ==> Undisturbed(items[j], items[i])
  {
    hide Sealed, Blocked, Laid, Closed, At, Compatible, FitsBehind, Undisturbed;
    var item := items[j];
    assert WellFormed(item);
    PathIsOnDisk(fs, host, items, j);
    if item.kind.SingleFile? {
      FilesAreNotDisturbed(items, j);
    }
    match item.kind
    case SingleFile =>
    case EmptyDirectory => EmptyStaysIff(fs, host, items, j);
    case _ => StoreStaysIff(fs, host, items, j);
  }

  lemma FilesAreNotDisturbed(items: seq<Item>, j: nat)
    requires j < |items| && items[j].kind.SingleFile?
    ensures forall i :: 0 <= i < |items| ==> Undisturbed(items[j], items[i])
  {
  }

  lemma EmptyStaysIff(fs: Tree, host: Tree, items: seq<Item>, j: nat)
    requires Ready(host, items) && AllFit(host, items) && Laid(fs, host, items) && j < |items|
               && items[j].kind.EmptyDirectory?
    requires items[j].path in fs && fs[items[j].path] == Dir
    ensures Accepts(fs, items[j]) <==> forall i :: j < i < |items| ==> Undisturbed(items[j], items[i])
  {
    hide Sealed, Blocked, Shared, Laid, Closed, At, PutsFileOnTheWay;
    var item := items[j];
    assert WellFormed(item);
    if Accepts(fs, item) {
      forall i | j < i < |items| ensures Undisturbed(item, items[i]) {
        PathIsOnDisk(fs, host, items, i);
      }
    }
    if forall i :: j < i < |items| ==> Undisturbed(item, items[i]) {
      forall q | q in fs ensures !(item.path < q) {
        if item.path < q {
          NothingBelowVacant(host, item.path, q);
          var i := LaidFrom(fs, host, items, q);
          NothingFromOther(host, items, j, i, q);
        }
      }
    }
  }

  /** No target places anything below an undisturbed empty directory. */
  lemma NothingFromOther(host: Tree, items: seq<Item>, j: nat, i: nat, q: Path)
    requires Ready(host, items) && AllFit(host, items) && j < |items| && i < |items| && items[j].kind.EmptyDirectory?
    requires items[j].path < q && (i > j ==> Undisturbed(items[j], items[i]))
    ensures !FromItem(items[i], q)
  {
    hide Sealed, Blocked, Closed, At, PutsFileOnTheWay, Shared;
    var item, other := items[j], items[i];
    assert WellFormed(item) && WellFormed(other);
    if i < j {
      assert FitsBehind(host, items, j);
      NothingBelowCompatible(items, i, item, q);
    } else if i == j {
      if At(item, q).Some? {
        OnlyAtItsPath(item, q);
      }
    } else {
      assert FitsBehind(host, items, i);
      LaterPlacesNothingBelow(item, other, q);
    }
  }

  lemma LaterPlacesNothingBelow(item: Item, other: Item, q: Path)
    requires WellFormed(item) && WellFormed(other) && item.kind.EmptyDirectory?
    requires Compatible(item, other) && !(item.path < other.path) && item.path < q
    ensures !FromItem(other, q)
  {
    hide At, Closed, PutsFileOnTheWay;
    AtItsPath(item);
    if At(other, q).Some? {
      AtLiesIn(other, q);
      PrefixesOverlap(other.path, item.path, q);
      SamePath(other.path, item.path);
      OnlyAtItsPath(other, q);
    } else if q < other.path {
      PrefixIsTransitive(item.path, q, other.path);
    }
  }

  lemma StoreStaysIff(fs: Tree, host: Tree, items: seq<Item>, j: nat)
    requires Ready(host, items) && AllFit(host, items) && Laid(fs, host, items) && j < |items| && items[j].IsStore()
    requires items[j].path in fs && fs[items[j].path] == Dir
    ensures Accepts(fs, items[j]) <==> forall i :: j < i < |items| ==> Undisturbed(items[j], items[i])
  {
    hide Sealed, Blocked, Laid, Closed, At, PutsFileOnTheWay, Spared, Shared;
    var item := items[j];
    assert WellFormed(item);
    if Accepts(fs, item) {
      forall i | j < i < |items| ensures Undisturbed(item, items[i]) {
        assert WellFormed(items[i]);
        PathIsOnDisk(fs, host, items, i);
      }
    }
    if forall i :: j < i < |items| ==> Undisturbed(item, items[i]) {
      forall q | At(item, q).Some? ensures q in fs && fs[q] == At(item, q).value {
        LaidAt(fs, host, items, j, q);
      }
      forall q | q in fs && fs[q].FileOf? && item.path <= q ensures At(item, q) == Some(fs[q]) || Spared(item, q) {
        NothingBelowVacant(host, item.path, q);
        var i := LaidFrom(fs, host, items, q);
        FromItemIsOnDisk(fs, host, items, i, q);
        assert WellFormed(items[i]);
        FilesOfItems(items[i], q);
        ForeignFileIsSpared(host, items, j, i, q);
      }
    }
  }

  /** A file below a store is its own, a shared one or spared. */
  lemma ForeignFileIsSpared(host: Tree, items: seq<Item>, j: nat, i: nat, q: Path)
    requires Ready(host, items) && AllFit(host, items) && j < |items| && i < |items| && items[j].IsStore()
    requires At(items[i], q).Some? && At(items[i], q).value.FileOf? && items[j].path <= q
    requires i > j ==> Undisturbed(items[j], items[i])
    ensures At(items[j], q) == At(items[i], q) || Spared(items[j], q)
  {
    hide Sealed, Blocked, Closed, At, PutsFileOnTheWay, Spared;
    var item, other := items[j], items[i];
    assert WellFormed(item) && WellFormed(other);
    if i != j {
      FilesOfItems(other, q);
      if other.IsStore() {
        AtLiesIn(other, q);
        PrefixesOverlap(item.path, other.path, q);
      } else {
        AtItsPath(other);
        AtItsPath(item);
        if i < j {
          assert FitsBehind(host, items, j);
          EarlierFileIsOutside(other, item);
        } else {
          assert FitsBehind(host, items, i);
          SamePath(item.path, other.path);
        }
      }
    }
  }

  lemma SamePath(a: Path, b: Path)
    ensures Overlap(a, b) ==> a < b || b < a || a == b
  {
  }

  lemma EarlierFileIsOutside(earlier: Item, later: Item)
    requires WellFormed(earlier) && WellFormed(later) && earlier.kind.SingleFile? && later.IsStore()
               && Compatible(earlier, later)
    ensures !(later.path <= earlier.path)
  {
    hide At, Closed, PutsFileOnTheWay;
    AtItsPath(earlier);
    SamePath(later.path, earlier.path);
  }

  /** Running a completed attempt again completes, without a change, exactly when no target disturbs an earlier one. */
  lemma ResumeCompletesIff(host: Tree, items: seq<Item>)
    requires Ready(host, items) && AllFit(host, items)
    ensures Run(host, items).Some?
    ensures var fs := Run(host, items).value;
            && (Run(fs, items).Some? <==> AllUndisturbed(items))
            && (Run(fs, items).Some? ==> Run(fs, items).value == fs)
  {
    hide Step, Run, Laid, Ready, FitsBehind, Undisturbed;
    ClosedHost(host, items);
    CompletesIff(host, items);
    var fs := Run(host, items).value;
    assert items[..|items|] == items;
    RerunIff(fs, host, items, |items|);
  }

  lemma {:induction false} RerunIff(fs: Tree, host: Tree, items: seq<Item>, n: nat)
    requires Ready(host, items) && AllFit(host, items) && Laid(fs, host, items) && n <= |items|
    ensures Run(fs, items[..n]).Some? <==>
              forall j, i :: 0 <= j < n && j < i < |items| ==> Undisturbed(items[j], items[i])
    ensures Run(fs, items[..n]).Some? ==> Run(fs, items[..n]).value == fs
  {
    hide Laid, Ready, FitsBehind, Undisturbed, Accepts, Publish, Blocked;
    ClosedHost(host, items);
    if n > 0 {
      var n1: nat := n - 1;
      RerunIff(fs, host, items, n1);
      RunOneMore(fs, items, n1, n);
      StillAcceptedIff(fs, host, items, n1);
    }
  }
}
