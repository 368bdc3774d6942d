/**
 Content-addressed snapshots of frozen RED test files (`evidence.py`, lines 85-241). Resolving a
 relative path inside the worktree may fail, and two paths may resolve to one file.
 */
module FrozenRed {
  import opened Wrappers
  import B = BackupManifests

  type Bytes = B.Bytes
  type Digest = B.Digest
  type RelPath = string
  type File = string
  type Files = map<File, Bytes>
  type Resolver = RelPath -> Option<File>

  /** One file of the snapshot manifest. */
  datatype Entry = Entry(path: RelPath, digest: Digest, size: nat)

  datatype Hashed = Hashed(path: RelPath, digest: Digest)

  datatype Status = Unchanged | Modified(observed: Digest) | Deleted | InvalidPath

  datatype HashMismatch = HashMismatch(path: RelPath)

  predicate DistinctPaths(entries: seq<Entry>) {
    forall i, j :: 0 <= i < j < |entries| ==> entries[i].path != entries[j].path
  }

  /** The file that a path names now, if it resolves to one. */
  function Present(resolve: Resolver, files: Files, path: RelPath): Option<Bytes> {
    if resolve(path).Some? && resolve(path).value in files then Some(files[resolve(path).value]) else None
  }

  /** A path is present with a content exactly when it resolves to a file that has it. */
  lemma PresentIs(resolve: Resolver, files: Files, path: RelPath, content: Bytes)
    ensures Present(resolve, files, path) == Some(content) <==>
              exists file :: resolve(path) == Some(file) && file in files && files[file] == content
  {
    if Present(resolve, files, path) == Some(content) {
      assert resolve(path) == Some(resolve(path).value);
    }
  }

  // ----- snapshot -----

  /** The manifest lists exactly the hashed paths that resolve to a file, with its content's digest. */
  ghost predicate Describes(entries: seq<Entry>, hashed: seq<Hashed>, resolve: Resolver, files: Files) {
    && DistinctPaths(entries)
    && (forall e :: e in entries ==>
          && Hashed(e.path, e.digest) in hashed && Present(resolve, files, e.path).Some?
          && e.digest == B.Sha256(Present(resolve, files, e.path).value) && e.size == |e.digest.content|)
    && (forall h :: h in hashed && Present(resolve, files, h.path).Some? ==>
        exists e :: e in entries && e.path == h.path)
  }

  // ----- verification -----

  function StatusOf(e: Entry, resolve: Resolver, files: Files): Status {
    if resolve(e.path).None? then InvalidPath
    else if resolve(e.path).value !in files then Deleted
    else
      var observed := B.Sha256(files[resolve(e.path).value]);
      if observed == e.digest then Unchanged else Modified(observed)
  }

  function Statuses(entries: seq<Entry>, resolve: Resolver, files: Files): (details: map<RelPath, Status>)
    ensures forall path :: path in details <==> exists e :: e in entries && e.path == path
  {
    if entries == [] then map[]
    else
      var e := entries[|entries| - 1];
      Statuses(entries[..|entries| - 1], resolve, files)[e.path := StatusOf(e, resolve, files)]
  }

  lemma {:induction false} StatusesSay(entries: seq<Entry>, resolve: Resolver, files: Files, e: Entry)
    requires DistinctPaths(entries) && e in entries
    ensures Statuses(entries, resolve, files)[e.path] == StatusOf(e, resolve, files)
  {
    hide StatusOf;
    var last := entries[|entries| - 1];
    if e != last {
      var i :| 0 <= i < |entries| - 1 && entries[i] == e;
      assert entries[..|entries| - 1][i] == e;
      StatusesSay(entries[..|entries| - 1], resolve, files, e);
    }
  }

  lemma AllStatusesSay(entries: seq<Entry>, resolve: Resolver, files: Files)
    ensures DistinctPaths(entries) ==>
              forall e :: e in entries ==> Statuses(entries, resolve, files)[e.path] == StatusOf(e, resolve, files)
  {
    hide StatusOf, DistinctPaths;
    forall e | e in entries && DistinctPaths(entries)
      ensures Statuses(entries, resolve, files)[e.path] == StatusOf(e, resolve, files)
    {
      StatusesSay(entries, resolve, files, e);
    }
  }

  lemma NoStatuses(resolve: Resolver, files: Files)
    ensures Statuses([], resolve, files) == map[] && AllUnchanged([], resolve, files)
  {
  }

  lemma OneMoreStatus(entries: seq<Entry>, i: nat, i': nat, resolve: Resolver, files: Files)
    requires i' == i + 1 <= |entries|
    ensures Statuses(entries[..i'], resolve, files)
            == Statuses(entries[..i], resolve, files)[entries[i].path := StatusOf(entries[i], resolve, files)]
    ensures AllUnchanged(entries[..i'], resolve, files)
            <==> AllUnchanged(entries[..i], resolve, files) && StatusOf(entries[i], resolve, files) == Unchanged
  {
    hide StatusOf;
    assert entries[..i'][..i] == entries[..i] && entries[..i'] == entries[..i] + [entries[i]];
  }

  ghost predicate AllUnchanged(entries: seq<Entry>, resolve: Resolver, files: Files) {
    forall e :: e in entries ==> StatusOf(e, resolve, files) == Unchanged
  }

  // ----- restore -----

  /** A restore writes this entry. */
  predicate Restorable(e: Entry, resolve: Resolver, blobs: map<Digest, Bytes>) {
    resolve(e.path).Some? && e.digest in blobs
  }

  /** The worktree after restoring the entries in order. */
  function Restored(entries: seq<Entry>, resolve: Resolver, blobs: map<Digest, Bytes>, files: Files): Files {
    if entries == [] then files
    else
      var before, e := Restored(entries[..|entries| - 1], resolve, blobs, files), entries[|entries| - 1];
      if Restorable(e, resolve, blobs) then before[resolve(e.path).value := blobs[e.digest]] else before
  }

  /** Every stored blob has the content its name stands for. */
  predicate SoundBlobs(blobs: map<Digest, Bytes>) {
    forall d :: d in blobs ==> B.Sha256(blobs[d]) == d
  }

  class FrozenRedStore {
    var worktree: Files
    var blobs: map<Digest, Bytes>
    var manifest: Option<seq<Entry>>

    ghost predicate Valid()
      reads this
    {
      && SoundBlobs(blobs)
      && (manifest.Some? ==>
            DistinctPaths(manifest.value) && forall e :: e in manifest.value ==> e.digest in blobs)
    }

    constructor (worktree: Files)
      ensures Valid() && this.worktree == worktree && manifest == None
    {
      this.worktree, blobs, manifest := worktree, map[], None;
    }

    /** Snapshot the listed files; a file that no longer has its hash fails the whole snapshot. */
    method SnapshotFrozenRed(hashed: seq<Hashed>, resolve: Resolver) returns (r: Result<seq<Entry>, HashMismatch>)
      requires Valid()
      requires forall i, j :: 0 <= i < j < |hashed| ==> hashed[i].path != hashed[j].path
      modifies this
      ensures Valid() && worktree == old(worktree)
      ensures r.Success? <==>
                forall h :: h in hashed && Present(resolve, worktree, h.path).Some? ==>
                  B.Sha256(Present(resolve, worktree, h.path).value) == h.digest
      ensures r.Success? ==> manifest == Some(r.value) && Describes(r.value, hashed, resolve, worktree)
      ensures r.Failure? ==> manifest == old(manifest)
      ensures forall d :: d in old(blobs) ==> d in blobs
    {
      var entries: seq<Entry> := [];
      for i := 0 to |hashed|
        invariant worktree == old(worktree) && manifest == old(manifest) && Valid()
        invariant forall d :: d in old(blobs) ==> d in blobs
        invariant forall h :: h in hashed[..i] && Present(resolve, worktree, h.path).Some? ==>
                    B.Sha256(Present(resolve, worktree, h.path).value) == h.digest
        invariant Describes(entries, hashed[..i], resolve, worktree)
        invariant forall e :: e in entries ==> e.digest in blobs
      {
        var h := hashed[i];
        assert hashed[..i + 1] == hashed[..i] + [h];
        assert forall e :: e in entries ==> e.path != h.path by {
          NotYetListed(entries, hashed, i, resolve, worktree);
        }
        var source := resolve(h.path);
        if source.None? || source.value !in worktree {
          continue;
        }
        var content := worktree[source.value];
        var actual := B.Sha256(content);
        if actual != h.digest {
          assert h in hashed;
          return Failure(HashMismatch(h.path));
        }
        blobs := blobs[actual := content];
        DescribesOneMore(entries, hashed[..i], h, resolve, worktree);
        entries := entries + [Entry(h.path, h.digest, |content|)];
      }
      assert hashed[..|hashed|] == hashed;
      manifest := Some(entries);
      return Success(entries);
    }

    /** Compare the worktree with the snapshot. */
    method VerifyFrozenRed(resolve: Resolver) returns (allUnchanged: bool, details: map<RelPath, Status>)
      ensures manifest.None? ==> allUnchanged && details == map[]
      ensures manifest.Some? ==>
                && (allUnchanged <==> AllUnchanged(manifest.value, resolve, worktree))
                && (forall path :: path in details <==> exists e :: e in manifest.value && e.path == path)
                && (DistinctPaths(manifest.value) ==>
                      forall e :: e in manifest.value ==> details[e.path] == StatusOf(e, resolve, worktree))
    {
      if manifest.None? {
        return true, map[];
      }
      hide StatusOf, DistinctPaths, Statuses, AllUnchanged;
      var entries := manifest.value;
      allUnchanged, details := true, map[];
      NoStatuses(resolve, worktree);
      for i := 0 to |entries|
        invariant allUnchanged <==> AllUnchanged(entries[..i], resolve, worktree)
        invariant details == Statuses(entries[..i], resolve, worktree)
      {
        OneMoreStatus(entries, i, i + 1, resolve, worktree);
        var status := StatusOf(entries[i], resolve, worktree);
        details := details[entries[i].path := status];
        if status != Unchanged {
          allUnchanged := false;
        }
      }
      assert entries[..|entries|] == entries;
      AllStatusesSay(entries, resolve, worktree);
    }

    /** Write the snapshotted bytes back. */
    method RestoreFrozenRed(resolve: Resolver) returns (r: Result<seq<RelPath>, HashMismatch>)
      modifies this`worktree
      ensures old(Valid()) ==> r.Success? && Valid()
      ensures r.Success? && manifest.None? ==> worktree == old(worktree) && r.value == []
      ensures r.Success? && manifest.Some? ==>
                && worktree == Restored(manifest.value, resolve, blobs, old(worktree))
                && forall path :: path in r.value <==>
                     exists e :: e in manifest.value && e.path == path && Restorable(e, resolve, blobs)
    {
      if manifest.None? {
        return Success([]);
      }
      var entries := manifest.value;
      var restored: seq<RelPath> := [];
      for i := 0 to |entries|
        invariant worktree == Restored(entries[..i], resolve, blobs, old(worktree))
        invariant forall path :: path in restored <==>
                    exists e :: e in entries[..i] && e.path == path && Restorable(e, resolve, blobs)
      {
        var e := entries[i];
        assert entries[..i + 1] == entries[..i] + [e];
        assert entries[..i + 1][..i] == entries[..i];
        var target := resolve(e.path);
        if target.None? || e.digest !in blobs {
          continue;
        }
        var content := blobs[e.digest];
        if B.Sha256(content) != e.digest {
          return Failure(HashMismatch(e.path));
        }
        worktree := worktree[target.value := content];
        restored := restored + [e.path];
      }
      assert entries[..|entries|] == entries;
      return Success(restored);
    }
  }

  lemma NotYetListed(entries: seq<Entry>, hashed: seq<Hashed>, i: nat, resolve: Resolver, files: Files)
    requires i < |hashed| && forall i, j :: 0 <= i < j < |hashed| ==> hashed[i].path != hashed[j].path
    requires Describes(entries, hashed[..i], resolve, files)
    ensures forall e :: e in entries ==> e.path != hashed[i].path
  {
    forall e | e in entries ensures e.path != hashed[i].path {
      var j :| 0 <= j < i && hashed[..i][j] == Hashed(e.path, e.digest);
      assert hashed[j].path == e.path;
    }
  }

  lemma DescribesOneMore(entries: seq<Entry>, hashed: seq<Hashed>, h: Hashed, resolve: Resolver, files: Files)
    requires Describes(entries, hashed, resolve, files)
    requires Present(resolve, files, h.path).Some? && B.Sha256(Present(resolve, files, h.path).value) == h.digest
    requires forall e :: e in entries ==> e.path != h.path
    ensures Describes(entries + [Entry(h.path, h.digest, |h.digest.content|)], hashed + [h], resolve, files)
  {
    var one := Entry(h.path, h.digest, |h.digest.content|);
    var more := entries + [one];
    forall g | g in hashed + [h] && Present(resolve, files, g.path).Some?
        ensures exists e :: e in more && e.path == g.path {
      if g in hashed {
        var e :| e in entries && e.path == g.path;
        assert e in more;
      } else {
        assert one in more;
      }
    }
    assert forall e :: e in more ==> e in entries || e == one;
  }

  // ----- restoring makes verification succeed -----

  /** A file is as the last entry that resolves to it says; a file that no entry resolves to is
      untouched. */
  lemma {:induction false} RestoredFile(entries: seq<Entry>, resolve: Resolver, blobs: map<Digest, Bytes>,
      files: Files, file: File)
    returns (last: int)
    ensures -1 <= last < |entries|
    ensures last >= 0 ==>
              && Restorable(entries[last], resolve, blobs) && resolve(entries[last].path) == Some(file)
              && file in Restored(entries, resolve, blobs, files)
              && Restored(entries, resolve, blobs, files)[file] == blobs[entries[last].digest]
    ensures last == -1 ==>
              && (file in Restored(entries, resolve, blobs, files) <==> file in files)
              && (file in files ==> Restored(entries, resolve, blobs, files)[file] == files[file])
    ensures forall i :: last < i < |entries| ==>
              !(Restorable(entries[i], resolve, blobs) && resolve(entries[i].path) == Some(file))
  {
    last := -1;
    if entries != [] {
      var e := entries[|entries| - 1];
      if Restorable(e, resolve, blobs) && resolve(e.path) == Some(file) {
        last := |entries| - 1;
      } else {
        last := RestoredFile(entries[..|entries| - 1], resolve, blobs, files, file);
      }
    }
  }

  /** Entries that now resolve to one file agree on its content. */
  ghost predicate AliasesAgree(entries: seq<Entry>, resolve: Resolver) {
    forall d, e :: d in entries && e in entries && resolve(d.path).Some? && resolve(d.path) == resolve(e.path) ==>
        d.digest == e.digest
  }

  ghost predicate AllResolve(entries: seq<Entry>, resolve: Resolver) {
    forall e :: e in entries ==> resolve(e.path).Some?
  }

  /** After a restore, whatever the worktree was before, verification reports everything unchanged
      exactly when every listed path resolves and no two that share a file were snapshotted with
      different contents. */
  lemma RestoreThenVerifyIff(entries: seq<Entry>, resolve: Resolver, blobs: map<Digest, Bytes>, files: Files)
    requires SoundBlobs(blobs) && forall e :: e in entries ==> e.digest in blobs
    ensures AllUnchanged(entries, resolve, Restored(entries, resolve, blobs, files))
            <==> AllResolve(entries, resolve) && AliasesAgree(entries, resolve)
  {
    hide Restored;
    var after := Restored(entries, resolve, blobs, files);
    if AllResolve(entries, resolve) && AliasesAgree(entries, resolve) {
      forall e | e in entries ensures StatusOf(e, resolve, after) == Unchanged {
        var i :| 0 <= i < |entries| && entries[i] == e;
        var last := RestoredFile(entries, resolve, blobs, files, resolve(e.path).value);
        assert Restorable(entries[i], resolve, blobs);
        assert entries[last] in entries;
      }
    }
    if AllUnchanged(entries, resolve, after) {
      forall e | e in entries ensures resolve(e.path).Some? {
        assert StatusOf(e, resolve, after) == Unchanged;
      }
      forall d, e | d in entries && e in entries && resolve(d.path).Some? && resolve(d.path) == resolve(e.path)
        ensures d.digest == e.digest
      {
        assert StatusOf(d, resolve, after) == Unchanged && StatusOf(e, resolve, after) == Unchanged;
      }
    }
  }

  /** The files no listed path resolves to are left alone. */
  lemma OtherFilesAreUntouched(entries: seq<Entry>, resolve: Resolver, blobs: map<Digest, Bytes>, files: Files,
      file: File)
    requires forall e :: e in entries ==> resolve(e.path) != Some(file)
    ensures file in Restored(entries, resolve, blobs, files) <==> file in files
    ensures file in files ==> Restored(entries, resolve, blobs, files)[file] == files[file]
  {
    forall i | 0 <= i < |entries| ensures resolve(entries[i].path) != Some(file) {
      assert entries[i] in entries;
    }
    var last := RestoredFile(entries, resolve, blobs, files, file);
  }

  /** Snapshot, then any edits and deletions, then restore: verification reports all unchanged, if the
      listed paths still resolve as they did, even where two of them are one file. */
  lemma SnapshotSurvivesEdits(entries: seq<Entry>, hashed: seq<Hashed>, resolve: Resolver, resolve': Resolver,
                              blobs: map<Digest, Bytes>, files: Files, edited: Files)
    requires Describes(entries, hashed, resolve, files)
    requires SoundBlobs(blobs) && forall e :: e in entries ==> e.digest in blobs
    requires forall e :: e in entries ==> resolve'(e.path) == resolve(e.path)
    ensures AllUnchanged(entries, resolve', Restored(entries, resolve', blobs, edited))
    ensures forall e :: e in entries ==>
              Present(resolve', Restored(entries, resolve', blobs, edited), e.path) == Present(resolve, files, e.path)
  {
    hide Restored;
    RestoreThenVerifyIff(entries, resolve', blobs, edited);
  }
}
