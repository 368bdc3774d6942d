/**
 The file list of a deployment backup (`backup.py`, lines 291-305 and 406-454): how it is written
 and how it is verified. A digest is an injective constructor over the content it stands for.
 */
module BackupManifests {
  import opened Wrappers

  type Bytes = seq<bv8>
  type RelPath = seq<string>
  type FileTree = map<RelPath, Bytes>

  datatype Digest = Sha256(content: Bytes)

  datatype BackupFile = BackupFile(path: RelPath, size: nat, sha256: Digest)

  /** A backup directory: the parsed root manifest, if there is one, and all other files. */
  datatype Backup = Backup(manifest: Option<seq<BackupFile>>, files: FileTree)

  datatype BackupError = ManifestMissing | UnexpectedFile | SizeMismatch | HashMismatch | MissingFiles

  const MANIFEST_NAME := "manifest.json"

  predicate IsManifestName(path: RelPath) {
    path != [] && path[|path| - 1] == MANIFEST_NAME
  }

  /** Manifests of any directory are left out, and nothing else. */
  lemma ManifestNameIs(directory: RelPath, name: string)
    ensures IsManifestName(directory + [name]) <==> name == "manifest.json"
    ensures !IsManifestName([])
  {
  }

  /** What `manifest.files` says of one file. */
  function Describe(path: RelPath, content: Bytes): BackupFile {
    BackupFile(path, |content|, Sha256(content))
  }

  /** The entry that a dictionary built from the list keeps for a path: the last one. */
  function Expected(files: seq<BackupFile>, path: RelPath): Option<BackupFile> {
    if files == [] then None
    else if files[|files| - 1].path == path then Some(files[|files| - 1])
    else Expected(files[..|files| - 1], path)
  }

  predicate Lists(files: seq<BackupFile>, path: RelPath) {
    Expected(files, path).Some?
  }

  /** `_inventory`: one entry per staged file, except every file called manifest.json. */
  method Inventory(tree: FileTree) returns (files: seq<BackupFile>)
    ensures forall path :: Expected(files, path) ==
              if path in tree && !IsManifestName(path) then Some(Describe(path, tree[path])) else None
  {
    files := [];
    var todo := tree.Keys;
    while todo != {}
      invariant todo <= tree.Keys
      invariant forall path :: Expected(files, path) ==
                  if path in tree && path !in todo && !IsManifestName(path) then Some(Describe(path, tree[path]))
                      else None
      decreases todo
    {
      var path :| path in todo;
      todo := todo - {path};
      if !IsManifestName(path) {
        var longer := files + [Describe(path, tree[path])];
        assert longer[..|files|] == files;
        files := longer;
      }
    }
  }

  /** A file tree is exactly what a list of entries describes. */
  ghost predicate Describes(files: seq<BackupFile>, tree: FileTree) {
    && (forall path :: path in tree ==> Expected(files, path) == Some(Describe(path, tree[path])))
    && (forall path :: Lists(files, path) ==> path in tree)
  }

  /** The paths a list of entries names, as `set(expected)`. */
  function ListedPaths(files: seq<BackupFile>): (paths: set<RelPath>)
    ensures forall path :: path in paths <==> Lists(files, path)
  {
    if files == [] then {} else ListedPaths(files[..|files| - 1]) + {files[|files| - 1].path}
  }

  /** `verify_deployment_backup`. */
  method Verify(backup: Backup) returns (r: Result<seq<BackupFile>, BackupError>)
    ensures r.Success? <==> backup.manifest.Some? && Describes(backup.manifest.value, backup.files)
    ensures r.Success? ==> r.value == backup.manifest.value
  {
    if backup.manifest.None? {
      return Failure(ManifestMissing);
    }
    var listed := backup.manifest.value;
    var actual: set<RelPath> := {};
    var todo := backup.files.Keys;
    while todo != {}
      invariant todo !! actual && todo + actual == backup.files.Keys
      invariant forall path :: path in actual ==> Expected(listed, path) == Some(Describe(path, backup.files[path]))
      decreases todo
    {
      var path :| path in todo;
      todo, actual := todo - {path}, actual + {path};
      var item := Expected(listed, path);
      if item.None? {
        return Failure(UnexpectedFile);
      }
      if |backup.files[path]| != item.value.size {
        return Failure(SizeMismatch);
      }
      if Sha256(backup.files[path]) != item.value.sha256 {
        return Failure(HashMismatch);
      }
      ExpectedHasPath(listed, path);
    }
    if ListedPaths(listed) - actual != {} {
      var path :| path in ListedPaths(listed) - actual;
      assert Lists(listed, path) && path !in backup.files;
      return Failure(MissingFiles);
    }
    return Success(listed);
  }

  lemma {:induction false} ExpectedHasPath(files: seq<BackupFile>, path: RelPath)
    requires Lists(files, path)
    ensures Expected(files, path).value.path == path
  {
    if files[|files| - 1].path != path {
      ExpectedHasPath(files[..|files| - 1], path);
    }
  }

  /** No file below the root of the staged tree carries the manifest's name. */
  ghost predicate NoNestedManifest(tree: FileTree) {
    forall path :: path in tree ==> !IsManifestName(path)
  }

  /** Writing the root manifest of a staged tree and verifying the result. */
  method CreateThenVerify(tree: FileTree) returns (verified: bool)
    requires [MANIFEST_NAME] !in tree
    ensures verified <==> NoNestedManifest(tree)
  {
    var files := Inventory(tree);
    var r := Verify(Backup(Some(files), tree));
    if path :| path in tree && IsManifestName(path) {
      assert Expected(files, path) == None;
    }
    return r.Success?;
  }
}
