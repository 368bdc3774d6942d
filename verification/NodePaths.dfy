/**
 Repository paths and the candidate files a relative star re-export may name
 (`node_compat.py`, lines 10-22, 56-57 and 298-343).

 A path is the sequence of its `PurePosixPath` parts, so "." is the empty sequence.
 */
module NodePaths {
  import opened Wrappers

  type Path = seq<string>

  const RESOLUTION_SUFFIXES: seq<string> :=
    [".d.ts", ".ts", ".tsx", ".mts", ".cts", ".js", ".jsx", ".mjs", ".cjs"]

  const SUPPORTED_SUFFIXES: set<string> :=
    {".js", ".jsx", ".mjs", ".cjs", ".ts", ".tsx", ".mts", ".cts"}

  // ----- normalisation -----

  /** Parts that do not move: `PurePosixPath` already drops most of them. */
  predicate Still(part: string) {
    part == "" || part == "."
  }

  /** One step of the walk: the parts kept so far, or None once ".." has left the root. */
  function Step(kept: Option<Path>, part: string): Option<Path> {
    if kept.None? || Still(part) then kept
    else if part != ".." then Some(kept.value + [part])
    else if kept.value == [] then None
    else Some(kept.value[..|kept.value| - 1])
  }

  function Normalized(parts: Path): Option<Path> {
    if parts == [] then Some([]) else Step(Normalized(parts[..|parts| - 1]), parts[|parts| - 1])
  }

  predicate IsNormal(p: Path) {
    forall i :: 0 <= i < |p| ==> !Still(p[i]) && p[i] != ".."
  }

  /** The loop of `_normalize_repo_path`, which pushes and pops one list. */
  method NormalizeRepoPath(parts: Path) returns (r: Option<Path>)
    ensures r == Normalized(parts)
  {
    var kept: Path := [];
    for i := 0 to |parts|
      invariant Normalized(parts[..i]) == Some(kept)
    {
      assert parts[..i + 1][..i] == parts[..i];
      if parts[i] == "" || parts[i] == "." {
      } else if parts[i] == ".." {
        if kept == [] {
          EscapeIsFinal(parts[..i + 1], parts);
          return None;
        }
        kept := kept[..|kept| - 1];
      } else {
        kept := kept + [parts[i]];
      }
    }
    assert parts[..|parts|] == parts;
    return Some(kept);
  }

  lemma {:induction false} EscapeIsFinal(a: Path, b: Path)
    requires a <= b && Normalized(a).None?
    ensures Normalized(b).None?
    decreases |b|
  {
    if |a| < |b| {
      EscapeIsFinal(a, b[..|b| - 1]);
    } else {
      assert a == b;
    }
  }

  /** How far below the root the walk stands after these parts; negative means outside. */
  function Level(parts: Path): int {
    if parts == [] then 0
    else
      var part := parts[|parts| - 1];
      Level(parts[..|parts| - 1]) + (if Still(part) then 0 else if part == ".." then -1 else 1)
  }

  /** Normalisation fails exactly when some prefix climbs above the repository root, and otherwise
      yields a path without "." and ".." at the level the parts add up to. */
  lemma {:induction false} NormalizedIffNeverEscapes(parts: Path)
    ensures Normalized(parts).Some? <==> forall k :: 0 <= k <= |parts| ==> Level(parts[..k]) >= 0
    ensures Normalized(parts).Some? ==>
              IsNormal(Normalized(parts).value) && |Normalized(parts).value| == Level(parts)
  {
    if parts == [] {
    } else {
      var init := parts[..|parts| - 1];
      NormalizedIffNeverEscapes(init);
      assert parts[..|parts|] == parts;
      assert forall k :: 0 <= k <= |init| ==> parts[..k] == init[..k];
      if Normalized(init).None? {
        var k :| 0 <= k <= |init| && Level(init[..k]) < 0;
        assert Level(parts[..k]) < 0;
      } else if Normalized(parts).None? {
        assert Level(parts[..|parts|]) < 0;
      } else {
        forall k | 0 <= k <= |parts| ensures Level(parts[..k]) >= 0 {
          if k <= |init| {
            assert parts[..k] == init[..k];
          }
        }
      }
    }
  }

  lemma {:induction false} NormalizedIsIdentityOnNormal(p: Path)
    requires IsNormal(p)
    ensures Normalized(p) == Some(p)
  {
    if p != [] {
      var init, part := p[..|p| - 1], p[|p| - 1];
      assert IsNormal(init) by {
        forall i | 0 <= i < |init| ensures !Still(init[i]) && init[i] != ".." {
          assert init[i] == p[i];
        }
      }
      NormalizedIsIdentityOnNormal(init);
      assert Step(Some(init), part) == Some(init + [part]);
      assert init + [part] == p;
    }
  }

  // ----- suffixes -----

  /** Index of the last '.', or -1. */
  function LastDot(name: string): (i: int)
    ensures -1 <= i < |name|
    ensures i >= 0 ==> name[i] == '.'
  {
    if name == [] then -1
    else if name[|name| - 1] == '.' then |name| - 1
    else LastDot(name[..|name| - 1])
  }

  /** `PurePosixPath.suffix`. */
  function Suffix(p: Path): string {
    if p == [] then "" else
      var name := p[|p| - 1];
      var i := LastDot(name);
      if 0 < i < |name| - 1 then name[i..] else ""
  }

  function LowerChar(ch: char): char {
    if 'A' <= ch <= 'Z' then ch - 'A' + 'a' else ch
  }

  function Lower(text: string): string {
    seq(|text|, i requires 0 <= i < |text| => LowerChar(text[i]))
  }

  predicate IsNodeSource(p: Path) {
    var suffix := Suffix(p);
    Lower(suffix) in SUPPORTED_SUFFIXES
  }

  // ----- specifiers -----

  /** `PurePosixPath(text).parts` of a relative path: split at '/', without "" and ".". */
  function Parts(text: string): Path {
    PartsFrom(text, "")
  }

  function PartsFrom(text: string, word: string): Path {
    if text == "" then Emit(word)
    else if text[0] == '/' then Emit(word) + PartsFrom(text[1..], "")
    else PartsFrom(text[1..], word + [text[0]])
  }

  function Emit(word: string): Path {
    if Still(word) then [] else [word]
  }

  predicate Within(p: Path, root: Path) {
    root <= p
  }

  /** `f"{raw_text}{suffix}"`, where the text of the empty path is ".". */
  function AppendSuffix(p: Path, suffix: string): Path {
    if p == [] then ["." + suffix] else p[..|p| - 1] + [p[|p| - 1] + suffix]
  }

  function RawTarget(current: Path, specifier: string): Option<Path> {
    match Normalized(current)
    case None => None
    case Some(file) => Normalized((if file == [] then [] else file[..|file| - 1]) + Parts(specifier))
  }

  predicate RelativeSpecifier(specifier: string) {
    && specifier != "" && specifier[0] == '.'
    && '\\' !in specifier && '?' !in specifier && '#' !in specifier
  }

  /** `_reexport_candidates`. */
  function Candidates(current: Path, specifier: string, root: Path): seq<Path> {
    if !RelativeSpecifier(specifier) then []
    else
      match RawTarget(current, specifier)
      case None => []
      case Some(raw) =>
        if !Within(raw, root) then []
        else if Suffix(raw) != "" then (if IsNodeSource(raw) then [raw] else [])
        else
          seq(|RESOLUTION_SUFFIXES|, i requires 0 <= i < |RESOLUTION_SUFFIXES| =>
              AppendSuffix(raw, RESOLUTION_SUFFIXES[i]))
          + seq(|RESOLUTION_SUFFIXES|, i requires 0 <= i < |RESOLUTION_SUFFIXES| =>
                raw + ["index" + RESOLUTION_SUFFIXES[i]])
  }

  // ----- what a specifier means -----

  lemma {:induction false} PartsFromWord(word: string, text: string)
    requires '/' !in text
    ensures PartsFrom(text, word) == Emit(word + text)
    decreases |text|
  {
    if text == "" {
      assert word + text == word;
    } else {
      assert text[0] in text;
      assert forall ch :: ch in text[1..] ==> ch in text;
      PartsFromWord(word + [text[0]], text[1..]);
      assert word + [text[0]] + text[1..] == word + text;
    }
  }

  lemma {:induction false} PartsFromConcat(a: string, b: string, word: string)
    ensures PartsFrom(a + "/" + b, word) == PartsFrom(a, word) + Parts(b)
    decreases |a|
  {
    if a == "" {
      assert (a + "/" + b)[1..] == b;
    } else {
      assert (a + "/" + b)[1..] == a[1..] + "/" + b;
      PartsFromConcat(a[1..], b, if a[0] == '/' then "" else word + [a[0]]);
    }
  }

  /** The parts of a text are those before any of its slashes, followed by those after it. */
  lemma PartsConcat(a: string, b: string)
    ensures Parts(a + "/" + b) == Parts(a) + Parts(b)
  {
    PartsFromConcat(a, b, "");
  }

  /** A text without a slash is one part, unless it is empty or ".". */
  lemma PartsOfName(name: string)
    requires '/' !in name
    ensures Parts(name) == if name == "" || name == "." then [] else [name]
  {
    PartsFromWord("", name);
    assert "" + name == name;
  }

  /** The text of a path: its parts with slashes between. */
  function Join(p: Path): string {
    if p == [] then "" else if |p| == 1 then p[0] else p[0] + "/" + Join(p[1..])
  }

  predicate NoSlash(p: Path) {
    forall i :: 0 <= i < |p| ==> '/' !in p[i]
  }

  /** Splitting the text of a path gives the path. */
  lemma {:induction false} PartsOfJoin(p: Path)
    requires NoSlash(p) && forall i :: 0 <= i < |p| ==> !Still(p[i])
    ensures Parts(Join(p)) == p
  {
    hide PartsFrom;
    if p == [] {
      PartsOfName("");
    } else {
      PartsOfName(p[0]);
      if |p| == 1 {
        assert p == [p[0]];
      } else {
        PartsConcat(p[0], Join(p[1..]));
        PartsOfJoin(p[1..]);
        assert p == [p[0]] + p[1..];
      }
    }
  }

  function Ups(n: nat): string {
    if n == 0 then "" else "../" + Ups(n - 1)
  }

  lemma NormalizedStep(parts: Path, part: string)
    ensures Normalized(parts + [part]) == Step(Normalized(parts), part)
  {
    assert (parts + [part])[..|parts|] == parts;
  }

  lemma {:induction false} AppendNormal(kept: Path, parts: Path, q: Path)
    requires Normalized(parts) == Some(kept) && IsNormal(q)
    ensures Normalized(parts + q) == Some(kept + q)
    decreases |q|
  {
    hide Normalized;
    if q == [] {
      assert parts + q == parts && kept + q == kept;
    } else {
      var init, last := q[..|q| - 1], q[|q| - 1];
      AppendNormal(kept, parts, init);
      NormalizedStep(parts + init, last);
      assert q == init + [last];
      assert parts + q == parts + init + [last] && kept + q == kept + init + [last];
    }
  }

  /** The parts of `Ups(n)`. */
  function UpParts(n: nat): Path {
    if n == 0 then [] else UpParts(n - 1) + [".."]
  }

  lemma {:induction false} DropParts(d: Path, n: nat)
    requires IsNormal(d)
    ensures Normalized(d + UpParts(n)) == if n <= |d| then Some(d[..|d| - n]) else None
  {
    hide Normalized;
    if n == 0 {
      assert d + UpParts(n) == d && d[..|d|] == d;
      NormalizedIsIdentityOnNormal(d);
    } else {
      DropParts(d, n - 1);
      NormalizedStep(d + UpParts(n - 1), "..");
      assert d + UpParts(n) == d + UpParts(n - 1) + [".."];
      if n <= |d| {
        assert d[..|d| - (n - 1)][..|d| - n] == d[..|d| - n];
      }
    }
  }

  lemma {:induction false} UpFirst(n: nat)
    ensures [".."] + UpParts(n) == UpParts(n + 1)
  {
    if n == 0 {
      assert UpParts(0) == [];
    } else {
      UpFirst(n - 1);
      assert [".."] + UpParts(n) == [".."] + UpParts(n - 1) + [".."];
    }
  }

  lemma {:induction false} PartsOfUps(n: nat, text: string)
    ensures Parts(Ups(n) + text) == UpParts(n) + Parts(text)
  {
    hide Parts;
    if n == 0 {
      assert Ups(n) + text == text;
    } else {
      PartsOfName("..");
      PartsConcat("..", Ups(n - 1) + text);
      assert Ups(n) + text == ".." + "/" + (Ups(n - 1) + text);
      PartsOfUps(n - 1, text);
      UpFirst(n - 1);
    }
  }

  /** A specifier that goes up `n` directories from the file's own and then down `q` names that place: the file's
      directory without its last `n` parts, followed by `q`; or nothing if there are not so many. */
  lemma RelativeTargetIs(d: Path, f: string, n: nat, q: Path)
    requires IsNormal(d + [f]) && IsNormal(q) && NoSlash(q)
    ensures RawTarget(d + [f], Ups(n) + Join(q)) == if n <= |d| then Some(d[..|d| - n] + q) else None
    ensures RawTarget(d + [f], "./" + Ups(n) + Join(q)) == RawTarget(d + [f], Ups(n) + Join(q))
  {
    hide Normalized, Parts, Ups, Join;
    DirectoryOf(d, f);
    PartsOfUps(n, Join(q));
    PartsOfJoin(q);
    UpThenDown(d, n, q);
    PartsOfName(".");
    PartsConcat(".", Ups(n) + Join(q));
    assert "./" + Ups(n) + Join(q) == "." + "/" + (Ups(n) + Join(q));
    assert [] + Parts(Ups(n) + Join(q)) == Parts(Ups(n) + Join(q));
  }

  lemma DirectoryOf(d: Path, f: string)
    requires IsNormal(d + [f])
    ensures Normalized(d + [f]) == Some(d + [f]) && (d + [f])[..|d + [f]| - 1] == d && IsNormal(d)
  {
    NormalizedIsIdentityOnNormal(d + [f]);
    assert forall i :: 0 <= i < |d| ==> d[i] == (d + [f])[i];
  }

  lemma UpThenDown(d: Path, n: nat, q: Path)
    requires IsNormal(d) && IsNormal(q)
    ensures Normalized(d + (UpParts(n) + q)) == if n <= |d| then Some(d[..|d| - n] + q) else None
  {
    hide Normalized, UpParts;
    DropParts(d, n);
    assert d + (UpParts(n) + q) == d + UpParts(n) + q;
    if n <= |d| {
      AppendNormal(d[..|d| - n], d + UpParts(n), q);
    } else {
      EscapeIsFinal(d + UpParts(n), d + UpParts(n) + q);
    }
  }

  lemma {:induction false} LastDotOf(stem: string, ext: string)
    requires '.' !in ext
    ensures LastDot(stem + "." + ext) == |stem|
    decreases |ext|
  {
    var name := stem + "." + ext;
    if ext != "" {
      var init := ext[..|ext| - 1];
      assert ext[|ext| - 1] in ext && forall ch :: ch in init ==> ch in ext;
      assert name[..|name| - 1] == stem + "." + init;
      LastDotOf(stem, init);
    }
  }

  lemma {:induction false} NoDot(name: string)
    requires '.' !in name
    ensures LastDot(name) == -1
  {
    if name != "" {
      assert name[|name| - 1] in name;
      assert forall ch :: ch in name[..|name| - 1] ==> ch in name;
      NoDot(name[..|name| - 1]);
    }
  }

  /** The suffix of a name is its last dot and what follows, if something stands on both sides of that dot. */
  lemma SuffixIs(d: Path, stem: string, ext: string)
    requires '.' !in ext
    ensures Suffix(d + [stem + "." + ext]) == if stem == "" || ext == "" then "" else "." + ext
    ensures Suffix(d + [ext]) == ""
  {
    LastDotOf(stem, ext);
    NoDot(ext);
    assert (stem + "." + ext)[|stem|..] == "." + ext;
  }

  /** The files tried for a target with a suffix: the target itself, if it is a source file by its last extension,
      in either case. */
  lemma CandidatesWithSuffix(current: Path, specifier: string, root: Path, d: Path, stem: string, ext: string)
    requires RelativeSpecifier(specifier) && stem != "" && ext != "" && '.' !in ext
    requires RawTarget(current, specifier) == Some(d + [stem + "." + ext]) && Within(d + [stem + "." + ext], root)
    ensures Candidates(current, specifier, root) == if IsNodeSource(d + [stem + "." + ext])
              then [d + [stem + "." + ext]] else []
    ensures IsNodeSource(d + [stem + "." + ext]) <==>
              Lower(ext) in {"js", "jsx", "mjs", "cjs", "ts", "tsx", "mts", "cts"}
  {
    SuffixIs(d, stem, ext);
    LowerOfSuffix(ext);
  }

  /** Case only matters between the 26 letters: the k-th capital becomes the k-th small letter. */
  lemma LowerIs(text: string, i: nat, k: nat)
    requires i < |text| && k < 26
    ensures |Lower(text)| == |text|
    ensures text[i] as int == 'A' as int + k ==> Lower(text)[i] as int == 'a' as int + k
    ensures !('A' <= text[i] <= 'Z') ==> Lower(text)[i] == text[i]
  {
  }

  lemma LowerOfSuffix(ext: string)
    ensures Lower("." + ext) in SUPPORTED_SUFFIXES
            <==> Lower(ext) in {"js", "jsx", "mjs", "cjs", "ts", "tsx", "mts", "cts"}
  {
    var low, dotted := Lower(ext), Lower("." + ext);
    assert dotted == "." + low;
    assert low == dotted[1..];
    assert "." + "js" == ".js" && "." + "jsx" == ".jsx" && "." + "mjs" == ".mjs" && "." + "cjs" == ".cjs";
    assert "." + "ts" == ".ts" && "." + "tsx" == ".tsx" && "." + "mts" == ".mts" && "." + "cts" == ".cts";
    assert ".js"[1..] == "js" && ".jsx"[1..] == "jsx" && ".mjs"[1..] == "mjs" && ".cjs"[1..] == "cjs";
    assert ".ts"[1..] == "ts" && ".tsx"[1..] == "tsx" && ".mts"[1..] == "mts" && ".cts"[1..] == "cts";
  }

  /** The files tried for a target without a suffix: its name with each source extension, then the index files of the
      directory of that name, declarations first in both. */
  lemma CandidatesWithoutSuffix(current: Path, specifier: string, root: Path, d: Path, name: string)
    requires RelativeSpecifier(specifier) && Suffix(d + [name]) == ""
    requires RawTarget(current, specifier) == Some(d + [name]) && Within(d + [name], root)
    ensures |Candidates(current, specifier, root)| == 18
    ensures forall i :: 0 <= i < 9 ==> Candidates(current, specifier, root)[i] == d + [name + RESOLUTION_SUFFIXES[i]]
    ensures forall i :: 0 <= i < 9 ==>
                          Candidates(current, specifier, root)[9 + i] == d + [name, "index" + RESOLUTION_SUFFIXES[i]]
  {
    hide RawTarget, Suffix;
    var all := Candidates(current, specifier, root);
    assert (d + [name])[..|d|] == d;
    forall i | 0 <= i < 9 ensures all[i] == d + [name + RESOLUTION_SUFFIXES[i]] {
      assert all[i] == AppendSuffix(d + [name], RESOLUTION_SUFFIXES[i]);
    }
    forall i | 0 <= i < 9 ensures all[9 + i] == d + [name, "index" + RESOLUTION_SUFFIXES[i]] {
      assert all[9 + i] == d + [name] + ["index" + RESOLUTION_SUFFIXES[i]];
      assert d + [name] + ["index" + RESOLUTION_SUFFIXES[i]] == d + [name, "index" + RESOLUTION_SUFFIXES[i]];
    }
  }

  /** The repository's root has no name: its own files are tried under the text ".". */
  lemma CandidatesOfRoot(current: Path, specifier: string, i: nat)
    requires RelativeSpecifier(specifier) && RawTarget(current, specifier) == Some([]) && i < 9
    ensures |Candidates(current, specifier, [])| == 18
    ensures Candidates(current, specifier, [])[i] == ["." + RESOLUTION_SUFFIXES[i]]
    ensures Candidates(current, specifier, [])[9 + i] == ["index" + RESOLUTION_SUFFIXES[i]]
  {
    hide RawTarget;
    assert [] + ["index" + RESOLUTION_SUFFIXES[i]] == ["index" + RESOLUTION_SUFFIXES[i]];
  }

  /** Any other specifier, and any target outside the package, names no file. */
  lemma NoCandidatesIff(current: Path, specifier: string, root: Path)
    ensures Candidates(current, specifier, root) == [] <==>
              || specifier == "" || specifier[0] != '.' || '\\' in specifier || '?' in specifier || '#' in specifier
              || RawTarget(current, specifier).None? || !(root <= RawTarget(current, specifier).value)
              || (Suffix(RawTarget(current, specifier).value) != ""
                  && !IsNodeSource(RawTarget(current, specifier).value))
  {
    hide RawTarget, Suffix, IsNodeSource;
  }

  /** The specifier names the package root itself, without a suffix. */
  predicate NamesPackageRoot(current: Path, specifier: string, root: Path) {
    && RelativeSpecifier(specifier)
    && root != [] && RawTarget(current, specifier) == Some(root) && Suffix(root) == ""
  }

  /** "Only relative paths confined to the package root are considered" holds for every candidate
      unless the specifier names the package root itself, whose suffix candidates are siblings. */
  lemma CandidatesConfinedIff(current: Path, specifier: string, root: Path)
    ensures (forall p :: p in Candidates(current, specifier, root) ==> Within(p, root))
            <==> !NamesPackageRoot(current, specifier, root)
  {
    var all := Candidates(current, specifier, root);
    if NamesPackageRoot(current, specifier, root) {
      var sibling := AppendSuffix(root, RESOLUTION_SUFFIXES[0]);
      assert all[0] == sibling;
      assert |sibling[|root| - 1]| > |root[|root| - 1]|;
      assert sibling in all && !Within(sibling, root);
    } else {
      forall p | p in all ensures Within(p, root) {
        var i :| 0 <= i < |all| && all[i] == p;
        var raw := RawTarget(current, specifier).value;
        if Suffix(raw) == "" && i < |RESOLUTION_SUFFIXES| && raw != [] {
          assert p == AppendSuffix(raw, RESOLUTION_SUFFIXES[i]);
          assert raw != root;
          assert root <= raw[..|raw| - 1];
        }
      }
    }
  }

  /** The failing family is inhabited: from `pkg/a.ts`, the specifier "." may read `pkg.d.ts`. */
  lemma SiblingOfRootIsACandidate()
    ensures ["pkg.d.ts"] in Candidates(["pkg", "a.ts"], ".", ["pkg"])
    ensures !Within(["pkg.d.ts"], ["pkg"])
  {
    var current: Path := ["pkg", "a.ts"];
    assert IsNormal(current);
    NormalizedIsIdentityOnNormal(current);
    assert Parts(".") == [] by {
      assert PartsFrom(".", "") == PartsFrom("", ".");
    }
    assert current[..1] + Parts(".") == ["pkg"];
    assert IsNormal(["pkg"]);
    NormalizedIsIdentityOnNormal(["pkg"]);
    assert RawTarget(current, ".") == Some(["pkg"]);
    assert LastDot("pkg") == -1 by {
      assert "pkg"[..2] == "pk" && "pk"[..1] == "p" && "p"[..0] == "";
    }
    var all := Candidates(current, ".", ["pkg"]);
    var suffix := RESOLUTION_SUFFIXES[0];
    assert suffix == ".d.ts";
    assert "pkg" + ".d.ts" == "pkg.d.ts";
    assert AppendSuffix(["pkg"], suffix) == ["pkg.d.ts"];
    assert all[0] == ["pkg.d.ts"];
    assert ["pkg.d.ts"][0] != ["pkg"][0];
  }

  lemma LongerNameStaysNormal(p: Path, name: string)
    requires IsNormal(p) && |name| > 2
    ensures IsNormal(p + [name])
  {
  }

  /** Candidates are normal paths, so resolving from one never normalises to a different file. */
  lemma CandidatesAreNormal(current: Path, specifier: string, root: Path)
    ensures forall p :: p in Candidates(current, specifier, root) ==> IsNormal(p)
  {
    hide Suffix, RawTarget, Normalized, IsNodeSource;
    var all := Candidates(current, specifier, root);
    forall p | p in all ensures IsNormal(p) {
      RawTargetIsNormal(current, specifier);
      var i :| 0 <= i < |all| && all[i] == p;
      var raw := RawTarget(current, specifier).value;
      if Suffix(raw) == "" {
        CandidateIsNormal(raw, RESOLUTION_SUFFIXES[if i < |RESOLUTION_SUFFIXES| then i else i - |RESOLUTION_SUFFIXES|]);
      }
    }
  }

  lemma RawTargetIsNormal(current: Path, specifier: string)
    ensures RawTarget(current, specifier).Some? ==> IsNormal(RawTarget(current, specifier).value)
  {
    if RawTarget(current, specifier).Some? {
      var file := Normalized(current).value;
      NormalizedIffNeverEscapes((if file == [] then [] else file[..|file| - 1]) + Parts(specifier));
    }
  }

  lemma CandidateIsNormal(raw: Path, suffix: string)
    requires IsNormal(raw) && suffix in RESOLUTION_SUFFIXES
    ensures IsNormal(AppendSuffix(raw, suffix)) && IsNormal(raw + ["index" + suffix])
  {
    assert |suffix| >= 3;
    LongerNameStaysNormal(raw, "index" + suffix);
    if raw != [] {
      LongerNameStaysNormal(raw[..|raw| - 1], raw[|raw| - 1] + suffix);
    }
  }
}
