/** The pure parts of the repository analysis route: the file list taken from a Git tree,
    the structure summary (`analyzeStructure`, `getDirectories`, `getFileTypes`), the
    requirements lines and the `package.json` summary of the response. */
module RepositoryStructure {
  import opened Wrappers
  import opened Strings
  import opened Manifest

  /** One entry of a Git tree listing: its path and its `type` ("blob", "tree", "commit"). */
  datatype TreeEntry = TreeEntry(path: string, entryType: string)

  /** `tree.filter((items) => items.type == "blob").map((items) => items.path)`. */
  function BlobPaths(tree: seq<TreeEntry>): (files: seq<string>)
    ensures |files| <= |tree|
  {
    if tree == [] then []
    else
      var last := tree[|tree| - 1];
      BlobPaths(tree[..|tree| - 1]) + (if last.entryType == "blob" then [last.path] else [])
  }

  /** The file list holds exactly the paths of the blob entries. */
  lemma {:induction false} BlobPathsMembers(tree: seq<TreeEntry>)
    ensures forall p :: p in BlobPaths(tree) <==>
      exists i :: 0 <= i < |tree| && tree[i].entryType == "blob" && tree[i].path == p
  {
    if tree != [] {
      var front := tree[..|tree| - 1];
      BlobPathsMembers(front);
      forall p
        ensures p in BlobPaths(tree) <==>
          exists i :: 0 <= i < |tree| && tree[i].entryType == "blob" && tree[i].path == p
      {
        if exists i :: 0 <= i < |front| && front[i].entryType == "blob" && front[i].path == p {
          var i :| 0 <= i < |front| && front[i].entryType == "blob" && front[i].path == p;
          assert tree[i] == front[i];
        }
        if exists i :: 0 <= i < |tree| && tree[i].entryType == "blob" && tree[i].path == p {
          var i :| 0 <= i < |tree| && tree[i].entryType == "blob" && tree[i].path == p;
          if i < |front| {
            assert front[i] == tree[i];
          }
        }
      }
    }
  }

  /** The file list keeps the tree's order: the blobs of two consecutive runs of entries
      are the blobs of the first run followed by those of the second. */
  lemma {:induction false} BlobPathsAppend(a: seq<TreeEntry>, b: seq<TreeEntry>)
    ensures BlobPaths(a + b) == BlobPaths(a) + BlobPaths(b)
    decreases |b|
  {
    if b == [] {
      assert a + b == a;
    } else {
      BlobPathsAppend(a, b[..|b| - 1]);
      assert (a + b)[..|a + b| - 1] == a + b[..|b| - 1];
    }
  }

  /** A tree made only of blobs yields every path, in order, so `totalFiles` is its size. */
  lemma {:induction false} BlobPathsAllBlobs(tree: seq<TreeEntry>)
    requires forall i :: 0 <= i < |tree| ==> tree[i].entryType == "blob"
    ensures |BlobPaths(tree)| == |tree|
    ensures forall i :: 0 <= i < |tree| ==> BlobPaths(tree)[i] == tree[i].path
  {
    if tree != [] {
      BlobPathsAllBlobs(tree[..|tree| - 1]);
    }
  }

  /** What `analyzeStructure` returns. */
  datatype Structure = Structure(
    hasDockerFile: bool,
    hasCL: bool,
    hasTests: bool,
    directories: seq<string>,
    fileTypes: map<string, nat>)

  /** The directories `getDirectories` reports: the first `/`-separated segment of every path
      that has more than one segment. */
  function TopDirectories(files: seq<string>): set<string> {
    set f | f in files && |Split(f, '/')| > 1 :: Split(f, '/')[0]
  }

  /** A directory is reported exactly when some path holds a `/` and the text before its first
      `/` is that directory; a path at the root contributes nothing. */
  lemma TopDirectoriesMembers(files: seq<string>, d: string)
    ensures d in TopDirectories(files) <==>
      exists f :: f in files && '/' in f && IsPrefix(d + "/", f) && '/' !in d
  {
    if d in TopDirectories(files) {
      var f :| f in files && |Split(f, '/')| > 1 && Split(f, '/')[0] == d;
      SplitFirst(f, '/');
      assert (d + "/")[..|d|] == d;
      assert f[..|d| + 1] == f[..|d|] + [f[|d|]];
      assert IsPrefix(d + "/", f);
    }
    if exists f :: f in files && '/' in f && IsPrefix(d + "/", f) && '/' !in d {
      var f :| f in files && '/' in f && IsPrefix(d + "/", f) && '/' !in d;
      SplitFirst(f, '/');
      var first := Split(f, '/')[0];
      PrefixBeforeSeparator(f, first, d);
      assert Split(f, '/')[0] == d;
    }
  }

  /** Two texts that both begin `f` and stop at a `/` (or at its end, for the first) without
      holding one are the same text. */
  lemma PrefixBeforeSeparator(f: string, first: string, d: string)
    requires IsPrefix(first, f) && '/' !in first && (|first| < |f| ==> f[|first|] == '/')
    requires IsPrefix(d + "/", f) && '/' !in d
    ensures first == d
  {
    assert f[|d|] == (d + "/")[|d|] == '/';
    assert f[..|d|] == d;
  }

  /** `getDirectories`: collects the first segments into a set, then lists the set in
      ascending order (`Array.from(dirs).sort()`), least element first. */
  method GetDirectories(files: seq<string>) returns (directories: seq<string>)
    ensures StrictlyAscending(directories)
    ensures forall d :: d in directories <==> d in TopDirectories(files)
  {
    var dirs: set<string> := {};
    for i := 0 to |files|
      invariant dirs == TopDirectories(files[..i])
    {
      var parts := Split(files[i], '/');
      if |parts| > 1 {
        dirs := dirs + {parts[0]};
      }
      assert files[..i + 1] == files[..i] + [files[i]];
    }
    assert files[..|files|] == files;
    directories := [];
    var remaining := dirs;
    while remaining != {}
      invariant StrictlyAscending(directories)
      invariant forall d :: d in dirs <==> d in directories || d in remaining
      invariant forall d :: d in directories ==> d !in remaining
      invariant forall x, y :: x in directories && y in remaining ==> Less(x, y)
      decreases |remaining|
    {
      LeastExists(remaining);
      var least :| least in remaining && IsLeast(least, remaining);
      directories := directories + [least];
      remaining := remaining - {least};
    }
  }

  /** `getDirectories` depends only on which paths are present, not on their order or
      repetition: two results for inputs with the same paths are the same list. */
  lemma DirectoriesIgnoreOrder(files1: seq<string>, files2: seq<string>, dirs1: seq<string>, dirs2: seq<string>)
    requires forall f :: f in files1 <==> f in files2
    requires StrictlyAscending(dirs1) && forall d :: d in dirs1 <==> d in TopDirectories(files1)
    requires StrictlyAscending(dirs2) && forall d :: d in dirs2 <==> d in TopDirectories(files2)
    ensures dirs1 == dirs2
  {
    assert TopDirectories(files1) == TopDirectories(files2);
    AscendingUnique(dirs1, dirs2);
  }

  /** `file.split(".").pop() || "no-extension"`: the text after the last `.`, the whole path
      when it has no `.`, and "no-extension" when that text is empty. */
  function Extension(file: string): string {
    var parts := Split(file, '.');
    var last := parts[|parts| - 1];
    if last == "" then "no-extension" else last
  }

  /** A path is keyed by the non-empty text after its last `.` (all of it when it has no
      `.`); "no-extension" is what an empty path or a path ending in `.` is keyed by. */
  lemma ExtensionSpec(file: string)
    ensures file == "" || file[|file| - 1] == '.' ==> Extension(file) == "no-extension"
    ensures file != "" && file[|file| - 1] != '.' ==>
      && Extension(file) != ""
      && EndsWith(file, Extension(file))
      && '.' !in Extension(file)
      && (|Extension(file)| < |file| ==> file[|file| - |Extension(file)| - 1] == '.')
    ensures file != "" && '.' !in file ==> Extension(file) == file
  {
    SplitLastEmpty(file, '.');
    SplitLast(file, '.');
    SplitFirst(file, '.');
  }

  /** The key "no-extension" is shared: a path literally named `no-extension` is counted
      together with a path ending in `.`. */
  lemma ExtensionKeyShared()
    ensures Extension("no-extension") == Extension("Makefile.") == "no-extension"
  {
    ExtensionSpec("no-extension");
    ExtensionSpec("Makefile.");
  }

  /** Each path's key, in order. */
  function Extensions(files: seq<string>): (keys: seq<string>)
    ensures |keys| == |files|
  {
    if files == [] then []
    else Extensions(files[..|files| - 1]) + [Extension(files[|files| - 1])]
  }

  /** The histogram after counting the paths in order: `types[ext] = (types[ext] || 0) + 1`
      for each path. */
  function Histogram(files: seq<string>): map<string, nat> {
    if files == [] then map[]
    else
      var types := Histogram(files[..|files| - 1]);
      var ext := Extension(files[|files| - 1]);
      types[ext := (if ext in types then types[ext] else 0) + 1]
  }

  /** `getFileTypes`: one counter per key, bumped once per path. */
  method GetFileTypes(files: seq<string>) returns (types: map<string, nat>)
    ensures types == Histogram(files)
  {
    types := map[];
    for i := 0 to |files|
      invariant types == Histogram(files[..i])
    {
      var ext := Extension(files[i]);
      var count := if ext in types then types[ext] else 0;
      types := types[ext := count + 1];
      HistogramPrefixStep(files, i);
    }
    assert files[..|files|] == files;
  }

  /** Counting one more path bumps its key. */
  lemma HistogramPrefixStep(files: seq<string>, i: int)
    requires 0 <= i < |files|
    ensures var types := Histogram(files[..i]);
      var ext := Extension(files[i]);
      Histogram(files[..i + 1]) == types[ext := (if ext in types then types[ext] else 0) + 1]
  {
    var prefix := files[..i + 1];
    assert prefix[..|prefix| - 1] == files[..i];
    assert prefix[|prefix| - 1] == files[i];
  }

  /** The histogram's keys are exactly the keys of the paths. */
  lemma {:induction false} HistogramKeys(files: seq<string>)
    ensures forall e :: e in Histogram(files) <==> e in Extensions(files)
  {
    if files != [] {
      HistogramKeys(files[..|files| - 1]);
    }
  }

  /** Each count is the number of paths with that key, so every count is at least 1. */
  lemma {:induction false} HistogramCounts(files: seq<string>)
    ensures forall e :: e in Histogram(files) ==> Histogram(files)[e] == multiset(Extensions(files))[e] >= 1
  {
    if files != [] {
      var front := files[..|files| - 1];
      HistogramCounts(front);
      HistogramKeys(front);
      var ext := Extension(files[|files| - 1]);
      assert multiset(Extensions(files)) == multiset(Extensions(front)) + multiset{ext};
      forall e | e in Histogram(files)
        ensures Histogram(files)[e] == multiset(Extensions(files))[e]
      {
        if e != ext {
          assert e in Histogram(front);
        } else if ext !in Histogram(front) {
          assert ext !in Extensions(front);
        }
      }
    }
  }

  /** The sum of the counts of a histogram. */
  ghost function Total(types: map<string, nat>): nat
    decreases |types|
  {
    if types == map[] then 0
    else
      var k :| k in types;
      types[k] + Total(types - {k})
  }

  /** The sum can be taken starting from any key. */
  lemma {:induction false} TotalRemove(types: map<string, nat>, k: string)
    requires k in types
    ensures Total(types) == types[k] + Total(types - {k})
    decreases |types|
  {
    var j :| j in types && Total(types) == types[j] + Total(types - {j});
    if j != k {
      TotalRemove(types - {j}, k);
      TotalRemove(types - {k}, j);
      assert types - {j} - {k} == types - {k} - {j};
    }
  }

  /** The counts add up to the number of paths. */
  lemma {:induction false} HistogramTotal(files: seq<string>)
    ensures Total(Histogram(files)) == |files|
  {
    if files != [] {
      var front := files[..|files| - 1];
      var types := Histogram(front);
      var ext := Extension(files[|files| - 1]);
      var updated := Histogram(files);
      HistogramTotal(front);
      TotalRemove(updated, ext);
      assert updated - {ext} == types - {ext};
      if ext in types {
        TotalRemove(types, ext);
      } else {
        assert types - {ext} == types;
      }
    }
  }

  /** `files.some((f) => f.includes(a) || f.includes(b) || ...)`. */
  predicate AnyContainsOneOf(files: seq<string>, subs: seq<string>) {
    exists f, sub :: f in files && sub in subs && Contains(f, sub)
  }

  /** `analyzeStructure`: three case-sensitive substring flags over all paths, the top-level
      directories and the extension histogram. */
  method AnalyzeStructure(files: seq<string>) returns (structure: Structure)
    ensures structure.hasDockerFile <==> exists f :: f in files && Contains(f, "Dockerfile")
    ensures structure.hasCL <==>
      exists f :: f in files && (Contains(f, ".github/workflows") || Contains(f, ".gitlab-ci.yml") || Contains(f, "jenkins"))
    ensures structure.hasTests <==>
      exists f :: f in files && (Contains(f, "test") || Contains(f, "spec") || Contains(f, "__tests__"))
    ensures StrictlyAscending(structure.directories)
    ensures forall d :: d in structure.directories <==> d in TopDirectories(files)
    ensures structure.fileTypes == Histogram(files)
  {
    var directories := GetDirectories(files);
    var fileTypes := GetFileTypes(files);
    structure := Structure(
      SomeContains(files, "Dockerfile"),
      AnyContainsOneOf(files, [".github/workflows", ".gitlab-ci.yml", "jenkins"]),
      AnyContainsOneOf(files, ["test", "spec", "__tests__"]),
      directories,
      fileTypes);
    AnyContainsOneOfThree(files, ".github/workflows", ".gitlab-ci.yml", "jenkins");
    AnyContainsOneOfThree(files, "test", "spec", "__tests__");
  }

  /** The three-way `||` inside the callback. */
  lemma AnyContainsOneOfThree(files: seq<string>, a: string, b: string, c: string)
    ensures AnyContainsOneOf(files, [a, b, c]) <==>
      exists f :: f in files && (Contains(f, a) || Contains(f, b) || Contains(f, c))
  {
    if exists f :: f in files && (Contains(f, a) || Contains(f, b) || Contains(f, c)) {
      var f :| f in files && (Contains(f, a) || Contains(f, b) || Contains(f, c));
      var sub := if Contains(f, a) then a else if Contains(f, b) then b else c;
      assert sub in [a, b, c];
    }
  }

  /** Any path containing `sub` contains every piece of `sub`. */
  lemma ContainsPiece(s: string, sub: string, i: int, j: int)
    requires 0 <= i <= j <= |sub|
    requires Contains(s, sub)
    ensures Contains(s, sub[i..j])
  {
    ContainsIff(s, sub);
    var k :| OccursAt(s, sub, k);
    forall n | 0 <= n < j - i
      ensures s[k + i..k + j][n] == sub[i..j][n]
    {
      assert s[k..k + |sub|][i + n] == s[k + i + n];
    }
    assert OccursAt(s, sub[i..j], k + i);
    ContainsIff(s, sub[i..j]);
  }

  /** The "__tests__" alternative of `hasTests` is redundant: such a path already contains
      "test". */
  lemma TestsFlagRedundancy(files: seq<string>)
    ensures AnyContainsOneOf(files, ["test", "spec", "__tests__"]) <==>
      AnyContainsOneOf(files, ["test", "spec"])
  {
    if AnyContainsOneOf(files, ["test", "spec", "__tests__"]) {
      var f, sub :| f in files && sub in ["test", "spec", "__tests__"] && Contains(f, sub);
      if sub == "__tests__" {
        ContainsPiece(f, sub, 2, 6);
        assert sub[2..6] == "test";
      }
    }
    if AnyContainsOneOf(files, ["test", "spec"]) {
      var f, sub :| f in files && sub in ["test", "spec"] && Contains(f, sub);
      assert sub in ["test", "spec", "__tests__"];
    }
  }

  /** `requirementsTxt.split("\n").filter((l) => l.trim())`: the lines whose trimmed text is
      not empty, in order, each left untrimmed. */
  function NonBlankLines(lines: seq<string>): (kept: seq<string>)
    ensures |kept| <= |lines|
  {
    if lines == [] then []
    else
      var last := lines[|lines| - 1];
      NonBlankLines(lines[..|lines| - 1]) + (if Trim(last) != "" then [last] else [])
  }

  /** The `requirementsTxt` field of the response: `null` when there is no text or the text
      is empty (both falsy), otherwise its non-blank lines. */
  function RequirementLines(requirementsTxt: Option<string>): Option<seq<string>> {
    if requirementsTxt.Some? && requirementsTxt.value != "" then
      Some(NonBlankLines(Split(requirementsTxt.value, '\n')))
    else None
  }

  /** The kept lines are exactly the non-blank lines, and none holds a line break. */
  lemma {:induction false} NonBlankLinesMembers(lines: seq<string>)
    ensures forall l :: l in NonBlankLines(lines) <==> l in lines && !IsBlank(l)
  {
    if lines != [] {
      var front := lines[..|lines| - 1];
      var last := lines[|lines| - 1];
      NonBlankLinesMembers(front);
      TrimEmptyIffBlank(last);
      assert lines == front + [last];
    }
  }

  /** Filtering keeps the order of the lines. */
  lemma {:induction false} NonBlankLinesAppend(a: seq<string>, b: seq<string>)
    ensures NonBlankLines(a + b) == NonBlankLines(a) + NonBlankLines(b)
    decreases |b|
  {
    if b == [] {
      assert a + b == a;
    } else {
      NonBlankLinesAppend(a, b[..|b| - 1]);
      assert (a + b)[..|a + b| - 1] == a + b[..|b| - 1];
    }
  }

  /** The requirements field is `null` exactly when there is no text or it is empty; otherwise
      it lists exactly the non-blank lines of the text, none of them holding a line break. */
  lemma RequirementLinesSpec(requirementsTxt: Option<string>)
    ensures RequirementLines(requirementsTxt).None? <==> requirementsTxt.None? || requirementsTxt.value == ""
    ensures RequirementLines(requirementsTxt).Some? ==>
      forall l :: l in RequirementLines(requirementsTxt).value <==>
        l in Split(requirementsTxt.value, '\n') && !IsBlank(l) && '\n' !in l
  {
    if requirementsTxt.Some? && requirementsTxt.value != "" {
      NonBlankLinesMembers(Split(requirementsTxt.value, '\n'));
    }
  }

  /** The `package.json` part of the response. */
  datatype PackageSummary = PackageSummary(
    name: Option<string>,
    version: Option<string>,
    scripts: Option<JsonObject>,
    dependencies: seq<string>,
    devDependencies: seq<string>)

  /** `Object.keys(o || {})`: the object's keys in order, none when the field is absent. */
  function KeysOf(o: Option<JsonObject>): (keys: seq<string>)
    ensures o.None? ==> keys == []
  {
    if o.Some? then o.value.keys else []
  }

  /** The summary: `null` without a manifest; otherwise the name, version and scripts as they
      are, and the names of the runtime and development dependencies. */
  function Summarize(packageJson: Option<PackageJson>): Option<PackageSummary> {
    if packageJson.Some? then
      var pj := packageJson.value;
      Some(PackageSummary(pj.name, pj.version, pj.scripts, KeysOf(pj.dependencies), KeysOf(pj.devDependencies)))
    else None
  }

  /** For a parsed manifest, the summary lists each dependency name once and exactly the
      names that have an entry, for both dependency fields. */
  lemma SummaryLists(packageJson: Option<PackageJson>)
    requires packageJson.Some? ==>
      (packageJson.value.dependencies.Some? ==> WellFormed(packageJson.value.dependencies.value)) &&
      (packageJson.value.devDependencies.Some? ==> WellFormed(packageJson.value.devDependencies.value))
    ensures Summarize(packageJson).None? <==> packageJson.None?
    ensures Summarize(packageJson).Some? ==>
      var s := Summarize(packageJson).value;
      && s.name == packageJson.value.name
      && s.version == packageJson.value.version
      && s.scripts == packageJson.value.scripts
      && (forall k :: k in s.dependencies <==> k in Entries(packageJson.value.dependencies))
      && (forall k :: k in s.devDependencies <==> k in Entries(packageJson.value.devDependencies))
      && (forall i, j :: 0 <= i < j < |s.dependencies| ==> s.dependencies[i] != s.dependencies[j])
      && (forall i, j :: 0 <= i < j < |s.devDependencies| ==> s.devDependencies[i] != s.devDependencies[j])
  {
  }
}
