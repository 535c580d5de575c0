/** `materializeRecipeCapture` of worker/recipe_capture.go: a manifest with a Git proof is checked in
    full, then its files are written below an empty directory. */
module RecipeCapture {
  import opened Values
  import opened Text
  import opened GitTree
  import opened RecipeLoader
  import opened RecipeProof
  import opened ContainedLinks
  import opened Sums

  const MAX_TREES := 512
  const MAX_LINK := 512
  const MAX_SRCINFO := 0x10_0000
  const MAX_PACKAGE_JSON := 0x1_0000
  const MAX_PKGBUILD := 0x20_0000
  const LINK_MODE := "120000"

  datatype CaptureFile = CaptureFile(path: string, mode: string, content: Ref)

  datatype Manifest = Manifest(schemaVersion: int, kind: string, pkgbase: string, repository: string,
                               commit: string, directory: string,
                               commitObject: Ref, trees: seq<Ref>, files: seq<CaptureFile>)

  /** `decode` is the canonical JSON decoder, `gitHash` the identity of a Git object of some kind,
      `nameOk` and `urlOk` the checks of package names and repository URLs. */
  datatype Env = Env(store: Store, decode: Bytes -> Option<Manifest>, gitHash: (string, Bytes) -> string,
                     nameOk: string -> bool, urlOk: string -> bool)

  // ----- what a manifest must be -----

  predicate IdentityOk(env: Env, m: Manifest, pkgbase: string) {
    && m.schemaVersion == 1 && m.kind == "recipe-capture" && m.pkgbase == pkgbase && env.nameOk(pkgbase)
    && (m.directory == "" || SafeRecipePath(m.directory))
    && 1 <= |m.files| <= MAX_FILES && 1 <= |m.trees| <= MAX_TREES
    && |m.commit| == 40 && env.urlOk(m.repository)
  }

  predicate FileOk(f: CaptureFile) {
    && SafeRecipePath(f.path) && 0 <= f.content.size <= MAX_RECIPE_TREE
    && (f.mode == "100644" || f.mode == "100755" || f.mode == LINK_MODE)
    && (f.mode == LINK_MODE ==> f.content.size <= MAX_LINK)
    && (f.path == ".SRCINFO" ==> f.mode != LINK_MODE && f.content.size <= MAX_SRCINFO)
    && (f.path == ".omarchy/package.json" ==> f.mode != LINK_MODE && f.content.size <= MAX_PACKAGE_JSON)
  }

  function FileSize(f: CaptureFile): int {
    f.content.size
  }

  function ByPath(files: seq<CaptureFile>): map<string, CaptureFile> {
    if files == [] then map[]
    else ByPath(files[..|files| - 1])[files[|files| - 1].path := files[|files| - 1]]
  }

  predicate DistinctPaths(files: seq<CaptureFile>) {
    forall i, j :: 0 <= i < j < |files| ==> files[i].path != files[j].path
  }

  ghost predicate FilesOk(files: seq<CaptureFile>) {
    (forall f :: f in files ==> FileOk(f)) && DistinctPaths(files) && Sum(FileSize, files) <= MAX_RECIPE_TREE
  }

  predicate RecipeOk(byPath: map<string, CaptureFile>) {
    && "PKGBUILD" in byPath && byPath["PKGBUILD"].mode != LINK_MODE
    && 0 < byPath["PKGBUILD"].content.size <= MAX_PKGBUILD
  }

  function FirstLine(data: string): string {
    data[..IndexOf(data, '\n')]
  }

  predicate CommitOk(env: Env, m: Manifest) {
    && Loads(env.store, m.commitObject, MAX_COMMIT)
    && var data := Data(env.store, m.commitObject);
       env.gitHash("commit", data) == m.commit && HasPrefix(FirstLine(data), "tree ") && |FirstLine(data)| == 45
  }

  function RootTree(env: Env, m: Manifest): string
    requires CommitOk(env, m)
  {
    FirstLine(Data(env.store, m.commitObject))[5..]
  }

  function TreeHash(env: Env, ref: Ref): string {
    env.gitHash("tree", Data(env.store, ref))
  }

  function RefSize(ref: Ref): int {
    ref.size
  }

  function ProofSize(commit: Ref, trees: seq<Ref>): int {
    commit.size + Sum(RefSize, trees)
  }

  predicate TreeOk(env: Env, ref: Ref) {
    Loads(env.store, ref, MAX_TREE) && Parse(Data(env.store, ref), {}).Ok?
  }

  predicate DistinctTrees(env: Env, trees: seq<Ref>) {
    forall i, j :: 0 <= i < j < |trees| ==> TreeHash(env, trees[i]) != TreeHash(env, trees[j])
  }

  ghost predicate TreesOk(env: Env, m: Manifest) {
    && (forall ref :: ref in m.trees ==> TreeOk(env, ref))
    && DistinctTrees(env, m.trees) && ProofSize(m.commitObject, m.trees) <= MAX_PROOF
  }

  /** The parsed trees under the identities of their bytes. */
  function TreesOf(env: Env, trees: seq<Ref>): Trees
    requires forall ref :: ref in trees ==> TreeOk(env, ref)
  {
    if trees == [] then map[]
    else
      var last := trees[|trees| - 1];
      assert last in trees && TreeOk(env, last);
      TreesOf(env, trees[..|trees| - 1])[TreeHash(env, last) := Parse(Data(env.store, last), {}).value]
  }

  function Parts(directory: string): seq<string> {
    if directory == "" then [] else Split(directory, '/')
  }

  /** The trees read on the way down to the directory. */
  function PathTrees(trees: Trees, sha: string, comps: seq<string>): set<string>
    decreases |comps|
  {
    if comps == [] || sha !in trees then {}
    else
      var e := Find(trees[sha], comps[0]);
      {sha} + if e.Some? && e.value.mode == DIRECTORY then PathTrees(trees, e.value.sha, comps[1..]) else {}
  }

  /** The walk below the directory. */
  function Walked(trees: Trees, root: string, directory: string): Option<State> {
    var sha := TreeAt(trees, root, Parts(directory));
    if sha.None? then None else Walk(trees, sha.value, "", State(0, map[], PathTrees(trees, root, Parts(directory))))
  }

  predicate ProofOk(trees: Trees, root: string, m: Manifest) {
    var walked := Walked(trees, root, m.directory);
    walked.Some? && |walked.value.used| == |trees| && |walked.value.expected| == |m.files|
  }

  predicate ContentOk(env: Env, expected: map<string, Entry>, f: CaptureFile) {
    && Loads(env.store, f.content, MAX_RECIPE_TREE) && f.path in expected
    && f.mode == expected[f.path].mode && expected[f.path].sha == env.gitHash("blob", Data(env.store, f.content))
  }

  function LinksIn(env: Env, files: seq<CaptureFile>): map<string, string> {
    if files == [] then map[]
    else
      var before, last := LinksIn(env, files[..|files| - 1]), files[|files| - 1];
      if last.mode == LINK_MODE then before[last.path := Data(env.store, last.content)] else before
  }

  ghost predicate InventoryOk(env: Env, m: Manifest, pkgbase: string) {
    && IdentityOk(env, m, pkgbase) && FilesOk(m.files)
    && (forall path :: path in ByPath(m.files) ==> ParentsFree(ByPath(m.files).Keys, path))
    && RecipeOk(ByPath(m.files))
  }

  ghost predicate ProvenOk(env: Env, m: Manifest) {
    CommitOk(env, m) && TreesOk(env, m) && ProofOk(TreesOf(env, m.trees), RootTree(env, m), m)
  }

  /** The files of the directory as the proof has them. */
  ghost function Expected(env: Env, m: Manifest): map<string, Entry>
    requires ProvenOk(env, m)
  {
    Walked(TreesOf(env, m.trees), RootTree(env, m), m.directory).value.expected
  }

  ghost predicate ManifestOk(env: Env, m: Manifest, pkgbase: string) {
    && InventoryOk(env, m, pkgbase) && ProvenOk(env, m)
    && (forall f :: f in m.files ==> ContentOk(env, Expected(env, m), f))
    && LinksAccepted(LinksIn(env, m.files), SafeRecipePath)
  }

  ghost predicate Acceptable(env: Env, ref: Ref, pkgbase: string) {
    && Loads(env.store, ref, MAX_MANIFEST) && ref.size > 0
    && var m := env.decode(Data(env.store, ref));
       m.Some? && ManifestOk(env, m.value, pkgbase)
  }

  // ----- the checks, as the loops of the source -----

  lemma {:induction false} ByPathKeys(files: seq<CaptureFile>)
    ensures forall path :: path in ByPath(files) <==> exists f :: f in files && f.path == path
  {
    if files != [] {
      ByPathKeys(files[..|files| - 1]);
      assert files == files[..|files| - 1] + [files[|files| - 1]];
    }
  }

  lemma {:induction false} ByPathValue(files: seq<CaptureFile>, f: CaptureFile)
    requires DistinctPaths(files) && f in files
    ensures f.path in ByPath(files) && ByPath(files)[f.path] == f
  {
    var before, last := files[..|files| - 1], files[|files| - 1];
    assert files == before + [last];
    if f != last {
      var i :| 0 <= i < |before| && before[i] == f;
      assert files[i].path != files[|before|].path;
      ByPathValue(before, f);
    }
  }

  lemma DistinctGrows(files: seq<CaptureFile>, i: nat)
    requires i < |files| && DistinctPaths(files[..i])
    ensures ByPath(files[..i + 1]) == ByPath(files[..i])[files[i].path := files[i]]
    ensures Sum(FileSize, files[..i + 1]) == Sum(FileSize, files[..i]) + files[i].content.size
    ensures DistinctPaths(files[..i + 1]) <==> files[i].path !in ByPath(files[..i])
  {
    assert files[..i + 1][..i] == files[..i];
    ByPathKeys(files[..i]);
    DistinctPathsGrow(files, i);
  }

  lemma DistinctPathsGrow(files: seq<CaptureFile>, i: nat)
    requires i < |files| && DistinctPaths(files[..i])
    ensures DistinctPaths(files[..i + 1]) <==> !exists f :: f in files[..i] && f.path == files[i].path
  {
    if f :| f in files[..i] && f.path == files[i].path {
      var k :| 0 <= k < i && files[k] == f;
      assert files[..i + 1][k].path == files[..i + 1][i].path;
    } else {
      forall j, k | 0 <= j < k < i + 1 ensures files[j].path != files[k].path {
        assert files[j] in files[..i];
        assert k < i ==> files[..i][j].path != files[..i][k].path;
      }
    }
  }

  method CheckFiles(inventory: seq<CaptureFile>) returns (ok: bool, files: map<string, CaptureFile>)
    ensures ok <==> FilesOk(inventory)
    ensures ok ==> files == ByPath(inventory)
  {
    files := map[];
    var size := 0;
    for i := 0 to |inventory|
      invariant files == ByPath(inventory[..i]) && size == Sum(FileSize, inventory[..i]) <= MAX_RECIPE_TREE
      invariant DistinctPaths(inventory[..i]) && forall f :: f in inventory[..i] ==> FileOk(f)
    {
      var file := inventory[i];
      DistinctGrows(inventory, i);
      assert file in inventory && inventory[..i + 1] == inventory[..i] + [file];
      if file.path in files {
        StaysIndistinct(inventory, i + 1);
        return false, map[];
      }
      if !SafeRecipePath(file.path) || file.content.size < 0 || file.content.size > MAX_RECIPE_TREE ||
         (file.mode != "100644" && file.mode != "100755" && file.mode != LINK_MODE) ||
         (file.mode == LINK_MODE && file.content.size > MAX_LINK) {
        return false, map[];
      }
      size := size + file.content.size;
      if size > MAX_RECIPE_TREE {
        if forall f :: f in inventory ==> FileOk(f) {
          SumPrefix(FileSize, inventory, i + 1);
        }
        return false, map[];
      }
      files := files[file.path := file];
      if (file.path == ".SRCINFO" && (file.mode == LINK_MODE || file.content.size > MAX_SRCINFO)) ||
         (file.path == ".omarchy/package.json" && (file.mode == LINK_MODE || file.content.size > MAX_PACKAGE_JSON)) {
        return false, map[];
      }
    }
    assert inventory[..|inventory|] == inventory;
    ok := true;
  }

  lemma StaysIndistinct(files: seq<CaptureFile>, i: nat)
    requires i <= |files| && !DistinctPaths(files[..i])
    ensures !DistinctPaths(files)
  {
    var j, k :| 0 <= j < k < i && files[..i][j].path == files[..i][k].path;
    assert files[j].path == files[k].path;
  }

  /** No file is an ancestor of another. */
  method CheckParents(files: map<string, CaptureFile>) returns (ok: bool)
    ensures ok <==> forall path :: path in files ==> ParentsFree(files.Keys, path)
  {
    var pending := files.Keys;
    while pending != {}
      invariant pending <= files.Keys
      invariant forall path :: path in files && path !in pending ==> ParentsFree(files.Keys, path)
    {
      var path :| path in pending;
      var parts := Split(path, '/');
      for k := |parts| downto 1
        invariant forall j :: k <= j < |parts| ==> Join(parts[..j], '/') !in files
      {
        if Join(parts[..k], '/') in files {
          return false;
        }
      }
      pending := pending - {path};
    }
    return true;
  }

  lemma {:induction false} TreesOfKeys(env: Env, trees: seq<Ref>)
    requires forall ref :: ref in trees ==> TreeOk(env, ref)
    ensures forall sha :: sha in TreesOf(env, trees) <==> exists ref :: ref in trees && TreeHash(env, ref) == sha
  {
    if trees != [] {
      TreesOfKeys(env, trees[..|trees| - 1]);
      assert trees == trees[..|trees| - 1] + [trees[|trees| - 1]];
    }
  }

  lemma TreesOfGrow(env: Env, trees: seq<Ref>, i: nat)
    requires i < |trees| && DistinctTrees(env, trees[..i]) && forall ref :: ref in trees[..i + 1] ==> TreeOk(env, ref)
    requires forall ref :: ref in trees[..i] ==> TreeOk(env, ref)
    ensures trees[i] in trees[..i + 1]
    ensures TreesOf(env, trees[..i + 1]) ==
            TreesOf(env, trees[..i])[TreeHash(env, trees[i]) := Parse(Data(env.store, trees[i]), {}).value]
    ensures DistinctTrees(env, trees[..i + 1]) <==> TreeHash(env, trees[i]) !in TreesOf(env, trees[..i])
  {
    assert trees[..i + 1][i] == trees[i] && trees[..i + 1][..i] == trees[..i];
    TreesOfKeys(env, trees[..i]);
    DistinctTreesGrow(env, trees, i);
  }

  lemma DistinctTreesGrow(env: Env, trees: seq<Ref>, i: nat)
    requires i < |trees| && DistinctTrees(env, trees[..i])
    ensures DistinctTrees(env, trees[..i + 1]) <==>
            !exists ref :: ref in trees[..i] && TreeHash(env, ref) == TreeHash(env, trees[i])
  {
    var sha := TreeHash(env, trees[i]);
    if ref :| ref in trees[..i] && TreeHash(env, ref) == sha {
      var k :| 0 <= k < i && trees[k] == ref;
      assert TreeHash(env, trees[..i + 1][k]) == TreeHash(env, trees[..i + 1][i]);
    } else {
      forall j, k | 0 <= j < k < i + 1 ensures TreeHash(env, trees[j]) != TreeHash(env, trees[k]) {
        assert trees[j] in trees[..i];
        assert k < i ==> TreeHash(env, trees[..i][j]) != TreeHash(env, trees[..i][k]);
      }
    }
  }

  lemma TreesRefused(env: Env, m: Manifest, i: nat)
    requires i < |m.trees| && TreesOk(env, m)
    ensures TreeOk(env, m.trees[i]) && ProofSize(m.commitObject, m.trees[..i + 1]) <= MAX_PROOF
    ensures DistinctTrees(env, m.trees[..i + 1])
  {
    assert m.trees[i] in m.trees;
    SumPrefix(RefSize, m.trees, i + 1);
  }

  /** Within the proof budget the transfer budget is never exceeded. */
  method LoadTrees(loader: Loader, env: Env, m: Manifest) returns (ok: bool, trees: Trees)
    requires loader.Valid() && loader.store == env.store
    requires 0 <= m.commitObject.size <= MAX_COMMIT && loader.transferred <= MAX_MANIFEST + m.commitObject.size
    modifies loader
    ensures ok <==> TreesOk(env, m)
    ensures ok ==> trees == TreesOf(env, m.trees)
    ensures ok ==> loader.Valid() && loader.transferred <= MAX_MANIFEST + MAX_PROOF
  {
    trees := map[];
    var proofSize := m.commitObject.size;
    for i := 0 to |m.trees|
      invariant forall ref :: ref in m.trees[..i] ==> TreeOk(env, ref)
      invariant DistinctTrees(env, m.trees[..i]) && trees == TreesOf(env, m.trees[..i])
      invariant proofSize == ProofSize(m.commitObject, m.trees[..i]) <= MAX_PROOF
      invariant loader.Valid() && loader.transferred <= MAX_MANIFEST + proofSize
    {
      var ref := m.trees[i];
      assert m.trees[..i + 1] == m.trees[..i] + [ref];
      if TreesOk(env, m) {
        TreesRefused(env, m, i);
        TreesOfGrow(env, m.trees, i);
      }
      proofSize := proofSize + ref.size;
      if proofSize > MAX_PROOF {
        return false, map[];
      }
      var loaded := loader.Load(ref, MAX_TREE);
      if loaded.OverBudget? {
        assert false;
      }
      if loaded.Refused? {
        return false, map[];
      }
      var sha := env.gitHash("tree", loaded.data);
      if sha in trees {
        return false, map[];
      }
      var entries := ParseRecipeGitTree(loaded.data);
      if entries.Err? {
        return false, map[];
      }
      TreesOfGrow(env, m.trees, i);
      trees := trees[sha := entries.value];
    }
    assert m.trees[..|m.trees|] == m.trees;
    ok := true;
  }

  // ----- down to the directory -----

  method FindDirectory(trees: Trees, root: string, parts: seq<string>) returns (sha: Option<string>, used: set<string>)
    requires WellParsed(trees)
    ensures sha == TreeAt(trees, root, parts)
    ensures sha.Some? ==> used == PathTrees(trees, root, parts)
  {
    used := {};
    var treeSHA := root;
    for i := 0 to |parts|
      invariant TreeAt(trees, root, parts) == TreeAt(trees, treeSHA, parts[i..])
      invariant PathTrees(trees, root, parts) == used + PathTrees(trees, treeSHA, parts[i..])
    {
      assert parts[i..][1..] == parts[i + 1..];
      if treeSHA !in trees {
        return None, {};
      }
      used := used + {treeSHA};
      var entries, found := trees[treeSHA], None;
      for j := 0 to |entries|
        invariant found == DirectoryNamed(entries[..j], parts[i])
      {
        assert entries[..j + 1][..j] == entries[..j];
        if entries[j].name == parts[i] && entries[j].mode == DIRECTORY {
          found := Some(entries[j].sha);
        }
      }
      assert entries[..|entries|] == entries;
      NamedOnce(entries, parts[i]);
      if found.None? {
        return None, {};
      }
      treeSHA := found.value;
    }
    sha := Some(treeSHA);
  }

  /** The last directory entry of that name. */
  function DirectoryNamed(entries: seq<Entry>, name: string): Option<string> {
    if entries == [] then None
    else
      var last := entries[|entries| - 1];
      if last.name == name && last.mode == DIRECTORY then Some(last.sha)
      else DirectoryNamed(entries[..|entries| - 1], name)
  }

  /** Names are distinct, so the last one is the only one. */
  lemma {:induction false} NamedOnce(entries: seq<Entry>, name: string)
    requires GitTree.DistinctNames(entries, {})
    ensures var e := Find(entries, name);
            DirectoryNamed(entries, name) == if e.Some? && e.value.mode == DIRECTORY then Some(e.value.sha) else None
  {
    if entries != [] {
      var before, last := entries[..|entries| - 1], entries[|entries| - 1];
      NamedOnce(before, name);
      LastNamed(before, last);
      FindAppend(before, last, name);
      assert entries == before + [last];
    }
  }

  lemma LastNamed(before: seq<Entry>, last: Entry)
    requires GitTree.DistinctNames(before + [last], {})
    ensures Find(before, last.name).None?
  {
    FindNamed(before, last.name);
    forall e | e in before ensures e.name != last.name {
      var i :| 0 <= i < |before| && before[i] == e;
      assert (before + [last])[i].name != (before + [last])[|before|].name;
    }
  }

  lemma {:induction false} FindAppend(before: seq<Entry>, last: Entry, name: string)
    ensures Find(before + [last], name) ==
            if Find(before, name).Some? then Find(before, name) else if last.name == name then Some(last) else None
  {
    if before != [] {
      assert (before + [last])[1..] == before[1..] + [last];
      FindAppend(before[1..], last, name);
    }
  }
}
