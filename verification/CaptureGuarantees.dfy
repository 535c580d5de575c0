/** What an accepted recipe capture says about the files at its commit and directory. */
module CaptureGuarantees {
  import opened Values
  import opened Text
  import opened GitTree
  import opened RecipeLoader
  import opened RecipeProof
  import opened RecipeCapture
  import opened CapturedFiles

  /** The identity of the captured directory. */
  ghost function DirectorySha(env: Env, m: Manifest): string
    requires ProvenOk(env, m)
  {
    TreeAt(TreesOf(env, m.trees), RootTree(env, m), Parts(m.directory)).value
  }

  ghost function Start(env: Env, m: Manifest): State
    requires ProvenOk(env, m)
  {
    State(0, map[], PathTrees(TreesOf(env, m.trees), RootTree(env, m), Parts(m.directory)))
  }

  // ----- the inventory -----

  lemma {:induction false} ContentsKeys(env: Env, files: seq<CaptureFile>)
    ensures forall path :: path in ContentsOf(env, files) <==> exists f :: f in files && f.path == path
  {
    if files != [] {
      ContentsKeys(env, files[..|files| - 1]);
      assert files == files[..|files| - 1] + [files[|files| - 1]];
    }
  }

  lemma {:induction false} ContentsValue(env: Env, files: seq<CaptureFile>, path: string) returns (f: CaptureFile)
    requires path in ContentsOf(env, files)
    ensures f in files && f.path == path && ContentsOf(env, files)[path] == Content(f.mode, Data(env.store, f.content))
  {
    var last := files[|files| - 1];
    if last.path == path {
      f := last;
    } else {
      f := ContentsValue(env, files[..|files| - 1], path);
    }
  }

  lemma {:induction false} ContentsSize(env: Env, files: seq<CaptureFile>)
    requires DistinctPaths(files)
    ensures |ContentsOf(env, files)| == |files|
  {
    if files != [] {
      var before, last := files[..|files| - 1], files[|files| - 1];
      ContentsSize(env, before);
      ContentsKeys(env, before);
      forall f | f in before ensures f.path != last.path {
        var i :| 0 <= i < |before| && before[i] == f;
        assert files[i].path != files[|before|].path;
      }
    }
  }

  lemma SubsetOfSize<T>(a: set<T>, b: set<T>)
    requires a <= b && |a| == |b|
    ensures a == b
  {
    if x :| x in b && x !in a {
      SmallerWithout(a, b - {x});
    }
  }

  lemma {:induction false} SmallerWithout<T>(a: set<T>, b: set<T>)
    requires a <= b
    ensures |a| <= |b|
    decreases a
  {
    if x :| x in a {
      SmallerWithout(a - {x}, b - {x});
    }
  }

  /** As many files as the proof has, each among them: exactly those. */
  lemma SameInventory(env: Env, m: Manifest, pkgbase: string)
    requires ManifestOk(env, m, pkgbase)
    ensures ContentsOf(env, m.files).Keys == Expected(env, m).Keys
  {
    ContentsKeys(env, m.files);
    ContentsSize(env, m.files);
    forall path | path in ContentsOf(env, m.files) ensures path in Expected(env, m) {
      var f :| f in m.files && f.path == path;
      assert ContentOk(env, Expected(env, m), f);
    }
    SubsetOfSize(ContentsOf(env, m.files).Keys, Expected(env, m).Keys);
  }

  // ----- the capture is the directory -----

  /** An accepted capture holds, at every path, the file that the Git tree of its commit holds below
      its directory: the same mode, bytes with the entry's identity, and nothing else. */
  lemma ExactlyTheTree(env: Env, m: Manifest, pkgbase: string, path: string)
    requires ManifestOk(env, m, pkgbase)
    ensures var contents, entry := ContentsOf(env, m.files),
                                Lookup(TreesOf(env, m.trees), DirectorySha(env, m), Split(path, '/'));
            && (path in contents <==> entry.Some?)
            && (path in contents ==>
                  contents[path].mode == entry.value.mode
                        && env.gitHash("blob", contents[path].bytes) == entry.value.sha)
  {
    var trees, dir := TreesOf(env, m.trees), DirectorySha(env, m);
    TreesWellParsed(env, m.trees);
    WalkFills(trees, dir, "", Start(env, m));
    SameInventory(env, m, pkgbase);
    assert FilledAt(trees, trees[dir], "", map[], Expected(env, m), path);
    assert path[|""|..] == path;
    if path in ContentsOf(env, m.files) {
      var f := ContentsValue(env, m.files, path);
      assert ContentOk(env, Expected(env, m), f);
    }
  }

  /** Every supplied tree lies on the way to the directory or below it. */
  lemma EveryTreeUsed(env: Env, m: Manifest, pkgbase: string, sha: string) returns (comps: seq<string>)
    requires ManifestOk(env, m, pkgbase) && sha in TreesOf(env, m.trees)
    ensures TreeAt(TreesOf(env, m.trees), RootTree(env, m), comps) == Some(sha)
    ensures comps <= Parts(m.directory) || Parts(m.directory) <= comps
  {
    var trees, root, parts := TreesOf(env, m.trees), RootTree(env, m), Parts(m.directory);
    var used := Walked(trees, root, m.directory).value.used;
    TreesWellParsed(env, m.trees);
    UsedAreSupplied(trees, root, m.directory);
    SubsetOfSize(used, trees.Keys);
    if sha in PathTrees(trees, root, parts) {
      comps := OnPath(trees, root, parts, sha);
    } else {
      var below := WalkUsesOnly(trees, DirectorySha(env, m), "", Start(env, m), sha);
      comps := parts + below;
      PathThen(trees, root, parts, below);
    }
  }

  lemma {:induction false} OnPath(trees: Trees, root: string, parts: seq<string>, sha: string)
    returns (comps: seq<string>)
    requires sha in PathTrees(trees, root, parts)
    ensures TreeAt(trees, root, comps) == Some(sha) && comps <= parts
    decreases |parts|
  {
    if sha == root {
      comps := [];
    } else {
      var e := Find(trees[root], parts[0]);
      var rest := OnPath(trees, e.value.sha, parts[1..], sha);
      comps := [parts[0]] + rest;
      assert comps[1..] == rest && parts == [parts[0]] + parts[1..];
    }
  }

  lemma {:induction false} PathThen(trees: Trees, root: string, parts: seq<string>, below: seq<string>)
    requires TreeAt(trees, root, parts).Some?
    ensures TreeAt(trees, root, parts + below) == TreeAt(trees, TreeAt(trees, root, parts).value, below)
    decreases |parts|
  {
    if parts == [] {
      assert parts + below == below;
    } else {
      var e := Find(trees[root], parts[0]);
      PathThen(trees, e.value.sha, parts[1..], below);
      assert (parts + below)[1..] == parts[1..] + below;
    }
  }

  lemma {:induction false} PathSupplied(trees: Trees, root: string, parts: seq<string>)
    ensures PathTrees(trees, root, parts) <= trees.Keys
    decreases |parts|
  {
    if parts != [] && root in trees {
      var e := Find(trees[root], parts[0]);
      if e.Some? && e.value.mode == DIRECTORY {
        PathSupplied(trees, e.value.sha, parts[1..]);
      }
    }
  }

  lemma UsedAreSupplied(trees: Trees, root: string, directory: string)
    requires WellParsed(trees) && Walked(trees, root, directory).Some?
    ensures Walked(trees, root, directory).value.used <= trees.Keys
  {
    var parts := Parts(directory);
    var dir, start := TreeAt(trees, root, parts).value, State(0, map[], PathTrees(trees, root, parts));
    PathSupplied(trees, root, parts);
    forall sha | sha in Walked(trees, root, directory).value.used ensures sha in trees {
      if sha !in start.used {
        var comps := WalkUsesOnly(trees, dir, "", start, sha);
        WalkUses(trees, dir, "", start, comps);
      }
    }
  }

  // ----- two captures of one directory -----

  /** No collision between the Git objects of the two captures. */
  ghost predicate NoCollisions(a: Env, m: Manifest, b: Env, n: Manifest) {
    && NoCollision("commit", a, m.commitObject, b, n.commitObject)
    && (forall s, t :: s in m.trees && t in n.trees ==> NoCollision("tree", a, s, b, t))
    && (forall f, g :: f in m.files && g in n.files ==> NoCollision("blob", a, f.content, b, g.content))
  }

  predicate NoCollision(kind: string, a: Env, s: Ref, b: Env, t: Ref) {
    a.gitHash(kind, Data(a.store, s)) == b.gitHash(kind, Data(b.store, t)) ==> Data(a.store, s) == Data(b.store, t)
  }

  lemma {:induction false} TreesOfValue(env: Env, trees: seq<Ref>, sha: string) returns (ref: Ref)
    requires (forall ref :: ref in trees ==> TreeOk(env, ref)) && sha in TreesOf(env, trees)
    ensures ref in trees && TreeOk(env, ref) && TreeHash(env, ref) == sha
    ensures TreesOf(env, trees)[sha] == Parse(Data(env.store, ref), {}).value
  {
    var last := trees[|trees| - 1];
    assert last in trees && TreeOk(env, last);
    if TreeHash(env, last) == sha {
      ref := last;
    } else {
      ref := TreesOfValue(env, trees[..|trees| - 1], sha);
    }
  }

  lemma TreesAgree(a: Env, m: Manifest, b: Env, n: Manifest)
    requires TreesOk(a, m) && TreesOk(b, n) && NoCollisions(a, m, b, n)
    ensures Agree(TreesOf(a, m.trees), TreesOf(b, n.trees))
  {
    forall sha | sha in TreesOf(a, m.trees) && sha in TreesOf(b, n.trees)
      ensures TreesOf(a, m.trees)[sha] == TreesOf(b, n.trees)[sha]
    {
      TreeAgrees(a, m.trees, b, n.trees, sha);
    }
  }

  lemma TreeAgrees(a: Env, trees: seq<Ref>, b: Env, trees': seq<Ref>, sha: string)
    requires forall ref :: ref in trees ==> TreeOk(a, ref)
    requires forall ref :: ref in trees' ==> TreeOk(b, ref)
    requires forall s, t :: s in trees && t in trees' ==> NoCollision("tree", a, s, b, t)
    requires sha in TreesOf(a, trees) && sha in TreesOf(b, trees')
    ensures TreesOf(a, trees)[sha] == TreesOf(b, trees')[sha]
  {
    var s := TreesOfValue(a, trees, sha);
    var t := TreesOfValue(b, trees', sha);
    assert NoCollision("tree", a, s, b, t);
  }

  lemma {:induction false} SamePath(a: Trees, b: Trees, root: string, parts: seq<string>)
    requires Agree(a, b) && TreeAt(a, root, parts).Some? && TreeAt(b, root, parts).Some?
    ensures TreeAt(a, root, parts) == TreeAt(b, root, parts)
    decreases |parts|
  {
    if parts != [] {
      SamePath(a, b, Find(a[root], parts[0]).value.sha, parts[1..]);
    }
  }

  lemma DirectoryComplete(env: Env, m: Manifest)
    requires ProvenOk(env, m)
    ensures DirectorySha(env, m) in TreesOf(env, m.trees) && Complete(TreesOf(env, m.trees), DirectorySha(env, m))
  {
    var trees, dir := TreesOf(env, m.trees), DirectorySha(env, m);
    TreesWellParsed(env, m.trees);
    WalkUses(trees, dir, "", Start(env, m), []);
    forall comps | TreeAt(trees, dir, comps).Some? ensures TreeAt(trees, dir, comps).value in trees {
      WalkUses(trees, dir, "", Start(env, m), comps);
    }
  }

  lemma SameDirectory(a: Env, m: Manifest, b: Env, n: Manifest)
    requires ProvenOk(a, m) && ProvenOk(b, n) && m.commit == n.commit && m.directory == n.directory
    requires NoCollisions(a, m, b, n)
    ensures DirectorySha(a, m) == DirectorySha(b, n)
  {
    TreesAgree(a, m, b, n);
    SamePath(TreesOf(a, m.trees), TreesOf(b, n.trees), RootTree(a, m), Parts(m.directory));
  }

  ghost predicate ByteTrees(env: Env, m: Manifest) {
    forall ref :: ref in m.trees ==> IsBytes(Data(env.store, ref))
  }

  /** Two captured directories have the same identity exactly if they have the same entries: entries
      that parse alike were the same bytes. */
  lemma SameEntriesIff(a: Env, m: Manifest, b: Env, n: Manifest)
    requires ProvenOk(a, m) && ProvenOk(b, n) && a.gitHash == b.gitHash && NoCollisions(a, m, b, n)
    requires ByteTrees(a, m) && ByteTrees(b, n)
    ensures var s, t := DirectorySha(a, m), DirectorySha(b, n);
            && s in TreesOf(a, m.trees) && t in TreesOf(b, n.trees)
            && (s == t <==> TreesOf(a, m.trees)[s] == TreesOf(b, n.trees)[t])
  {
    DirectoryComplete(a, m);
    DirectoryComplete(b, n);
    TreesAgree(a, m, b, n);
    var s := TreesOfValue(a, m.trees, DirectorySha(a, m));
    var t := TreesOfValue(b, n.trees, DirectorySha(b, n));
    if TreesOf(a, m.trees)[DirectorySha(a, m)] == TreesOf(b, n.trees)[DirectorySha(b, n)] {
      ParseInjective(Data(a.store, s), Data(b.store, t));
    }
  }

  /** Two accepted captures of one commit and directory hold the same files, whoever supplied them. */
  lemma SameCommitSameFiles(a: Env, m: Manifest, b: Env, n: Manifest, pkgbase: string, pkgbase': string)
    requires ManifestOk(a, m, pkgbase) && ManifestOk(b, n, pkgbase')
    requires m.commit == n.commit && m.directory == n.directory && NoCollisions(a, m, b, n)
    ensures ContentsOf(a, m.files) == ContentsOf(b, n.files)
  {
    var x, y := ContentsOf(a, m.files), ContentsOf(b, n.files);
    forall path: string ensures HeldAt(x, path) == HeldAt(y, path) {
      SameFileAt(a, m, b, n, pkgbase, pkgbase', path);
    }
    SameMaps(x, y);
  }

  function HeldAt(contents: map<string, Content>, path: string): Option<Content> {
    if path in contents then Some(contents[path]) else None
  }

  lemma SameMaps(x: map<string, Content>, y: map<string, Content>)
    requires forall path {:trigger HeldAt(x, path)} {:trigger HeldAt(y, path)} :: HeldAt(x, path) == HeldAt(y, path)
    ensures x == y
  {
    forall path: string
      ensures path in x <==> path in y
      ensures path in x ==> x[path] == y[path]
    {
      assert HeldAt(x, path) == HeldAt(y, path);
    }
  }

  lemma SameFileAt(a: Env, m: Manifest, b: Env, n: Manifest, pkgbase: string, pkgbase': string, path: string)
    requires ManifestOk(a, m, pkgbase) && ManifestOk(b, n, pkgbase')
    requires m.commit == n.commit && m.directory == n.directory && NoCollisions(a, m, b, n)
    ensures HeldAt(ContentsOf(a, m.files), path) == HeldAt(ContentsOf(b, n.files), path)
  {
    SameEntry(a, m, b, n, path);
    ExactlyTheTree(a, m, pkgbase, path);
    ExactlyTheTree(b, n, pkgbase', path);
    if path in ContentsOf(a, m.files) {
      SameBlob(a, m.files, b, n.files, path);
    }
  }

  lemma SameEntry(a: Env, m: Manifest, b: Env, n: Manifest, path: string)
    requires ProvenOk(a, m) && ProvenOk(b, n) && m.commit == n.commit && m.directory == n.directory
    requires NoCollisions(a, m, b, n)
    ensures Lookup(TreesOf(a, m.trees), DirectorySha(a, m), Split(path, '/'))
         == Lookup(TreesOf(b, n.trees), DirectorySha(b, n), Split(path, '/'))
  {
    TreesAgree(a, m, b, n);
    SameDirectory(a, m, b, n);
    DirectoryComplete(a, m);
    DirectoryComplete(b, n);
    SameFiles(TreesOf(a, m.trees), TreesOf(b, n.trees), DirectorySha(a, m), Split(path, '/'));
  }

  lemma SameBlob(a: Env, files: seq<CaptureFile>, b: Env, files': seq<CaptureFile>, path: string)
    requires forall f, g :: f in files && g in files' ==> NoCollision("blob", a, f.content, b, g.content)
    requires path in ContentsOf(a, files) && path in ContentsOf(b, files')
    requires a.gitHash("blob", ContentsOf(a, files)[path].bytes) == b.gitHash("blob", ContentsOf(b, files')[path].bytes)
    ensures ContentsOf(a, files)[path].bytes == ContentsOf(b, files')[path].bytes
  {
    var f := ContentsValue(a, files, path);
    var g := ContentsValue(b, files', path);
    assert NoCollision("blob", a, f.content, b, g.content);
  }
}
