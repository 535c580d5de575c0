/** A directory captured by services/pipeline/capture-recipe.py is accepted by
    worker/recipe_capture.go, which rebuilds the same files. */
module CaptureRoundTrip {
  import opened Hexadecimal
  import opened Values
  import opened Sums
  import opened Text
  import opened GitTree
  import opened RecipeLoader
  import opened RecipeProof
  import opened RecipeCapture
  import opened CapturedFiles
  import opened CaptureRecipe
  import opened CaptureGuarantees
  import opened CaptureAccepted
  import opened CaptureSound
  import opened ContainedLinks

  // ----- down to the directory, in step -----

  lemma {:induction false} CandidatesNamed(entries: seq<Entry>, part: string, e: Entry)
    requires e in Candidates(entries, part)
    ensures e in entries && e.name == part && e.mode == DIRECTORY
  {
    if e in Candidates(entries[..|entries| - 1], part) {
      CandidatesNamed(entries[..|entries| - 1], part, e);
    }
  }

  lemma CandidateFound(entries: seq<Entry>, part: string)
    requires WellNamed(entries) && |Candidates(entries, part)| == 1
    ensures Find(entries, part) == Some(Candidates(entries, part)[0]) && Candidates(entries, part)[0].mode == DIRECTORY
  {
    var e := Candidates(entries, part)[0];
    CandidatesNamed(entries, part, e);
    FindNamed(entries, part);
    var i, j :| 0 <= i < |entries| && entries[i] == e && 0 <= j < |entries| && entries[j] == Find(entries, part).value;
  }

  ghost predicate Arrives(trees: Trees, oid: string, parts: seq<string>, s: Cap, r: (string, Cap)) {
    TreeAt(trees, oid, parts) == Some(r.0) && r.1.trees.Keys == s.trees.Keys + PathTrees(trees, oid, parts)
  }

  lemma OneLevelArrives(trees: Trees, oid: string, parts: seq<string>, e: Entry, s: Cap, t: Cap, r: (string, Cap))
    requires WellParsed(trees) && oid in trees && parts != [] && Candidates(trees[oid], parts[0]) == [e]
    requires t.trees.Keys == s.trees.Keys + {oid} && Arrives(trees, e.sha, parts[1..], t, r)
    ensures Arrives(trees, oid, parts, s, r)
  {
    OneLevel(trees, oid, parts, e);
  }

  lemma DescendUnfolds(repo: Repo, oid: string, parts: seq<string>, s: Cap) returns (e: Entry, t: Cap)
    requires parts != [] && Descended(repo, oid, parts, s).Some?
    ensures Candidates(EntriesAt(repo, oid), parts[0]) == [e] && t.trees.Keys == s.trees.Keys + {oid}
    ensures Descended(repo, oid, parts, s) == Descended(repo, e.sha, parts[1..], t)
    ensures oid in Descended(repo, oid, parts, s).value.1.trees
  {
    t := WithTree(repo, oid, s).value;
    e := Candidates(EntriesAt(repo, oid), parts[0])[0];
  }

  lemma {:induction false} DescendsInStep(repo: Repo, trees: Trees, oid: string, parts: seq<string>, s: Cap)
    requires WellParsed(trees) && TreesMatch(repo, trees)
    requires var r := Descended(repo, oid, parts, s); r.Some? && r.value.1.trees.Keys <= trees.Keys
    ensures Arrives(trees, oid, parts, s, Descended(repo, oid, parts, s).value)
    decreases |parts|
  {
    if parts != [] {
      var r := Descended(repo, oid, parts, s).value;
      var e, t := DescendUnfolds(repo, oid, parts, s);
      DescendsInStep(repo, trees, e.sha, parts[1..], t);
      OneLevelArrives(trees, oid, parts, e, s, t, r);
    }
  }

  lemma OneLevel(trees: Trees, oid: string, parts: seq<string>, e: Entry)
    requires WellParsed(trees) && oid in trees && parts != [] && Candidates(trees[oid], parts[0]) == [e]
    ensures TreeAt(trees, oid, parts) == TreeAt(trees, e.sha, parts[1..])
    ensures PathTrees(trees, oid, parts) == {oid} + PathTrees(trees, e.sha, parts[1..])
  {
    CandidateFound(trees[oid], parts[0]);
  }

  // ----- stored objects -----

  function RefOf(repo: Repo, data: Bytes): Ref {
    Ref(repo.sha256(data), |data|)
  }

  /** SHA-256 on the retained bytes: hexadecimal, without collisions, and known on the empty string. */
  ghost predicate Sha256Ok(repo: Repo, kept: set<Bytes>) {
    && repo.sha256("") == EMPTY_SHA
    && (forall data :: data in kept ==> IsSha256(repo.sha256(data)))
    && (forall a, b :: a in kept + {""} && b in kept + {""} && repo.sha256(a) == repo.sha256(b) ==> a == b)
  }

  /** The verifier is given the retained object files, and hashes as the capture does. */
  ghost predicate Serves(repo: Repo, env: Env, s: Cap) {
    && env.store.sha256 == repo.sha256 && env.gitHash == repo.gitHash
    && forall sha :: sha in s.objects ==> env.store.fetch(sha) == Some(s.objects[sha])
  }

  lemma KeptLoads(repo: Repo, env: Env, s: Cap, data: Bytes, max: int)
    requires ObjectsSound(repo, s) && Sha256Ok(repo, s.kept) && Serves(repo, env, s)
    requires data in s.kept && |data| <= max
    ensures Loads(env.store, RefOf(repo, data), max) && Data(env.store, RefOf(repo, data)) == data
  {
    if data != "" {
      var sha := repo.sha256(data);
      assert sha in s.objects && repo.sha256(s.objects[sha]) == sha;
    }
  }

  // ----- the manifest -----

  function FileRef(repo: Repo, f: File): CaptureFile {
    CaptureFile(f.path, f.entry.mode, RefOf(repo, f.data))
  }

  function FileRefs(repo: Repo, files: seq<File>): (refs: seq<CaptureFile>)
    ensures |refs| == |files| && forall i :: 0 <= i < |files| ==> refs[i] == FileRef(repo, files[i])
  {
    seq(|files|, i requires 0 <= i < |files| => FileRef(repo, files[i]))
  }

  function TreeRefs(repo: Repo, order: seq<Bytes>): (refs: seq<Ref>)
    ensures |refs| == |order| && forall i :: 0 <= i < |order| ==> refs[i] == RefOf(repo, order[i])
  {
    seq(|order|, i requires 0 <= i < |order| => RefOf(repo, order[i]))
  }

  /** The manifest of a capture; its lists are sorted, so their order is open here. */
  ghost predicate IsManifest(repo: Repo, commit: string, subdir: string, raw: Bytes, s: Cap, m: Manifest) {
    && m.schemaVersion == 1 && m.kind == "recipe-capture" && m.commit == commit && m.directory == subdir
    && m.commitObject == RefOf(repo, raw)
    && multiset(m.trees) == multiset(TreeRefs(repo, s.order)) && multiset(m.files) == multiset(FileRefs(repo, s.files))
  }

  ghost predicate TreeVerifiable(raw: Bytes) {
    TreeEntries(raw).Some? && Verifiable(TreeEntries(raw).value, {})
  }

  /** What the verifier asks beyond what the capture checks. */
  ghost predicate VerifierLimits(env: Env, s: Cap, m: Manifest) {
    && ShapeOk(s) && (forall oid :: oid in s.trees ==> TreeVerifiable(s.trees[oid]))
    && (forall f :: f in s.files ==> FileLimits(f))
    && LinksAccepted(LinksIn(env, m.files), SafeRecipePath)
    && env.nameOk(m.pkgbase) && env.urlOk(m.repository)
  }

  predicate FileLimits(f: File) {
    && (f.entry.mode == LINK_MODE ==> |f.data| <= MAX_LINK)
    && (f.path == ".SRCINFO" ==> f.entry.mode != LINK_MODE && |f.data| <= MAX_SRCINFO)
    && (f.path == ".omarchy/package.json" ==> f.entry.mode != LINK_MODE && |f.data| <= MAX_PACKAGE_JSON)
    && (f.path == "PKGBUILD" ==> |f.data| <= MAX_PKGBUILD)
  }

  // ----- sorted lists hold the same -----

  lemma PermutedMember<T>(a: seq<T>, b: seq<T>, x: T)
    requires multiset(a) == multiset(b)
    ensures x in a <==> x in b
  {
    assert x in a <==> x in multiset(a);
    assert x in b <==> x in multiset(b);
  }

  lemma {:induction false} TwiceIn<T>(s: seq<T>, x: T) returns (i: int, j: int)
    requires multiset(s)[x] >= 2
    ensures 0 <= i < j < |s| && s[i] == x && s[j] == x
  {
    var last := |s| - 1;
    assert s == s[..last] + [s[last]];
    if s[last] == x {
      assert x in multiset(s[..last]);
      j := last;
      i :| 0 <= i < last && s[i] == x;
    } else {
      i, j := TwiceIn(s[..last], x);
    }
  }

  lemma CountTwice<T>(s: seq<T>, i: int, j: int)
    requires 0 <= i < j < |s| && s[i] == s[j]
    ensures multiset(s)[s[i]] >= 2
  {
    assert s == s[..i] + [s[i]] + s[i + 1..j] + [s[j]] + s[j + 1..];
  }

  ghost predicate DistinctBy<T(!new), K>(key: T -> K, s: seq<T>) {
    forall i, j :: 0 <= i < j < |s| ==> key(s[i]) != key(s[j])
  }

  lemma DistinctPermuted<T(!new), K>(key: T -> K, a: seq<T>, b: seq<T>)
    requires DistinctBy(key, a) && multiset(a) == multiset(b)
    ensures DistinctBy(key, b)
  {
    forall i, j | 0 <= i < j < |b| ensures key(b[i]) != key(b[j]) {
      PermutedMember(a, b, b[i]);
      PermutedMember(a, b, b[j]);
      var k, l :| 0 <= k < |a| && a[k] == b[i] && 0 <= l < |a| && a[l] == b[j];
      if b[i] == b[j] {
        CountTwice(b, i, j);
        var p, q := TwiceIn(a, b[i]);
      }
    }
  }

  // ----- piece by piece -----

  /** A capture, its manifest, and a verifier that is served the retained objects. */
  ghost predicate Handed(repo: Repo, env: Env, commit: string, subdir: string, raw: Bytes, s: Cap, m: Manifest) {
    && ObjectsSound(repo, s) && Sha256Ok(repo, s.kept) && Serves(repo, env, s)
    && IsManifest(repo, commit, subdir, raw, s, m) && VerifierLimits(env, s, m)
  }

  lemma {:induction false} ManyPaths(files: seq<File>)
    ensures |ExpectedOf(files)| <= |files|
    ensures |ExpectedOf(files)| == |files| ==> DistinctBy((f: File) => f.path, files)
  {
    if files != [] {
      var before, last := files[..|files| - 1], files[|files| - 1];
      ManyPaths(before);
      ExpectedKeys(before);
      if |ExpectedOf(files)| == |files| {
        forall i | 0 <= i < |before| ensures files[i].path != last.path {
          assert before[i] in before && before[i] == files[i];
        }
      }
    }
  }

  lemma {:induction false} ExpectedKeys(files: seq<File>)
    ensures forall path :: path in ExpectedOf(files) <==> exists f :: f in files && f.path == path
  {
    if files != [] {
      ExpectedKeys(files[..|files| - 1]);
      assert files == files[..|files| - 1] + [files[|files| - 1]];
    }
  }

  lemma {:induction false} ExpectedValue(files: seq<File>, f: File)
    requires f in files && DistinctBy((f: File) => f.path, files)
    ensures f.path in ExpectedOf(files) && ExpectedOf(files)[f.path] == f.entry
  {
    var before, last := files[..|files| - 1], files[|files| - 1];
    assert files == before + [last];
    if f != last {
      ExpectedValue(before, f);
      var i :| 0 <= i < |before| && before[i] == f;
      assert files[i].path != files[|before|].path;
    }
  }

  /** Every file of the manifest is the reference of a captured file. */
  lemma ManifestFile(repo: Repo, files: seq<File>, refs: seq<CaptureFile>, ref: CaptureFile) returns (f: File)
    requires multiset(refs) == multiset(FileRefs(repo, files)) && ref in refs
    ensures f in files && ref == FileRef(repo, f)
  {
    PermutedMember(refs, FileRefs(repo, files), ref);
    var i :| 0 <= i < |files| && FileRefs(repo, files)[i] == ref;
    f := files[i];
  }

  lemma CapturedFile(repo: Repo, files: seq<File>, refs: seq<CaptureFile>, f: File)
    requires multiset(refs) == multiset(FileRefs(repo, files)) && f in files
    ensures FileRef(repo, f) in refs
  {
    var i :| 0 <= i < |files| && files[i] == f;
    assert FileRefs(repo, files)[i] == FileRef(repo, f);
    PermutedMember(refs, FileRefs(repo, files), FileRef(repo, f));
  }

  lemma {:induction false} SumOfRefs(repo: Repo, files: seq<File>)
    ensures Sum(FileSize, FileRefs(repo, files)) == Sum(DataSize, files)
  {
    if files != [] {
      var before := files[..|files| - 1];
      SumOfRefs(repo, before);
      assert FileRefs(repo, files)[..|before|] == FileRefs(repo, before);
    }
  }

  lemma DistinctRefs(repo: Repo, files: seq<File>, refs: seq<CaptureFile>)
    requires |ExpectedOf(files)| == |files| && multiset(refs) == multiset(FileRefs(repo, files))
    ensures RecipeCapture.DistinctPaths(refs)
  {
    ManyPaths(files);
    var path := (f: CaptureFile) => f.path;
    assert DistinctBy(path, FileRefs(repo, files)) by {
      forall i, j | 0 <= i < j < |files| ensures path(FileRefs(repo, files)[i]) != path(FileRefs(repo, files)[j]) {
        assert files[i].path != files[j].path;
      }
    }
    DistinctPermuted(path, FileRefs(repo, files), refs);
    forall i, j | 0 <= i < j < |refs| ensures refs[i].path != refs[j].path {
      assert path(refs[i]) != path(refs[j]);
    }
  }

  lemma FilesAccepted(repo: Repo, env: Env, commit: string, subdir: string, raw: Bytes, s: Cap, m: Manifest)
    requires Handed(repo, env, commit, subdir, raw, s, m) && FilesSound(repo, s) && |ExpectedOf(s.files)| == |s.files|
    ensures FilesOk(m.files) && |m.files| == |s.files|
  {
    forall ref | ref in m.files ensures FileOk(ref) {
      var f := ManifestFile(repo, s.files, m.files, ref);
      assert FileSound(repo, s, f) && FileLimits(f);
      SizeInTotal(s.files, f);
    }
    DistinctRefs(repo, s.files, m.files);
    SumPermuted(FileSize, m.files, FileRefs(repo, s.files));
    SumOfRefs(repo, s.files);
    assert |m.files| == |multiset(m.files)| == |FileRefs(repo, s.files)|;
  }

  lemma {:induction false} SizeInTotal(files: seq<File>, f: File)
    requires f in files
    ensures |f.data| <= Sum(DataSize, files)
  {
    var before, last := files[..|files| - 1], files[|files| - 1];
    assert files == before + [last];
    SumPrefix(DataSize, before, |before|);
    if f != last {
      SizeInTotal(before, f);
    }
  }

  lemma ContentsAccepted(repo: Repo, env: Env, commit: string, subdir: string, raw: Bytes, s: Cap, m: Manifest)
    requires Handed(repo, env, commit, subdir, raw, s, m) && FilesSound(repo, s) && |ExpectedOf(s.files)| == |s.files|
    ensures forall ref :: ref in m.files ==> ContentOk(env, ExpectedOf(s.files), ref)
  {
    ManyPaths(s.files);
    forall ref | ref in m.files ensures ContentOk(env, ExpectedOf(s.files), ref) {
      var f := ManifestFile(repo, s.files, m.files, ref);
      assert FileSound(repo, s, f);
      SizeInTotal(s.files, f);
      ExpectedValue(s.files, f);
      KeptLoads(repo, env, s, f.data, MAX_RECIPE_TREE);
    }
  }

  lemma ManifestTree(repo: Repo, order: seq<Bytes>, refs: seq<Ref>, ref: Ref) returns (raw: Bytes)
    requires multiset(refs) == multiset(TreeRefs(repo, order)) && ref in refs
    ensures raw in order && ref == RefOf(repo, raw)
  {
    PermutedMember(refs, TreeRefs(repo, order), ref);
    var i :| 0 <= i < |order| && TreeRefs(repo, order)[i] == ref;
    raw := order[i];
  }

  lemma {:induction false} SumOfTrees(repo: Repo, order: seq<Bytes>)
    ensures Sum(RefSize, TreeRefs(repo, order)) == Sum(Length, order)
  {
    if order != [] {
      var before := order[..|order| - 1];
      SumOfTrees(repo, before);
      assert TreeRefs(repo, order)[..|before|] == TreeRefs(repo, before);
    }
  }

  lemma TreeAccepted(repo: Repo, env: Env, commit: string, subdir: string, raw: Bytes, s: Cap, m: Manifest, ref: Ref)
    returns (tree: Bytes)
    requires Handed(repo, env, commit, subdir, raw, s, m) && TreesListed(repo, s) && ref in m.trees
    ensures tree in s.order && ref == RefOf(repo, tree) && TreeOk(env, ref) && Data(env.store, ref) == tree
  {
    tree := ManifestTree(repo, s.order, m.trees, ref);
    assert OrderSound(repo, s, tree) && TreeSound(repo, s, repo.gitHash("tree", tree));
    VerifierReadsIff(tree, {});
    KeptLoads(repo, env, s, tree, MAX_TREE);
  }

  lemma DistinctTreeRefs(repo: Repo, env: Env, commit: string, subdir: string, raw: Bytes, s: Cap, m: Manifest)
    requires Handed(repo, env, commit, subdir, raw, s, m) && TreesListed(repo, s) && DistinctIds(repo, s.order)
    ensures DistinctTrees(env, m.trees)
  {
    var key := (ref: Ref) => TreeHash(env, ref);
    assert DistinctBy(key, TreeRefs(repo, s.order)) by {
      forall i, j | 0 <= i < j < |s.order| ensures key(TreeRefs(repo, s.order)[i]) != key(TreeRefs(repo, s.order)[j]) {
        assert OrderSound(repo, s, s.order[i]) && TreeSound(repo, s, repo.gitHash("tree", s.order[i]));
        assert OrderSound(repo, s, s.order[j]) && TreeSound(repo, s, repo.gitHash("tree", s.order[j]));
        KeptLoads(repo, env, s, s.order[i], MAX_TREE);
        KeptLoads(repo, env, s, s.order[j], MAX_TREE);
      }
    }
    DistinctPermuted(key, TreeRefs(repo, s.order), m.trees);
    forall i, j | 0 <= i < j < |m.trees| ensures TreeHash(env, m.trees[i]) != TreeHash(env, m.trees[j]) {
      assert key(m.trees[i]) != key(m.trees[j]);
    }
  }

  lemma TreesAccepted(repo: Repo, env: Env, commit: string, subdir: string, raw: Bytes, s: Cap, m: Manifest)
    requires Handed(repo, env, commit, subdir, raw, s, m) && TreesSound(repo, s, raw) && s.order != []
    ensures TreesOk(env, m) && |m.trees| == |s.order|
  {
    forall ref | ref in m.trees ensures TreeOk(env, ref) {
      var tree := TreeAccepted(repo, env, commit, subdir, raw, s, m, ref);
    }
    DistinctTreeRefs(repo, env, commit, subdir, raw, s, m);
    SumPermuted(RefSize, m.trees, TreeRefs(repo, s.order));
    SumOfTrees(repo, s.order);
    assert |m.trees| == |multiset(m.trees)| == |TreeRefs(repo, s.order)|;
  }

  /** The verifier's trees are the captured ones. */
  lemma TreesRebuilt(repo: Repo, env: Env, commit: string, subdir: string, raw: Bytes, s: Cap, m: Manifest)
    requires Handed(repo, env, commit, subdir, raw, s, m) && TreesListed(repo, s)
    requires forall ref :: ref in m.trees ==> TreeOk(env, ref)
    ensures TreesOf(env, m.trees).Keys == s.trees.Keys
    ensures TreesMatch(repo, TreesOf(env, m.trees))
  {
    var trees := TreesOf(env, m.trees);
    TreesOfKeys(env, m.trees);
    forall oid | oid in trees ensures oid in s.trees && trees[oid] == EntriesAt(repo, oid) {
      var ref := TreesOfValue(env, m.trees, oid);
      var tree := TreeAccepted(repo, env, commit, subdir, raw, s, m, ref);
      assert OrderSound(repo, s, tree) && TreeSound(repo, s, oid);
      VerifierReadsIff(tree, {});
      var entries := ParsersAgree(tree, {});
    }
    forall oid | oid in s.trees ensures oid in trees {
      assert TreeSound(repo, s, oid);
      var tree := s.trees[oid];
      var i :| 0 <= i < |s.order| && s.order[i] == tree;
      assert TreeRefs(repo, s.order)[i] == RefOf(repo, tree);
      PermutedMember(m.trees, TreeRefs(repo, s.order), RefOf(repo, tree));
      KeptLoads(repo, env, s, tree, MAX_TREE);
    }
  }

  // ----- the whole capture -----

  /** What a capture that ran through has established. */
  ghost predicate CaptureOk(repo: Repo, commit: string, raw: Bytes, s: Cap) {
    && Sound(repo, s, raw) && raw in s.kept && |raw| <= MAX_COMMIT && repo.gitHash("commit", raw) == commit
    && RootLine(FirstLine(raw)) && s.order != [] && SomePkgbuild(s.files)
  }

  lemma CaptureFacts(repo: Repo, commit: string, subdir: string, raw: Bytes, s: Cap)
    requires Captured(repo, commit, subdir) == Some((raw, s))
    ensures CaptureOk(repo, commit, raw, s)
  {
    var start := Nothing(raw);
    var down := Descended(repo, FirstLine(raw)[5..], Parts(subdir), start).value;
    var walked := WalkTree(repo, down.0, "", down.1).value;
    DescendSound(repo, FirstLine(raw)[5..], Parts(subdir), start, raw);
    WalkSound(repo, down.0, "", down.1, raw);
    assert down.0 in walked.trees && TreeSound(repo, walked, down.0);
    MoreKept(repo, walked, s, raw);
    RetainedSound(repo, walked, s, raw);
  }

  lemma MoreCaptured(repo: Repo, commit: string, raw: Bytes, s: Cap, data: Bytes)
    requires CaptureOk(repo, commit, raw, s)
    ensures CaptureOk(repo, commit, raw, Retained(repo, s, data))
  {
    MoreKept(repo, s, Retained(repo, s, data), raw);
    RetainedSound(repo, s, Retained(repo, s, data), data);
  }

  /** The verifier's walk ends where the capture's did. */
  lemma WholeInStep(repo: Repo, commit: string, subdir: string, raw: Bytes, s: Cap, trees: Trees)
    requires Captured(repo, commit, subdir) == Some((raw, s))
    requires Setting(repo, trees) && trees.Keys == s.trees.Keys && ShapeOk(s)
    ensures var walked := Walked(trees, FirstLine(raw)[5..], subdir);
            && walked.Some? && walked.value.used == trees.Keys
            && walked.value.expected == ExpectedOf(s.files) && |ExpectedOf(s.files)| == |s.files|
  {
    var start, root, parts := Nothing(raw), FirstLine(raw)[5..], Parts(subdir);
    var down := Descended(repo, root, parts, start).value;
    DescendKeeps(repo, root, parts, start);
    DescendsInStep(repo, trees, root, parts, start);
    WalksInStep(repo, trees, down.0, "", down.1, State(0, map[], PathTrees(trees, root, parts)));
  }

  lemma {:induction false} DescendKeeps(repo: Repo, oid: string, parts: seq<string>, s: Cap)
    requires Descended(repo, oid, parts, s).Some?
    ensures var t := Descended(repo, oid, parts, s).value.1; t.files == s.files && t.dirs == s.dirs
    decreases |parts|
  {
    if parts != [] {
      DescendKeeps(repo, Candidates(EntriesAt(repo, oid), parts[0])[0].sha, parts[1..], WithTree(repo, oid, s).value);
    }
  }

  /** In a Git tree no file lies below a file. */
  lemma {:induction false} NoFileAbove(trees: Trees, entries: seq<Entry>, comps: seq<string>, k: nat)
    requires LookupIn(trees, entries, comps).Some? && k < |comps|
    ensures LookupIn(trees, entries, comps[..k]).None?
    decreases |comps|
  {
    if k > 0 {
      assert comps[..k][1..] == comps[1..][..k - 1];
      var e := Find(entries, comps[0]);
      if k > 1 {
        NoFileAbove(trees, trees[e.value.sha], comps[1..], k - 1);
      }
    }
  }

  lemma WalkedParents(trees: Trees, root: string, directory: string, path: string)
    requires WellParsed(trees) && Walked(trees, root, directory).Some?
    requires path in Walked(trees, root, directory).value.expected
    ensures ParentsFree(Walked(trees, root, directory).value.expected.Keys, path)
  {
    var start := State(0, map[], PathTrees(trees, root, Parts(directory)));
    var dir := TreeAt(trees, root, Parts(directory)).value;
    var expected := Walked(trees, root, directory).value.expected;
    WalkFills(trees, dir, "", start);
    FoundAsLooked(trees, trees[dir], expected, path);
    var comps := Split(path, '/');
    forall k | 1 <= k < |comps| ensures Join(comps[..k], '/') !in expected {
      NoFileAbove(trees, trees[dir], comps, k);
      SplitJoin(comps[..k], '/');
      FoundAsLooked(trees, trees[dir], expected, Join(comps[..k], '/'));
    }
  }

  lemma FoundAsLooked(trees: Trees, entries: seq<Entry>, expected: map<string, Entry>, path: string)
    requires Filled(trees, entries, "", map[], expected)
    ensures path in expected <==> LookupIn(trees, entries, Split(path, '/')).Some?
  {
    assert FilledAt(trees, entries, "", map[], expected, path);
    assert path[|""|..] == path;
  }

  lemma InventoryAccepted(repo: Repo, env: Env, commit: string, subdir: string, raw: Bytes, s: Cap, m: Manifest)
    requires Handed(repo, env, commit, subdir, raw, s, m) && CaptureOk(repo, commit, raw, s)
    requires |ExpectedOf(s.files)| == |s.files| && IsSha1(commit) && (subdir == "" || SafeRecipePath(subdir))
    requires forall path :: path in ExpectedOf(s.files) ==> ParentsFree(ExpectedOf(s.files).Keys, path)
    ensures InventoryOk(env, m, m.pkgbase)
  {
    FilesAccepted(repo, env, commit, subdir, raw, s, m);
    TreesAccepted(repo, env, commit, subdir, raw, s, m);
    SamePaths(repo, s.files, m.files);
    var f :| f in s.files && f.path == "PKGBUILD" && f.entry.mode != LINK_MODE && f.data != "";
    CapturedFile(repo, s.files, m.files, f);
    ByPathValue(m.files, FileRef(repo, f));
    assert FileLimits(f);
  }

  lemma SamePaths(repo: Repo, files: seq<File>, refs: seq<CaptureFile>)
    requires multiset(refs) == multiset(FileRefs(repo, files))
    ensures ByPath(refs).Keys == ExpectedOf(files).Keys
  {
    ByPathKeys(refs);
    ExpectedKeys(files);
    forall path | path in ByPath(refs) ensures path in ExpectedOf(files) {
      var ref :| ref in refs && ref.path == path;
      var f := ManifestFile(repo, files, refs, ref);
    }
    forall path | path in ExpectedOf(files) ensures path in ByPath(refs) {
      var f :| f in files && f.path == path;
      CapturedFile(repo, files, refs, f);
    }
  }

  lemma TreesInStep(repo: Repo, env: Env, commit: string, subdir: string, raw: Bytes, s: Cap,
                    u: Cap, m: Manifest)
    requires Captured(repo, commit, subdir) == Some((raw, s))
    requires Handed(repo, env, commit, subdir, raw, u, m) && CaptureOk(repo, commit, raw, u)
    requires u.files == s.files && u.trees == s.trees && u.dirs == s.dirs
    ensures CommitOk(env, m) && RootTree(env, m) == FirstLine(raw)[5..] && TreesOk(env, m)
    ensures var trees := TreesOf(env, m.trees);
            var walked := Walked(trees, FirstLine(raw)[5..], subdir);
            && WellParsed(trees) && walked.Some? && walked.value.used == trees.Keys
            && walked.value.expected == ExpectedOf(u.files) && |ExpectedOf(u.files)| == |u.files|
  {
    KeptLoads(repo, env, u, raw, MAX_COMMIT);
    TreesAccepted(repo, env, commit, subdir, raw, u, m);
    TreesRebuilt(repo, env, commit, subdir, raw, u, m);
    TreesWellParsed(env, m.trees);
    WholeInStep(repo, commit, subdir, raw, s, TreesOf(env, m.trees));
  }

  lemma ProofAccepted(repo: Repo, env: Env, commit: string, subdir: string, raw: Bytes, s: Cap,
                      u: Cap, m: Manifest)
    requires Captured(repo, commit, subdir) == Some((raw, s))
    requires Handed(repo, env, commit, subdir, raw, u, m) && CaptureOk(repo, commit, raw, u)
    requires u.files == s.files && u.trees == s.trees && u.dirs == s.dirs
    ensures ProvenOk(env, m) && Expected(env, m) == ExpectedOf(u.files) && |ExpectedOf(u.files)| == |u.files|
    ensures forall path :: path in ExpectedOf(u.files) ==> ParentsFree(ExpectedOf(u.files).Keys, path)
  {
    TreesInStep(repo, env, commit, subdir, raw, s, u, m);
    assert |m.files| == |multiset(m.files)| == |FileRefs(repo, u.files)|;
    forall path | path in ExpectedOf(u.files) ensures ParentsFree(ExpectedOf(u.files).Keys, path) {
      WalkedParents(TreesOf(env, m.trees), FirstLine(raw)[5..], subdir, path);
    }
  }

  /** A captured directory is accepted by the verifier it is handed to, if it is within the limits
      that only the verifier has, and the files rebuilt are the files captured. */
  lemma CapturedIsAccepted(repo: Repo, env: Env, commit: string, subdir: string,
                           raw: Bytes, s: Cap, m: Manifest, document: Bytes)
    requires Captured(repo, commit, subdir) == Some((raw, s))
    requires IsManifest(repo, commit, subdir, raw, s, m) && VerifierLimits(env, s, m)
    requires env.decode(document) == Some(m) && 0 < |document| <= MAX_MANIFEST
    requires Sha256Ok(repo, s.kept + {document}) && Serves(repo, env, Retained(repo, s, document))
    ensures Acceptable(env, RefOf(repo, document), m.pkgbase)
    ensures ContentsOf(env, m.files).Keys == set f | f in s.files :: f.path
    ensures forall f :: f in s.files ==> ContentsOf(env, m.files)[f.path] == Content(f.entry.mode, f.data)
  {
    var u := Retained(repo, s, document);
    CaptureFacts(repo, commit, subdir, raw, s);
    MoreCaptured(repo, commit, raw, s, document);
    KeptLoads(repo, env, u, document, MAX_MANIFEST);
    ProofAccepted(repo, env, commit, subdir, raw, s, u, m);
    InventoryAccepted(repo, env, commit, subdir, raw, u, m);
    ContentsAccepted(repo, env, commit, subdir, raw, u, m);
    Rebuilt(repo, env, commit, subdir, raw, u, m);
  }

  lemma Rebuilt(repo: Repo, env: Env, commit: string, subdir: string, raw: Bytes, s: Cap, m: Manifest)
    requires Handed(repo, env, commit, subdir, raw, s, m) && FilesSound(repo, s) && |ExpectedOf(s.files)| == |s.files|
    ensures ContentsOf(env, m.files).Keys == set f | f in s.files :: f.path
    ensures forall f :: f in s.files ==> ContentsOf(env, m.files)[f.path] == Content(f.entry.mode, f.data)
  {
    ContentsPaths(env, m.files);
    SamePaths(repo, s.files, m.files);
    DistinctRefs(repo, s.files, m.files);
    forall f | f in s.files ensures f.path in ContentsOf(env, m.files)
          && ContentsOf(env, m.files)[f.path] == Content(f.entry.mode, f.data) {
      assert FileSound(repo, s, f);
      KeptLoads(repo, env, s, f.data, |f.data|);
      CapturedFile(repo, s.files, m.files, f);
      ContentAt(env, m.files, FileRef(repo, f));
    }
    SameKeys(ContentsOf(env, m.files), s.files);
  }

  lemma ContentsPaths(env: Env, refs: seq<CaptureFile>)
    ensures ContentsOf(env, refs).Keys == ByPath(refs).Keys
  {
    ContentsKeys(env, refs);
    ByPathKeys(refs);
  }

  lemma ContentAt(env: Env, refs: seq<CaptureFile>, ref: CaptureFile)
    requires RecipeCapture.DistinctPaths(refs) && ref in refs
    ensures ref.path in ContentsOf(env, refs)
    ensures ContentsOf(env, refs)[ref.path] == Content(ref.mode, Data(env.store, ref.content))
  {
    ContentsKeys(env, refs);
    var other := ContentsValue(env, refs, ref.path);
    ByPathValue(refs, ref);
    ByPathValue(refs, other);
  }

  lemma SameKeys(contents: map<string, Content>, files: seq<File>)
    requires contents.Keys == ExpectedOf(files).Keys
    ensures contents.Keys == set f | f in files :: f.path
  {
    ExpectedKeys(files);
  }
}
