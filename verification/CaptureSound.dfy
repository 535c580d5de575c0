/** What holds of everything that services/pipeline/capture-recipe.py has retained. */
module CaptureSound {
  import opened Values
  import opened Sums
  import opened GitTree
  import opened RecipeLoader
  import opened RecipeProof
  import opened RecipeCapture
  import opened CaptureRecipe

  function Length(data: Bytes): int {
    |data|
  }

  function DataSize(f: File): int {
    |f.data|
  }

  predicate TreeSound(repo: Repo, s: Cap, oid: string)
    requires oid in s.trees
  {
    var raw := s.trees[oid];
    && repo.object_("tree", oid) == Some(raw) && repo.gitHash("tree", raw) == oid && |raw| <= MAX_TREE
    && TreeEntries(raw).Some? && raw in s.kept && raw in s.order
  }

  predicate OrderSound(repo: Repo, s: Cap, raw: Bytes) {
    var oid := repo.gitHash("tree", raw);
    oid in s.trees && s.trees[oid] == raw
  }

  ghost predicate TreesListed(repo: Repo, s: Cap) {
    && (forall oid :: oid in s.trees ==> TreeSound(repo, s, oid))
    && (forall raw :: raw in s.order ==> OrderSound(repo, s, raw))
  }

  predicate DistinctIds(repo: Repo, order: seq<Bytes>) {
    forall i, j :: 0 <= i < j < |order| ==> repo.gitHash("tree", order[i]) != repo.gitHash("tree", order[j])
  }

  ghost predicate TreesSound(repo: Repo, s: Cap, commit: Bytes) {
    && TreesListed(repo, s) && DistinctIds(repo, s.order)
    && |s.order| == |s.trees| <= MAX_TREES
    && s.proof == |commit| + Sum(Length, s.order) && (s.order != [] ==> s.proof <= MAX_PROOF)
  }

  predicate FileSound(repo: Repo, s: Cap, f: File) {
    && SafeRecipePath(f.path) && IsFileMode(f.entry.mode) && repo.gitHash("blob", f.data) == f.entry.sha
          && f.data in s.kept
  }

  ghost predicate FilesSound(repo: Repo, s: Cap) {
    && (forall f :: f in s.files ==> FileSound(repo, s, f))
    && |s.files| <= MAX_FILES && s.total == Sum(DataSize, s.files) <= MAX_RECIPE_TREE
  }

  /** The object files are exactly the retained bytes that are not empty, up to SHA-256 collisions. */
  ghost predicate ObjectsSound(repo: Repo, s: Cap) {
    && (forall sha :: sha in s.objects ==>
          s.objects[sha] in s.kept && s.objects[sha] != "" && repo.sha256(s.objects[sha]) == sha)
    && (forall data :: data in s.kept && data != "" ==> repo.sha256(data) in s.objects)
  }

  ghost predicate Sound(repo: Repo, s: Cap, commit: Bytes) {
    TreesSound(repo, s, commit) && FilesSound(repo, s) && ObjectsSound(repo, s)
  }

  lemma RetainedSound(repo: Repo, s: Cap, t: Cap, data: Bytes)
    requires ObjectsSound(repo, s) && t.kept == s.kept + {data}
    requires t.objects == if data == "" then s.objects else s.objects[repo.sha256(data) := data]
    ensures ObjectsSound(repo, t)
  {
  }

  lemma MoreKept(repo: Repo, s: Cap, t: Cap, commit: Bytes)
    requires s.trees == t.trees && s.order == t.order && s.proof == t.proof && s.kept <= t.kept
    ensures TreesSound(repo, s, commit) ==> TreesSound(repo, t, commit)
    ensures s.files == t.files && s.total == t.total && FilesSound(repo, s) ==> FilesSound(repo, t)
  {
    if TreesSound(repo, s, commit) {
      forall oid | oid in t.trees ensures TreeSound(repo, t, oid) {
        assert TreeSound(repo, s, oid);
      }
      forall raw | raw in t.order ensures OrderSound(repo, t, raw) {
        assert OrderSound(repo, s, raw);
      }
    }
    if s.files == t.files && s.total == t.total && FilesSound(repo, s) {
      forall f | f in t.files ensures FileSound(repo, t, f) {
        assert FileSound(repo, s, f);
      }
    }
  }

  lemma TreeTaken(repo: Repo, oid: string, raw: Bytes, s: Cap, t: Cap, commit: Bytes)
    requires TreesSound(repo, s, commit) && oid !in s.trees && |s.trees| < MAX_TREES
    requires repo.object_("tree", oid) == Some(raw) && repo.gitHash("tree", raw) == oid && |raw| <= MAX_TREE
    requires TreeEntries(raw).Some? && s.proof + |raw| <= MAX_PROOF
    requires t.trees == s.trees[oid := raw] && t.order == s.order + [raw] && t.proof == s.proof + |raw|
    requires t.kept == s.kept + {raw}
    ensures TreesSound(repo, t, commit)
  {
    TreeListed(repo, oid, raw, s, t);
    DistinctGrows(repo, s, raw);
    assert t.order[..|s.order|] == s.order;
  }

  lemma TreeListed(repo: Repo, oid: string, raw: Bytes, s: Cap, t: Cap)
    requires TreesListed(repo, s) && oid !in s.trees
    requires repo.object_("tree", oid) == Some(raw) && repo.gitHash("tree", raw) == oid && |raw| <= MAX_TREE
    requires TreeEntries(raw).Some?
    requires t.trees == s.trees[oid := raw] && t.order == s.order + [raw] && t.kept == s.kept + {raw}
    ensures TreesListed(repo, t)
  {
    assert raw in t.order && raw in t.kept;
    forall id | id in t.trees ensures TreeSound(repo, t, id) {
      assert id != oid ==> TreeSound(repo, s, id);
    }
    forall b | b in t.order ensures OrderSound(repo, t, b) {
      assert b in s.order || b == raw;
      assert b in s.order ==> OrderSound(repo, s, b);
    }
  }

  lemma DistinctGrows(repo: Repo, s: Cap, raw: Bytes)
    requires TreesListed(repo, s) && DistinctIds(repo, s.order) && repo.gitHash("tree", raw) !in s.trees
    ensures DistinctIds(repo, s.order + [raw])
  {
    forall i | 0 <= i < |s.order| ensures repo.gitHash("tree", s.order[i]) != repo.gitHash("tree", raw) {
      assert s.order[i] in s.order && OrderSound(repo, s, s.order[i]);
    }
  }

  lemma TreeSoundStep(repo: Repo, oid: string, s: Cap, commit: Bytes)
    requires Sound(repo, s, commit) && WithTree(repo, oid, s).Some?
    ensures Sound(repo, WithTree(repo, oid, s).value, commit)
    ensures WithTree(repo, oid, s).value.files == s.files && WithTree(repo, oid, s).value.dirs == s.dirs
  {
    if oid !in s.trees {
      var t := WithTree(repo, oid, s).value;
      var raw := ObjectBytes(repo, "tree", oid, MAX_TREE).value;
      TreeTaken(repo, oid, raw, s, t, commit);
      RetainedSound(repo, s, t, raw);
      FilesKept(repo, s, t);
    }
  }

  lemma FilesKept(repo: Repo, s: Cap, t: Cap)
    requires FilesSound(repo, s) && t.files == s.files && t.total == s.total && s.kept <= t.kept
    ensures FilesSound(repo, t)
  {
    forall f | f in t.files ensures FileSound(repo, t, f) {
      assert FileSound(repo, s, f);
    }
  }

  lemma FileSoundStep(repo: Repo, path: string, e: Entry, s: Cap, commit: Bytes)
    requires Sound(repo, s, commit) && SafeRecipePath(path) && WithFile(repo, path, e, s).Some?
    ensures Sound(repo, WithFile(repo, path, e, s).value, commit)
  {
    var t := WithFile(repo, path, e, s).value;
    var file := File(path, e, ObjectBytes(repo, "blob", e.sha, MAX_RECIPE_TREE - s.total).value);
    MoreKept(repo, s, t, commit);
    RetainedSound(repo, s, t, file.data);
    FileTaken(repo, s, t, file);
  }

  lemma FileTaken(repo: Repo, s: Cap, t: Cap, file: File)
    requires FilesSound(repo, s) && |s.files| < MAX_FILES && s.total + |file.data| <= MAX_RECIPE_TREE
    requires t.files == s.files + [file] && t.total == s.total + |file.data| && t.kept == s.kept + {file.data}
    requires SafeRecipePath(file.path) && IsFileMode(file.entry.mode)
    requires repo.gitHash("blob", file.data) == file.entry.sha
    ensures FilesSound(repo, t)
  {
    forall f | f in t.files ensures FileSound(repo, t, f) {
      assert f in s.files || f == file;
      assert f in s.files ==> FileSound(repo, s, f);
    }
    assert t.files[..|s.files|] == s.files;
  }

  lemma {:induction false} WalkSound(repo: Repo, oid: string, prefix: string, s: Cap,
                                     commit: Bytes)
    requires Sound(repo, s, commit) && WalkTree(repo, oid, prefix, s).Some?
    ensures Sound(repo, WalkTree(repo, oid, prefix, s).value, commit)
    decreases Room(prefix), 1, 0
  {
    var t := WithTree(repo, oid, s).value;
    var s1 := t.(dirs := t.dirs + [prefix]);
    TreeSoundStep(repo, oid, s, commit);
    MoreKept(repo, t, s1, commit);
    FilesSoundStep(repo, EntriesAt(repo, oid), prefix, s1, commit);
  }

  lemma {:induction false} FilesSoundStep(repo: Repo, entries: seq<Entry>,
                                          prefix: string, s: Cap, commit: Bytes)
    requires Sound(repo, s, commit)
    requires WalkFiles(repo, entries, prefix, s).Some?
    ensures Sound(repo, WalkFiles(repo, entries, prefix, s).value, commit)
    decreases Room(prefix), 0, |entries|
  {
    if entries != [] {
      var e, path := entries[0], prefix + entries[0].name;
      assert e in entries;
      if e.mode == DIRECTORY {
        WalkSound(repo, e.sha, path + "/", s, commit);
        FilesSoundStep(repo, entries[1..], prefix, WalkTree(repo, e.sha, path + "/", s).value,
                       commit);
      } else {
        FileSoundStep(repo, path, e, s, commit);
        FilesSoundStep(repo, entries[1..], prefix, WithFile(repo, path, e, s).value, commit);
      }
    }
  }

  lemma {:induction false} DescendSound(repo: Repo, oid: string, parts: seq<string>, s: Cap, commit: Bytes)
    requires Sound(repo, s, commit) && Descended(repo, oid, parts, s).Some?
    ensures var t := Descended(repo, oid, parts, s).value.1;
            Sound(repo, t, commit) && t.files == s.files && t.dirs == s.dirs
    decreases |parts|
  {
    if parts != [] {
      var t := WithTree(repo, oid, s).value;
      TreeSoundStep(repo, oid, s, commit);
      DescendSound(repo, Candidates(EntriesAt(repo, oid), parts[0])[0].sha, parts[1..], t, commit);
    }
  }
}
