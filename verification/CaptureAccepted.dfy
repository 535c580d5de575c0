/** What services/pipeline/capture-recipe.py retains, worker/recipe_capture.go accepts. */
module CaptureAccepted {
  import opened Values
  import opened Text
  import opened GitTree
  import opened RecipeLoader
  import opened RecipeProof
  import opened CaptureRecipe

  // ----- the two walks in step -----

  /** The verifier's trees are the repository's. */
  ghost predicate TreesMatch(repo: Repo, trees: Trees) {
    forall oid :: oid in trees ==> trees[oid] == EntriesAt(repo, oid)
  }

  function ExpectedOf(files: seq<File>): map<string, Entry> {
    if files == [] then map[]
    else ExpectedOf(files[..|files| - 1])[files[|files| - 1].path := files[|files| - 1].entry]
  }

  predicate InStep(s: Cap, g: State) {
    && g.directories == |s.dirs| && g.used == s.trees.Keys
    && g.expected == ExpectedOf(s.files) && |g.expected| == |s.files|
  }

  /** The verifier's limits on the shape of the directory. */
  predicate ShapeOk(s: Cap) {
    |s.dirs| <= MAX_DIRECTORIES && forall p :: p in s.dirs ==> Slashes(p) <= MAX_DEPTH
  }

  /** The path is the entry's, or below it. */
  predicate Claims(prefix: string, name: string, path: string) {
    path == prefix + name || HasPrefix(path, prefix + name + "/")
  }

  lemma ClaimedOnce(prefix: string, a: string, b: string, path: string)
    requires '/' !in a && '/' !in b && Claims(prefix, a, path) && Claims(prefix, b, path)
    ensures a == b
  {
    ClaimHead(prefix, a, path);
    ClaimHead(prefix, b, path);
  }

  lemma ClaimHead(prefix: string, name: string, path: string)
    requires '/' !in name && Claims(prefix, name, path)
    ensures HasPrefix(path, prefix) && Split(path[|prefix|..], '/')[0] == name
  {
    var start := prefix + name + "/";
    if path == prefix + name {
      SplitSlashFree(name);
      assert path[|prefix|..] == name;
    } else {
      assert path == start + path[|start|..];
      assert path[|prefix|..] == name + "/" + path[|start|..];
      SplitBelow(name, path[|start|..]);
    }
  }

  ghost predicate Unclaimed(expected: map<string, Entry>, prefix: string, entries: seq<Entry>) {
    forall path, e :: path in expected && e in entries ==> !Claims(prefix, e.name, path)
  }

  predicate NoneBelow(expected: map<string, Entry>, prefix: string) {
    forall path :: path in expected ==> !HasPrefix(path, prefix)
  }

  /** The paths added are all claimed by the entries. */
  ghost predicate OnlyClaimed(before: map<string, Entry>, after: map<string, Entry>, prefix: string,
                              entries: seq<Entry>) {
    forall path :: path in after && path !in before ==> exists e :: e in entries && Claims(prefix, e.name, path)
  }

  predicate OnlyBelow(before: map<string, Entry>, after: map<string, Entry>, prefix: string) {
    forall path :: path in after && path !in before ==> HasPrefix(path, prefix)
  }

  lemma UnclaimedTail(before: map<string, Entry>, mid: map<string, Entry>, prefix: string, entries: seq<Entry>)
    requires WellNamed(entries) && entries != [] && Unclaimed(before, prefix, entries)
    requires forall path :: path in mid && path !in before ==> Claims(prefix, entries[0].name, path)
    ensures Unclaimed(mid, prefix, entries[1..])
  {
    forall path, e | path in mid && e in entries[1..] ensures !Claims(prefix, e.name, path) {
      var i :| 0 <= i < |entries[1..]| && entries[1..][i] == e;
      assert entries[i + 1] == e && entries[0].name != e.name;
      if path !in before && Claims(prefix, e.name, path) {
        ClaimedOnce(prefix, entries[0].name, e.name, path);
      }
    }
  }

  lemma ClaimedByAll(before: map<string, Entry>, mid: map<string, Entry>, after: map<string, Entry>, prefix: string,
                     entries: seq<Entry>)
    requires entries != []
    requires forall path :: path in mid && path !in before ==> Claims(prefix, entries[0].name, path)
    requires OnlyClaimed(mid, after, prefix, entries[1..])
    ensures OnlyClaimed(before, after, prefix, entries)
  {
    forall path | path in after && path !in before ensures exists e :: e in entries && Claims(prefix, e.name, path) {
      if path in mid {
        assert entries[0] in entries;
      } else {
        var e :| e in entries[1..] && Claims(prefix, e.name, path);
        assert e in entries;
      }
    }
  }

  ghost predicate Setting(repo: Repo, trees: Trees) {
    WellParsed(trees) && TreesMatch(repo, trees)
  }

  /** The capture ran through, within the verifier's trees and limits. */
  ghost predicate Fits(trees: Trees, t: Option<Cap>) {
    t.Some? && t.value.trees.Keys <= trees.Keys && ShapeOk(t.value)
  }

  ghost predicate WalkStepped(repo: Repo, trees: Trees, oid: string, prefix: string, s: Cap,
                              g: State)
  {
    var t, r := WalkTree(repo, oid, prefix, s), Walk(trees, oid, prefix, g);
    t.Some? && r.Some? && InStep(t.value, r.value) && OnlyBelow(g.expected, r.value.expected, prefix)
  }

  ghost predicate FilesStepped(repo: Repo, trees: Trees, entries: seq<Entry>,
                               prefix: string, s: Cap, g: State)
    requires g.directories <= MAX_DIRECTORIES
  {
    var t, r := WalkFiles(repo, entries, prefix, s), WalkEntries(trees, entries, prefix, g);
    t.Some? && r.Some? && InStep(t.value, r.value) && OnlyClaimed(g.expected, r.value.expected, prefix, entries)
  }

  lemma NothingClaimed(expected: map<string, Entry>, prefix: string, entries: seq<Entry>)
    requires NoneBelow(expected, prefix) && forall e :: e in entries ==> '/' !in e.name
    ensures Unclaimed(expected, prefix, entries)
  {
    forall path, e | path in expected && e in entries ensures !Claims(prefix, e.name, path) {
      if Claims(prefix, e.name, path) {
        ClaimHead(prefix, e.name, path);
      }
    }
  }

  lemma ClaimedIsBelow(before: map<string, Entry>, after: map<string, Entry>, prefix: string, entries: seq<Entry>)
    requires OnlyClaimed(before, after, prefix, entries) && forall e :: e in entries ==> '/' !in e.name
    ensures OnlyBelow(before, after, prefix)
  {
    forall path | path in after && path !in before ensures HasPrefix(path, prefix) {
      var e :| e in entries && Claims(prefix, e.name, path);
      ClaimHead(prefix, e.name, path);
    }
  }

  function Entered(repo: Repo, oid: string, prefix: string, s: Cap): Cap
    requires WithTree(repo, oid, s).Some?
  {
    var t := WithTree(repo, oid, s).value;
    t.(dirs := t.dirs + [prefix])
  }

  lemma EnteredInStep(repo: Repo, oid: string, prefix: string, s: Cap, g: State, last: Cap)
    requires WithTree(repo, oid, s).Some? && InStep(s, g)
    requires Grows(Entered(repo, oid, prefix, s), last) && ShapeOk(last)
    ensures InStep(Entered(repo, oid, prefix, s), State(g.directories + 1, g.expected, g.used + {oid}))
    ensures g.directories + 1 <= MAX_DIRECTORIES && Slashes(prefix) <= MAX_DEPTH && oid in last.trees
  {
    var s1 := Entered(repo, oid, prefix, s);
    assert prefix in s1.dirs && prefix in last.dirs;
  }

  lemma WalkUnfolds(repo: Repo, oid: string, prefix: string, s: Cap)
    requires WithTree(repo, oid, s).Some?
    ensures WalkTree(repo, oid, prefix, s)
         == WalkFiles(repo, EntriesAt(repo, oid), prefix, Entered(repo, oid, prefix, s))
  {
  }

  lemma WalkNeedsTree(repo: Repo, oid: string, prefix: string, s: Cap)
    requires WalkTree(repo, oid, prefix, s).Some?
    ensures WithTree(repo, oid, s).Some?
  {
  }

  lemma ProofUnfolds(trees: Trees, oid: string, prefix: string, g: State)
    requires oid in trees && g.directories + 1 <= MAX_DIRECTORIES && Slashes(prefix) <= MAX_DEPTH
    ensures Walk(trees, oid, prefix, g)
         == WalkEntries(trees, trees[oid], prefix, State(g.directories + 1, g.expected, g.used + {oid}))
  {
  }

  lemma {:induction false} WalksInStep(repo: Repo, trees: Trees, oid: string, prefix: string,
                                       s: Cap, g: State)
    requires Setting(repo, trees) && Fits(trees, WalkTree(repo, oid, prefix, s))
    requires InStep(s, g) && NoneBelow(g.expected, prefix)
    ensures WalkStepped(repo, trees, oid, prefix, s, g)
    decreases Room(prefix), 1, 0
  {
    WalkNeedsTree(repo, oid, prefix, s);
    WalkUnfolds(repo, oid, prefix, s);
    var s1, g1 := Entered(repo, oid, prefix, s), State(g.directories + 1, g.expected, g.used + {oid});
    EnteredInStep(repo, oid, prefix, s, g, WalkTree(repo, oid, prefix, s).value);
    NothingClaimed(g.expected, prefix, trees[oid]);
    FilesInStep(repo, trees, trees[oid], prefix, s1, g1);
    FilesToWalk(repo, trees, oid, prefix, s, g);
  }

  lemma FilesToWalk(repo: Repo, trees: Trees, oid: string, prefix: string, s: Cap, g: State)
    requires WellParsed(trees) && oid in trees && trees[oid] == EntriesAt(repo, oid) && WithTree(repo, oid, s).Some?
    requires g.directories + 1 <= MAX_DIRECTORIES && Slashes(prefix) <= MAX_DEPTH
    requires FilesStepped(repo, trees, trees[oid], prefix, Entered(repo, oid, prefix, s),
                          State(g.directories + 1, g.expected, g.used + {oid}))
    ensures WalkStepped(repo, trees, oid, prefix, s, g)
  {
    var g1 := State(g.directories + 1, g.expected, g.used + {oid});
    WalkUnfolds(repo, oid, prefix, s);
    ProofUnfolds(trees, oid, prefix, g);
    ClaimedIsBelow(g.expected, WalkEntries(trees, trees[oid], prefix, g1).value.expected, prefix, trees[oid]);
  }

  lemma FilesAfterDirectory(repo: Repo, trees: Trees, entries: seq<Entry>,
                            prefix: string, s: Cap, g: State)
    requires g.directories <= MAX_DIRECTORIES
    requires entries != [] && entries[0].mode == DIRECTORY && SafeRecipePath(prefix + entries[0].name)
    requires WalkStepped(repo, trees, entries[0].sha, prefix + entries[0].name + "/", s, g)
    requires var path := prefix + entries[0].name + "/";
             FilesStepped(repo, trees, entries[1..], prefix,
                          WalkTree(repo, entries[0].sha, path, s).value,
                              Walk(trees, entries[0].sha, path, g).value)
    ensures FilesStepped(repo, trees, entries, prefix, s, g)
  {
    var path := prefix + entries[0].name + "/";
    var g1 := Walk(trees, entries[0].sha, path, g).value;
    ClaimedByAll(g.expected, g1.expected, WalkEntries(trees, entries[1..], prefix, g1).value.expected, prefix, entries);
  }

  lemma FileInStep(repo: Repo, prefix: string, entries: seq<Entry>, s: Cap, g: State)
    requires entries != [] && WellNamed(entries) && InStep(s, g) && Unclaimed(g.expected, prefix, entries)
    requires WithFile(repo, prefix + entries[0].name, entries[0], s).Some?
    ensures var path, e := prefix + entries[0].name, entries[0];
            var g1 := g.(expected := g.expected[path := e]);
            && InStep(WithFile(repo, path, e, s).value, g1) && |g.expected| < MAX_FILES
            && Unclaimed(g1.expected, prefix, entries[1..])
  {
    var path, e := prefix + entries[0].name, entries[0];
    OwnPathFree(g.expected, prefix, entries);
    ExpectedGrows(s.files, File(path, e, ObjectBytes(repo, "blob", e.sha, MAX_RECIPE_TREE - s.total).value));
    UnclaimedTail(g.expected, g.expected[path := e], prefix, entries);
  }

  lemma OwnPathFree(expected: map<string, Entry>, prefix: string, entries: seq<Entry>)
    requires entries != [] && Unclaimed(expected, prefix, entries)
    ensures prefix + entries[0].name !in expected && Claims(prefix, entries[0].name, prefix + entries[0].name)
  {
    assert entries[0] in entries;
  }

  lemma ExpectedGrows(files: seq<File>, file: File)
    ensures ExpectedOf(files + [file]) == ExpectedOf(files)[file.path := file.entry]
  {
    assert (files + [file])[..|files|] == files;
  }

  lemma FilesAfterFile(repo: Repo, trees: Trees, entries: seq<Entry>, prefix: string,
                       s: Cap, g: State)
    requires g.directories <= MAX_DIRECTORIES
    requires entries != [] && entries[0].mode != DIRECTORY && SafeRecipePath(prefix + entries[0].name)
    requires WithFile(repo, prefix + entries[0].name, entries[0], s).Some? && |g.expected| < MAX_FILES
    requires FilesStepped(repo, trees, entries[1..], prefix,
                          WithFile(repo, prefix + entries[0].name, entries[0], s).value,
                          g.(expected := g.expected[prefix + entries[0].name := entries[0]]))
    ensures FilesStepped(repo, trees, entries, prefix, s, g)
  {
    var g1 := g.(expected := g.expected[prefix + entries[0].name := entries[0]]);
    ClaimedByAll(g.expected, g1.expected, WalkEntries(trees, entries[1..], prefix, g1).value.expected, prefix, entries);
  }

  /** What the capture of the first entry and of the rest needs. */
  lemma FilesUnfold(repo: Repo, trees: Trees, entries: seq<Entry>, prefix: string,
                    s: Cap)
    requires entries != []
    requires Fits(trees, WalkFiles(repo, entries, prefix, s))
    ensures SafeRecipePath(prefix + entries[0].name)
    ensures entries[0].mode == DIRECTORY ==>
              var below := WalkTree(repo, entries[0].sha, prefix + entries[0].name + "/", s);
              && Fits(trees, below)
              && Fits(trees, WalkFiles(repo, entries[1..], prefix, below.value))
    ensures entries[0].mode != DIRECTORY ==>
              var more := WithFile(repo, prefix + entries[0].name, entries[0], s);
              more.Some? && Fits(trees, WalkFiles(repo, entries[1..], prefix, more.value))
  {
    assert entries[0] in entries;
    var last := WalkFiles(repo, entries, prefix, s).value;
    if entries[0].mode == DIRECTORY {
      var below := WalkTree(repo, entries[0].sha, prefix + entries[0].name + "/", s).value;
      assert Grows(below, last);
      assert forall p :: p in below.dirs ==> p in last.dirs;
    }
  }

  lemma {:induction false} FilesInStep(repo: Repo, trees: Trees, entries: seq<Entry>,
                                       prefix: string, s: Cap, g: State)
    requires Setting(repo, trees) && WellNamed(entries)
    requires Fits(trees, WalkFiles(repo, entries, prefix, s))
    requires InStep(s, g) && Unclaimed(g.expected, prefix, entries) && g.directories <= MAX_DIRECTORIES
    ensures FilesStepped(repo, trees, entries, prefix, s, g)
    decreases Room(prefix), 0, |entries|
  {
    if entries == [] {
      return;
    }
    var e, path := entries[0], prefix + entries[0].name;
    TailWellNamed(entries);
    FilesUnfold(repo, trees, entries, prefix, s);
    if e.mode == DIRECTORY {
      UnclaimedBelow(g.expected, prefix, entries);
      WalksInStep(repo, trees, e.sha, path + "/", s, g);
      var g1 := Walk(trees, e.sha, path + "/", g).value;
      UnclaimedTail(g.expected, g1.expected, prefix, entries);
      FilesInStep(repo, trees, entries[1..], prefix, WalkTree(repo, e.sha, path + "/", s).value, g1);
      FilesAfterDirectory(repo, trees, entries, prefix, s, g);
    } else {
      FileInStep(repo, prefix, entries, s, g);
      FilesInStep(repo, trees, entries[1..], prefix, WithFile(repo, path, e, s).value,
                  g.(expected := g.expected[path := e]));
      FilesAfterFile(repo, trees, entries, prefix, s, g);
    }
  }

  lemma UnclaimedBelow(expected: map<string, Entry>, prefix: string, entries: seq<Entry>)
    requires Unclaimed(expected, prefix, entries) && entries != []
    ensures NoneBelow(expected, prefix + entries[0].name + "/")
  {
    assert entries[0] in entries;
    forall path | path in expected ensures !HasPrefix(path, prefix + entries[0].name + "/") {
      assert !Claims(prefix, entries[0].name, path);
    }
  }
}
