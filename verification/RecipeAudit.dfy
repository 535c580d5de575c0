/** `checkRecipeTree` of services/pipeline/integrity.ts: a recipe directory at a commit is compared with
    the files it should hold. Strings are UTF-8 byte strings. */
module RecipeAudit {
  import opened Hexadecimal
  import opened Values
  import opened Text
  import opened GitHubTrees
  import opened GitHub
  import opened RecipePublication

  // ----- tree listings -----

  datatype Kind = BlobKind | TreeKind | CommitKind

  /** An entry of a listing; only blobs have a size. */
  datatype Listed = Listed(path: string, mode: string, kind: Kind, sha: string, size: Option<int>)

  function EntryFor(h: Hashes, t: Tree, p: Path): Listed
    requires p in t
  {
    match t[p]
    case File(mode, data) => Listed(Join(p, '/'), mode, BlobKind, h.blob(data), Some(|data|))
    case Directory(mode) => Listed(Join(p, '/'), mode, TreeKind, h.tree(Below(t, p)), None)
    case Gitlink(mode) => Listed(Join(p, '/'), mode, CommitKind, "", None)
  }

  predicate InListing(p: Path, recursive: bool) {
    recursive || |p| == 1
  }

  /** Every object once, in any order. */
  ghost predicate Lists(h: Hashes, t: Tree, recursive: bool, entries: seq<Listed>) {
    && (forall p :: p in t && InListing(p, recursive) ==> EntryFor(h, t, p) in entries)
    && (forall i :: 0 <= i < |entries| ==> IsEntry(h, t, recursive, entries[i]))
    && (forall i, j :: 0 <= i < j < |entries| ==> entries[i].path != entries[j].path)
  }

  predicate IsEntry(h: Hashes, t: Tree, recursive: bool, e: Listed) {
    var p := Split(e.path, '/');
    p in t && InListing(p, recursive) && e == EntryFor(h, t, p)
  }

  lemma RootedPath(t: Tree, p: Path)
    requires WellFormed(t) && p in t
    ensures Split(Join(p, '/'), '/') == p
  {
    assert Rooted(t, p);
    assert forall i :: 0 <= i < |p| ==> '/' !in p[i];
    SplitJoin(p, '/');
  }

  method ListTree(hub: Hub, sha: string, recursive: bool) returns (entries: Option<seq<Listed>>, ghost t: Tree)
    requires hub.Sound()
    modifies hub`calls
    ensures hub.Sound()
    ensures entries.Some? ==> hub.Named(sha, t) && Lists(hub.h, t, recursive, entries.value)
    ensures Obliging(hub.outcome, hub.h) && IsStored(hub.h, hub.trees, sha) ==> entries.Some?
  {
    t := map[];
    if !IsSha1(sha) {
      return None, t;
    }
    var found := hub.GetTree(sha);
    if found.None? {
      return None, t;
    }
    t := found.value;
    var listing := ListAll(hub.h, found.value, recursive);
    entries := Some(listing);
  }

  /** All but these paths have been listed. */
  ghost predicate ListsBut(h: Hashes, t: Tree, recursive: bool, entries: seq<Listed>, pending: set<Path>) {
    && (forall p :: p in pending ==> p in t && InListing(p, recursive))
    && (forall p :: p in t && InListing(p, recursive) && p !in pending ==> EntryFor(h, t, p) in entries)
    && (forall i :: 0 <= i < |entries| ==>
          IsEntry(h, t, recursive, entries[i]) && Split(entries[i].path, '/') !in pending)
    && (forall i, j :: 0 <= i < j < |entries| ==> entries[i].path != entries[j].path)
  }

  lemma ListOneMore(h: Hashes, t: Tree, recursive: bool, entries: seq<Listed>, pending: set<Path>, p: Path)
    requires WellFormed(t) && ListsBut(h, t, recursive, entries, pending) && p in pending
    ensures ListsBut(h, t, recursive, entries + [EntryFor(h, t, p)], pending - {p})
  {
    RootedPath(t, p);
  }

  method ListAll(h: Hashes, t: Tree, recursive: bool) returns (entries: seq<Listed>)
    requires WellFormed(t)
    ensures Lists(h, t, recursive, entries)
  {
    entries := [];
    var pending := set p | p in t && InListing(p, recursive);
    while pending != {}
      invariant ListsBut(h, t, recursive, entries, pending)
    {
      var p :| p in pending;
      ListOneMore(h, t, recursive, entries, pending, p);
      pending := pending - {p};
      entries := entries + [EntryFor(h, t, p)];
    }
  }

  // ----- what the directory should hold -----

  function Slice(s: string, n: nat): string {
    if n <= |s| then s[n..] else ""
  }

  /** The expected files by their paths below the root. */
  function Wanted(expected: seq<RecipeFile>, root: string): map<string, RecipeFile> {
    if expected == [] then map[]
    else
      var last := expected[|expected| - 1];
      Wanted(expected[..|expected| - 1], root)[Slice(last.path, |root| + 1) := last]
  }

  /** The directories on the way to the wanted files. */
  predicate IsWantedDirectory(wanted: map<string, RecipeFile>, path: string) {
    IsAboveSome(wanted.Keys, path)
  }

  predicate IsAboveSome(paths: set<string>, path: string) {
    exists w :: w in paths && Split(path, '/') < Split(w, '/')
  }

  /** Every part of the root is a directory. */
  predicate RootPresent(t: Tree, root: Path) {
    root == [] || (RootPresent(t, root[..|root| - 1]) && Held(t, root) == Some(Directory(DIRECTORY_MODE)))
  }

  lemma {:induction false} RootPrefixPresent(t: Tree, root: Path, i: nat)
    requires RootPresent(t, root) && i <= |root|
    ensures RootPresent(t, root[..i])
    decreases |root|
  {
    if i == |root| {
      assert root[..i] == root;
    } else {
      RootPrefixPresent(t, root[..|root| - 1], i);
      assert root[..|root| - 1][..i] == root[..i];
    }
  }

  datatype Reason = MissingDirectory | UnexpectedDirectory | Missing | Differs | HashDiffers | UnexpectedFile

  datatype Mismatch = Mismatch(path: string, reason: Reason)

  /** Where, and how, a directory differs from what is wanted. */
  predicate Deviates(dir: Tree, wanted: map<string, RecipeFile>, path: string, reason: Reason) {
    var o := Held(dir, Split(path, '/'));
    match reason
    case MissingDirectory => false
    case UnexpectedDirectory =>
      o.Some? && o.value.Directory? && (!IsWantedDirectory(wanted, path) || o.value.mode != DIRECTORY_MODE)
    case Missing => path in wanted && (o.None? || o.value.Directory?)
    case Differs =>
      path in wanted && o.Some? && !o.value.Directory? &&
      (!o.value.File? || o.value.mode != ModeOf(wanted[path]) || |o.value.data| != |wanted[path].bytes|)
    case HashDiffers =>
      path in wanted && o.Some? && o.value.File? && o.value.mode == ModeOf(wanted[path]) &&
      |o.value.data| == |wanted[path].bytes| && o.value.data != wanted[path].bytes
    case UnexpectedFile => path !in wanted && o.Some? && !o.value.Directory?
  }

  /** The directory holds the wanted files, with their modes and bytes, and no other file or directory. */
  ghost predicate Matches(dir: Tree, wanted: map<string, RecipeFile>) {
    && (forall path :: path in wanted ==>
          Held(dir, Split(path, '/')) == Some(File(ModeOf(wanted[path]), wanted[path].bytes)))
    && (forall p :: p in dir ==> if dir[p].Directory? then dir[p].mode == DIRECTORY_MODE
                          && IsWantedDirectory(wanted, Join(p, '/'))
                                 else Join(p, '/') in wanted)
  }

  /** No deviation is the same as a match. */
  lemma NoDeviationIsMatch(dir: Tree, wanted: map<string, RecipeFile>)
    requires WellFormed(dir)
    ensures Matches(dir, wanted) <==> forall path, reason :: !Deviates(dir, wanted, path, reason)
  {
    if Matches(dir, wanted) {
      forall path, reason ensures !Deviates(dir, wanted, path, reason) {
        assert Join(Split(path, '/'), '/') == path;
      }
    }
    if forall path, reason :: !Deviates(dir, wanted, path, reason) {
      forall path | path in wanted
        ensures Held(dir, Split(path, '/')) == Some(File(ModeOf(wanted[path]), wanted[path].bytes))
      {
        assert !Deviates(dir, wanted, path, Missing) && !Deviates(dir, wanted, path, Differs)
              && !Deviates(dir, wanted, path, HashDiffers);
      }
      forall p | p in dir
        ensures if dir[p].Directory? then dir[p].mode == DIRECTORY_MODE && IsWantedDirectory(wanted, Join(p, '/'))
                else Join(p, '/') in wanted
      {
        RootedPath(dir, p);
        assert !Deviates(dir, wanted, Join(p, '/'), UnexpectedDirectory)
              && !Deviates(dir, wanted, Join(p, '/'), UnexpectedFile);
      }
    }
  }

  // ----- down to the directory -----

  lemma BelowRoot(t: Tree)
    requires WellFormed(t)
    ensures Below(t, []) == t
  {
    forall p ensures Held(Below(t, []), p) == Held(t, p) {
      BelowHeld(t, [], p);
      assert [] + p == p;
      NoRoot(t);
    }
    SameTree(Below(t, []), t);
  }

  /** The listed subdirectories of that name. */
  function Named(entries: seq<Listed>, part: string): seq<Listed> {
    if entries == [] then []
    else
      var last := entries[|entries| - 1];
      Named(entries[..|entries| - 1], part) +
        if last.path == part && last.kind == TreeKind && last.mode == DIRECTORY_MODE then [last] else []
  }

  lemma {:induction false} NamedMembers(entries: seq<Listed>, part: string, e: Listed)
    ensures e in Named(entries, part) <==>
              e in entries && e.path == part && e.kind == TreeKind && e.mode == DIRECTORY_MODE
  {
    if entries != [] {
      NamedMembers(entries[..|entries| - 1], part, e);
      assert entries == entries[..|entries| - 1] + [entries[|entries| - 1]];
    }
  }

  lemma {:induction false} NamedOnce(entries: seq<Listed>, part: string)
    requires forall i, j :: 0 <= i < j < |entries| ==> entries[i].path != entries[j].path
    ensures |Named(entries, part)| <= 1
  {
    if entries != [] {
      var before, last := entries[..|entries| - 1], entries[|entries| - 1];
      NamedOnce(before, part);
      if Named(before, part) != [] {
        var e := Named(before, part)[0];
        NamedMembers(before, part, e);
        var i :| 0 <= i < |before| && before[i] == e;
        assert entries[i].path != entries[|before|].path;
      }
    }
  }

  /** One level down: a single candidate exactly when there is such a directory. */
  lemma OneLevel(h: Hashes, t: Tree, entries: seq<Listed>, part: string)
    requires WellFormed(t) && Lists(h, t, false, entries) && '/' !in part
    ensures |Named(entries, part)| == 1 <==> Held(t, [part]) == Some(Directory(DIRECTORY_MODE))
    ensures |Named(entries, part)| == 1 ==> Named(entries, part)[0].sha == h.tree(Below(t, [part]))
  {
    NamedOnce(entries, part);
    SplitJoin([part], '/');
    assert Join([part], '/') == part;
    if Held(t, [part]) == Some(Directory(DIRECTORY_MODE)) {
      NamedMembers(entries, part, EntryFor(h, t, [part]));
    }
    if |Named(entries, part)| == 1 {
      var e := Named(entries, part)[0];
      NamedMembers(entries, part, e);
      var i :| 0 <= i < |entries| && entries[i] == e;
      assert IsEntry(h, t, false, entries[i]);
    }
  }

  /** One part of the root. */
  method StepDown(hub: Hub, sha: string, ghost t: Tree, part: string) returns (ok: bool, next: Option<string>)
    requires hub.Sound() && hub.Named(sha, t) && '/' !in part
    modifies hub`calls
    ensures hub.Sound()
    ensures ok ==> (next.Some? <==> Held(t, [part]) == Some(Directory(DIRECTORY_MODE)))
    ensures ok && next.Some? ==> hub.Named(next.value, Below(t, [part]))
    ensures Obliging(hub.outcome, hub.h) ==> ok
  {
    var listing, here := ListTree(hub, sha, false);
    if listing.None? {
      return false, None;
    }
    assert here == t;
    OneLevel(hub.h, here, listing.value, part);
    var entries := Named(listing.value, part);
    DirectoryIsPart(t, [part]);
    return true, if |entries| == 1 then Some(entries[0].sha) else None;
  }

  /** `sha` names the directory below `done`. */
  predicate Stands(h: Hashes, trees: set<Tree>, sha: string, t: Tree, done: Path) {
    RootPresent(t, done) && Below(t, done) in trees && h.tree(Below(t, done)) == sha
  }

  lemma StandsNext(h: Hashes, trees: set<Tree>, sha: string, t: Tree, parts: Path, i: nat, next: Option<string>)
    requires i < |parts| && Stands(h, trees, sha, t, parts[..i])
    requires var here := Below(t, parts[..i]);
             && (next.Some? <==> Held(here, [parts[i]]) == Some(Directory(DIRECTORY_MODE)))
             && (next.Some? ==> Below(here, [parts[i]]) in trees && h.tree(Below(here, [parts[i]])) == next.value)
    ensures next.Some? ==> Stands(h, trees, next.value, t, parts[..i + 1])
    ensures next.None? ==> !RootPresent(t, parts)
  {
    LevelHeld(t, parts, i);
  }

  method StepFrom(hub: Hub, sha: string, ghost t: Tree, parts: Path, i: nat) returns (ok: bool, next: Option<string>)
    requires hub.Sound() && i < |parts| && '/' !in parts[i] && Stands(hub.h, hub.trees, sha, t, parts[..i])
    modifies hub`calls
    ensures hub.Sound()
    ensures ok && next.Some? ==> Stands(hub.h, hub.trees, next.value, t, parts[..i + 1])
    ensures ok && next.None? ==> !RootPresent(t, parts)
    ensures Obliging(hub.outcome, hub.h) ==> ok
  {
    ok, next := StepDown(hub, sha, Below(t, parts[..i]), parts[i]);
    if ok {
      StandsNext(hub.h, hub.trees, sha, t, parts, i, next);
    }
  }

  lemma StandsAtRoot(h: Hashes, trees: set<Tree>, t: Tree, parts: Path)
    requires t in trees && WellFormed(t)
    ensures Stands(h, trees, h.tree(t), t, parts[..0]) && parts[..|parts|] == parts
  {
    BelowRoot(t);
    assert parts[..0] == [];
  }

  /** The directory with that name, where each part leads to exactly one. */
  method FindRoot(hub: Hub, ghost t: Tree, sha: string, parts: Path) returns (ok: bool, found: Option<string>)
    requires hub.Sound() && hub.Named(sha, t) && forall i :: 0 <= i < |parts| ==> '/' !in parts[i]
    modifies hub`calls
    ensures hub.Sound()
    ensures ok && found.Some? ==> Stands(hub.h, hub.trees, found.value, t, parts)
    ensures ok && found.None? ==> !RootPresent(t, parts)
    ensures Obliging(hub.outcome, hub.h) ==> ok
  {
    ok, found := true, Some(sha);
    StandsAtRoot(hub.h, hub.trees, t, parts);
    for i := 0 to |parts|
      invariant hub.Sound() && found.Some? && Stands(hub.h, hub.trees, found.value, t, parts[..i])
    {
      ok, found := StepFrom(hub, found.value, t, parts, i);
      if !ok || found.None? {
        return;
      }
    }
    ok := true;
  }

  lemma LevelHeld(t: Tree, parts: Path, i: nat)
    requires i < |parts| && RootPresent(t, parts[..i])
    ensures Held(Below(t, parts[..i]), [parts[i]]) == Held(t, parts[..i + 1])
    ensures Below(Below(t, parts[..i]), [parts[i]]) == Below(t, parts[..i + 1])
    ensures RootPresent(t, parts[..i + 1]) <==> Held(t, parts[..i + 1]) == Some(Directory(DIRECTORY_MODE))
    ensures RootPresent(t, parts) ==> RootPresent(t, parts[..i + 1])
  {
    assert parts[..i] + [parts[i]] == parts[..i + 1];
    BelowHeld(t, parts[..i], [parts[i]]);
    BelowBelow(t, parts[..i], [parts[i]]);
    assert parts[..i + 1][..i] == parts[..i];
    if RootPresent(t, parts) {
      RootPrefixPresent(t, parts, i + 1);
    }
  }

  lemma DirectoryIsPart(t: Tree, p: Path)
    ensures p in DirectoriesOf(t) && p != [] ==> Below(t, p) in Parts(t)
  {
    assert p != [] ==> PartAt(t, p) == Below(t, p);
  }

  // ----- the comparison -----

  predicate HeldFile(dir: Tree, path: string) {
    var o := Held(dir, Split(path, '/'));
    o.Some? && !o.value.Directory?
  }

  predicate ActualAt(h: Hashes, dir: Tree, actual: map<string, Listed>, path: string) {
    && (path in actual <==> HeldFile(dir, path))
    && (path in actual ==> actual[path] == EntryFor(h, dir, Split(path, '/')))
  }

  /** The listed files by their paths. */
  function ActualOf(subtree: seq<Listed>): map<string, Listed> {
    if subtree == [] then map[]
    else
      var before, last := ActualOf(subtree[..|subtree| - 1]), subtree[|subtree| - 1];
      if last.kind == TreeKind then before else before[last.path := last]
  }

  lemma {:induction false} ActualMember(subtree: seq<Listed>, path: string) returns (e: Listed)
    requires path in ActualOf(subtree)
    ensures e in subtree && e.path == path && e.kind != TreeKind && ActualOf(subtree)[path] == e
  {
    var last := subtree[|subtree| - 1];
    if last.kind != TreeKind && last.path == path {
      e := last;
    } else {
      e := ActualMember(subtree[..|subtree| - 1], path);
    }
  }

  lemma {:induction false} ActualHolds(subtree: seq<Listed>, e: Listed)
    requires e in subtree && e.kind != TreeKind
    ensures e.path in ActualOf(subtree)
  {
    var before, last := subtree[..|subtree| - 1], subtree[|subtree| - 1];
    assert subtree == before + [last];
    if e != last {
      ActualHolds(before, e);
    }
  }

  lemma ActualIsHeld(h: Hashes, dir: Tree, subtree: seq<Listed>, path: string)
    requires WellFormed(dir) && Lists(h, dir, true, subtree)
    ensures ActualAt(h, dir, ActualOf(subtree), path)
  {
    if path in ActualOf(subtree) {
      var e := ActualMember(subtree, path);
      var i :| 0 <= i < |subtree| && subtree[i] == e;
      assert IsEntry(h, dir, true, subtree[i]);
    }
    if HeldFile(dir, path) {
      var e := EntryFor(h, dir, Split(path, '/'));
      assert InListing(Split(path, '/'), true) && e.path == path;
      ActualHolds(subtree, e);
    }
  }

  /** The paths of everything but directories. */
  function FilePaths(dir: Tree): set<string> {
    set p | p in dir && !dir[p].Directory? :: Join(p, '/')
  }

  lemma ActualPaths(h: Hashes, dir: Tree, actual: map<string, Listed>)
    requires WellFormed(dir) && forall path :: ActualAt(h, dir, actual, path)
    ensures actual.Keys == FilePaths(dir)
  {
    forall path ensures path in actual <==> path in FilePaths(dir) {
      assert ActualAt(h, dir, actual, path) && Join(Split(path, '/'), '/') == path;
      if path in FilePaths(dir) {
        var p :| p in dir && !dir[p].Directory? && Join(p, '/') == path;
        RootedPath(dir, p);
      }
    }
  }

  /** `directories`: the ancestors of every wanted path. */
  method WantedDirectories(wanted: map<string, RecipeFile>) returns (directories: set<string>)
    ensures forall path :: path in directories <==> IsWantedDirectory(wanted, path)
  {
    directories := {};
    var pending := wanted.Keys;
    while pending != {}
      invariant pending <= wanted.Keys
      invariant forall path :: path in directories <==> IsAboveSome(wanted.Keys - pending, path)
    {
      var w :| w in pending;
      var above := Ancestors(w);
      AboveOneMore(wanted.Keys - pending, w);
      assert wanted.Keys - pending + {w} == wanted.Keys - (pending - {w});
      directories := directories + above;
      pending := pending - {w};
    }
    assert wanted.Keys - pending == wanted.Keys;
  }

  lemma AboveOneMore(paths: set<string>, w: string)
    ensures forall path :: IsAboveSome(paths + {w}, path) <==>
              IsAboveSome(paths, path) || Split(path, '/') < Split(w, '/')
  {
    forall path ensures IsAboveSome(paths + {w}, path) <==>
          IsAboveSome(paths, path) || Split(path, '/') < Split(w, '/') {
      if v :| v in paths && Split(path, '/') < Split(v, '/') {
        assert v in paths + {w};
      }
      assert w in paths + {w};
    }
  }

  method Ancestors(w: string) returns (above: set<string>)
    ensures forall path :: path in above <==> Split(path, '/') < Split(w, '/')
  {
    above := {};
    var parts := Split(w, '/');
    for k := |parts| downto 1
      invariant forall path :: path in above <==> exists j :: k <= j < |parts| && Split(path, '/') == parts[..j]
    {
      SplitJoin(parts[..k], '/');
      assert forall path :: Split(path, '/') == parts[..k] ==> path == Join(parts[..k], '/');
      above := above + {Join(parts[..k], '/')};
    }
    forall path ensures path in above <==> Split(path, '/') < parts {
      assert Split(path, '/') < parts ==> Split(path, '/') == parts[..|Split(path, '/')|];
    }
  }

  // ----- the three passes -----

  /** What a pass over the listing reports. */
  ghost predicate Reports(dir: Tree, wanted: map<string, RecipeFile>, found: seq<Mismatch>, reasons: set<Reason>) {
    && (forall m :: m in found ==> m.reason in reasons && Deviates(dir, wanted, m.path, m.reason))
    && (forall path, reason :: reason in reasons && Deviates(dir, wanted, path, reason) ==>
          Mismatch(path, reason) in found)
  }

  /** What has been reported for the first entries of the listing. */
  ghost predicate DirectoriesUpTo(dir: Tree, wanted: map<string, RecipeFile>, subtree: seq<Listed>,
                                  found: seq<Mismatch>, n: int)
    requires 0 <= n <= |subtree|
  {
    && (forall m :: m in found ==> m.reason == UnexpectedDirectory && Deviates(dir, wanted, m.path, m.reason))
    && (forall j :: 0 <= j < n && Deviates(dir, wanted, subtree[j].path, UnexpectedDirectory) ==>
          Mismatch(subtree[j].path, UnexpectedDirectory) in found)
  }

  lemma OneMoreDirectory(dir: Tree, wanted: map<string, RecipeFile>, subtree: seq<Listed>, found: seq<Mismatch>,
                         n: nat, found': seq<Mismatch>)
    requires n < |subtree| && DirectoriesUpTo(dir, wanted, subtree, found, n)
    requires var m := Mismatch(subtree[n].path, UnexpectedDirectory);
             found' == if Deviates(dir, wanted, subtree[n].path, UnexpectedDirectory) then found + [m] else found
    ensures DirectoriesUpTo(dir, wanted, subtree, found', n + 1)
  {
  }

  method CheckDirectories(h: Hashes, ghost dir: Tree, subtree: seq<Listed>, wanted: map<string, RecipeFile>)
    returns (found: seq<Mismatch>)
    requires WellFormed(dir) && Lists(h, dir, true, subtree)
    ensures Reports(dir, wanted, found, {UnexpectedDirectory})
  {
    var directories := WantedDirectories(wanted);
    found := [];
    for i := 0 to |subtree|
      invariant DirectoriesUpTo(dir, wanted, subtree, found, i)
    {
      var entry := subtree[i];
      ghost var before := found;
      assert IsEntry(h, dir, true, entry);
      if entry.kind == TreeKind && (entry.path !in directories || entry.mode != DIRECTORY_MODE) {
        found := found + [Mismatch(entry.path, UnexpectedDirectory)];
      }
      OneMoreDirectory(dir, wanted, subtree, before, i, found);
    }
    forall path | Deviates(dir, wanted, path, UnexpectedDirectory)
      ensures Mismatch(path, UnexpectedDirectory) in found
    {
      ListedAt(h, dir, subtree, path);
    }
  }

  lemma ListedAt(h: Hashes, dir: Tree, subtree: seq<Listed>, path: string)
    requires Lists(h, dir, true, subtree) && Split(path, '/') in dir
    ensures exists j :: 0 <= j < |subtree| && subtree[j].path == path
  {
    var e := EntryFor(h, dir, Split(path, '/'));
    assert InListing(Split(path, '/'), true) && e in subtree && e.path == path;
  }

  /** One wanted file against its listed entry and, last, its bytes. */
  method CheckFile(hub: Hub, sha256: Bytes -> string, ghost dir: Tree, actual: map<string, Listed>,
                   wanted: map<string, RecipeFile>, path: string)
    returns (ok: bool, reason: Option<Reason>)
    requires hub.Sound() && BytesIn(dir, hub.blobs) && path in wanted && ActualAt(hub.h, dir, actual, path)
    requires forall data :: data in hub.blobs && sha256(data) == sha256(wanted[path].bytes) ==>
              data == wanted[path].bytes
    modifies hub`calls
    ensures hub.Sound()
    ensures ok ==> forall r :: r in {Missing, Differs, HashDiffers} ==>
              (Deviates(dir, wanted, path, r) <==> reason == Some(r))
    ensures ok && reason.Some? ==> reason.value in {Missing, Differs, HashDiffers}
    ensures Obliging(hub.outcome, hub.h) ==> ok
  {
    var file := wanted[path];
    if path !in actual {
      return true, Some(Missing);
    }
    var entry := actual[path];
    if entry.kind != BlobKind || entry.mode != ModeOf(file) || entry.size != Some(|file.bytes|) {
      return true, Some(Differs);
    }
    if !IsSha1(entry.sha) {
      return false, None;
    }
    var blob := hub.GetBlob(entry.sha);
    if blob.None? {
      return false, None;
    }
    assert blob.value == dir[Split(path, '/')].data;
    if |blob.value| != |file.bytes| || sha256(blob.value) != sha256(file.bytes) {
      return true, Some(HashDiffers);
    }
    return true, None;
  }

  method CheckWanted(hub: Hub, sha256: Bytes -> string, ghost dir: Tree, actual: map<string, Listed>,
                     wanted: map<string, RecipeFile>)
    returns (ok: bool, found: seq<Mismatch>)
    requires hub.Sound() && BytesIn(dir, hub.blobs) && forall path :: ActualAt(hub.h, dir, actual, path)
    requires forall path, data ::
               path in wanted && data in hub.blobs && sha256(data) == sha256(wanted[path].bytes) ==>
                 data == wanted[path].bytes
    modifies hub`calls
    ensures hub.Sound() && (ok ==> Reports(dir, wanted, found, {Missing, Differs, HashDiffers}))
    ensures Obliging(hub.outcome, hub.h) ==> ok
  {
    found := [];
    var pending := wanted.Keys;
    while pending != {}
      invariant hub.Sound() && pending <= wanted.Keys
      invariant ReportsOn(dir, wanted, found, wanted.Keys - pending)
    {
      var path :| path in pending;
      assert ActualAt(hub.h, dir, actual, path);
      var fine, reason := CheckFile(hub, sha256, dir, actual, wanted, path);
      if !fine {
        return false, [];
      }
      ReportOne(dir, wanted, found, wanted.Keys - pending, path, reason);
      if reason.Some? {
        found := found + [Mismatch(path, reason.value)];
      }
      assert wanted.Keys - pending + {path} == wanted.Keys - (pending - {path});
      pending := pending - {path};
    }
    assert wanted.Keys - pending == wanted.Keys;
    ok := true;
  }

  const FILE_REASONS: set<Reason> := {Missing, Differs, HashDiffers}

  /** The same for the wanted paths that have been looked at. */
  ghost predicate ReportsOn(dir: Tree, wanted: map<string, RecipeFile>, found: seq<Mismatch>, done: set<string>) {
    && (forall m :: m in found ==> m.reason in FILE_REASONS && Deviates(dir, wanted, m.path, m.reason))
    && (forall path, reason :: path in done && reason in FILE_REASONS && Deviates(dir, wanted, path, reason) ==>
          Mismatch(path, reason) in found)
  }

  lemma ReportOne(dir: Tree, wanted: map<string, RecipeFile>, found: seq<Mismatch>, done: set<string>, path: string,
                  reason: Option<Reason>)
    requires ReportsOn(dir, wanted, found, done)
    requires forall r :: r in FILE_REASONS ==> (Deviates(dir, wanted, path, r) <==> reason == Some(r))
    requires reason.Some? ==> reason.value in FILE_REASONS
    ensures ReportsOn(dir, wanted,
                      if reason.Some? then found + [Mismatch(path, reason.value)] else found, done + {path})
  {
  }

  method CheckExtra(h: Hashes, ghost dir: Tree, actual: map<string, Listed>, wanted: map<string, RecipeFile>)
    returns (found: seq<Mismatch>)
    requires forall path :: ActualAt(h, dir, actual, path)
    ensures Reports(dir, wanted, found, {UnexpectedFile})
  {
    found := [];
    var pending := actual.Keys;
    while pending != {}
      invariant pending <= actual.Keys
      invariant forall m :: m in found ==> m.reason == UnexpectedFile && Deviates(dir, wanted, m.path, m.reason)
      invariant forall path :: path in actual && path !in pending && path !in wanted ==>
                Mismatch(path, UnexpectedFile) in found
    {
      var path :| path in pending;
      assert ActualAt(h, dir, actual, path);
      if path !in wanted {
        found := found + [Mismatch(path, UnexpectedFile)];
      }
      pending := pending - {path};
    }
    forall path | Deviates(dir, wanted, path, UnexpectedFile) ensures Mismatch(path, UnexpectedFile) in found {
      assert ActualAt(h, dir, actual, path);
    }
  }

  const REASONS: set<Reason> := {UnexpectedDirectory, Missing, Differs, HashDiffers, UnexpectedFile}

  lemma ReportsTogether(dir: Tree, wanted: map<string, RecipeFile>, a: seq<Mismatch>, b: seq<Mismatch>,
                        c: seq<Mismatch>)
    requires Reports(dir, wanted, a, {UnexpectedDirectory}) && Reports(dir, wanted, b, FILE_REASONS)
    requires Reports(dir, wanted, c, {UnexpectedFile})
    ensures Reports(dir, wanted, a + b + c, REASONS)
  {
    forall path, reason | reason in REASONS
          && Deviates(dir, wanted, path, reason) ensures Mismatch(path, reason) in a + b + c {
      if reason == UnexpectedDirectory {
        assert Mismatch(path, reason) in a;
      } else if reason == UnexpectedFile {
        assert Mismatch(path, reason) in c;
      } else {
        assert Mismatch(path, reason) in b;
      }
    }
  }

  /** The paths as they are reported, below the root. */
  function Reported(found: seq<Mismatch>, root: string): (all: seq<Mismatch>)
    ensures |all| == |found| && forall i :: 0 <= i < |found| ==>
              all[i] == Mismatch(root + "/" + found[i].path, found[i].reason)
  {
    seq(|found|, i requires 0 <= i < |found| => Mismatch(root + "/" + found[i].path, found[i].reason))
  }

  lemma ReportedMember(found: seq<Mismatch>, root: string, path: string, reason: Reason)
    ensures Mismatch(root + "/" + path, reason) in Reported(found, root) <==> Mismatch(path, reason) in found
  {
    if Mismatch(root + "/" + path, reason) in Reported(found, root) {
      var i :| 0 <= i < |found| && Reported(found, root)[i] == Mismatch(root + "/" + path, reason);
      assert (root + "/" + found[i].path)[|root| + 1..] == (root + "/" + path)[|root| + 1..];
      assert found[i].path == (root + "/" + found[i].path)[|root| + 1..];
      assert path == (root + "/" + path)[|root| + 1..];
    }
    if Mismatch(path, reason) in found {
      var i :| 0 <= i < |found| && found[i] == Mismatch(path, reason);
      assert Reported(found, root)[i] == Mismatch(root + "/" + path, reason);
    }
  }

  /** Reporting every deviation, the report is empty exactly on a match. */
  lemma EmptyReport(dir: Tree, wanted: map<string, RecipeFile>, found: seq<Mismatch>)
    requires WellFormed(dir) && Reports(dir, wanted, found, REASONS)
    ensures found == [] <==> Matches(dir, wanted)
  {
    NoDeviationIsMatch(dir, wanted);
    if found != [] {
      assert Deviates(dir, wanted, found[0].path, found[0].reason);
    } else {
      forall path, reason ensures !Deviates(dir, wanted, path, reason) {
      }
    }
  }

  /** A report that names exactly the deviations, and is empty exactly on a match. */
  ghost predicate Audited(dir: Tree, wanted: map<string, RecipeFile>, root: string, reported: seq<Mismatch>) {
    && (forall path, reason :: Mismatch(root + "/" + path, reason) in reported <==> Deviates(dir, wanted, path, reason))
    && (reported == [] <==> Matches(dir, wanted))
  }

  lemma ReportedIsAudited(dir: Tree, wanted: map<string, RecipeFile>, root: string, found: seq<Mismatch>)
    requires WellFormed(dir) && Reports(dir, wanted, found, REASONS)
    ensures Audited(dir, wanted, root, Reported(found, root))
  {
    EmptyReport(dir, wanted, found);
    forall path, reason ensures Mismatch(root + "/" + path, reason) in Reported(found, root) <==>
          Deviates(dir, wanted, path, reason) {
      ReportedMember(found, root, path, reason);
      assert Deviates(dir, wanted, path, reason) ==> reason in REASONS;
      if Mismatch(path, reason) in found {
        assert Deviates(dir, wanted, path, reason);
      }
    }
  }

  /** The directory, if present, is within the file budget. */
  predicate Readable(t: Tree, root: string) {
    RootPresent(t, Split(root, '/')) ==> |FilePaths(Below(t, Split(root, '/')))| <= MAX_COMMITTED
  }

  /** The audit reports exactly where the directory deviates, so nothing exactly where it matches. */
  method CheckRecipeTree(hub: Hub, sha256: Bytes -> string, root: string, commit: string, expected: seq<RecipeFile>)
    returns (r: Option<seq<Mismatch>>, ghost t: Tree)
    requires hub.Sound()
    requires forall data, f :: data in hub.blobs && f in expected && sha256(data) == sha256(f.bytes) ==> data == f.bytes
    modifies hub`calls
    ensures hub.Sound()
    ensures r.Some? ==> hub.HasTree(commit, t)
    ensures r.Some? && !RootPresent(t, Split(root, '/')) ==> r.value == [Mismatch(root, MissingDirectory)]
    ensures r.Some? && RootPresent(t, Split(root, '/')) ==>
              Audited(Below(t, Split(root, '/')), Wanted(expected, root), root, r.value)
    ensures Obliging(hub.outcome, hub.h) && IsSha1(commit) && hub.HasCommit(commit) ==>
              hub.HasTree(commit, t) && (r.Some? <==> Readable(t, root))
  {
    r, t := None, map[];
    if !IsSha1(commit) {
      return;
    }
    var head;
    head, t := ReadHead(hub, commit);
    if head.None? {
      return;
    }
    var ok, sha := FindRoot(hub, t, head.value, Split(root, '/'));
    if ok && sha.None? {
      r := Some([Mismatch(root, MissingDirectory)]);
    }
    if ok && sha.Some? {
      r := CheckDirectory(hub, sha256, Below(t, Split(root, '/')), sha.value, root, expected);
    }
  }

  method ReadHead(hub: Hub, commit: string) returns (tree: Option<string>, ghost t: Tree)
    requires hub.Sound()
    modifies hub`calls
    ensures hub.Sound()
    ensures tree.Some? ==> hub.Named(tree.value, t) && hub.HasTree(commit, t)
    ensures Obliging(hub.outcome, hub.h) && hub.HasCommit(commit) ==> tree.Some?
  {
    tree, t := None, map[];
    var head := hub.GetCommit(commit);
    if head.Some? {
      assert IsStored(hub.h, hub.trees, head.value.tree);
      t :| t in hub.trees && hub.h.tree(t) == head.value.tree;
      assert hub.HasTree(commit, t);
      tree := Some(head.value.tree);
    }
  }

  method CheckDirectory(hub: Hub, sha256: Bytes -> string, ghost dir: Tree, sha: string, root: string,
                        expected: seq<RecipeFile>)
    returns (r: Option<seq<Mismatch>>)
    requires hub.Sound() && hub.Named(sha, dir)
    requires forall data, f :: data in hub.blobs && f in expected && sha256(data) == sha256(f.bytes) ==> data == f.bytes
    modifies hub`calls
    ensures hub.Sound()
    ensures r.Some? ==> Audited(dir, Wanted(expected, root), root, r.value)
    ensures Obliging(hub.outcome, hub.h) ==> (r.Some? <==> |FilePaths(dir)| <= MAX_COMMITTED)
  {
    var listing, here := ListTree(hub, sha, true);
    if listing.None? {
      return None;
    }
    assert here == dir;
    var subtree, wanted := listing.value, Wanted(expected, root);
    var actual := ActualOf(subtree);
    forall path ensures ActualAt(hub.h, dir, actual, path) {
      ActualIsHeld(hub.h, dir, subtree, path);
    }
    ActualPaths(hub.h, dir, actual);
    if |actual| > MAX_COMMITTED {
      return None;
    }
    WantedFiles(expected, root);
    var directories := CheckDirectories(hub.h, dir, subtree, wanted);
    var fine, files := CheckWanted(hub, sha256, dir, actual, wanted);
    if !fine {
      return None;
    }
    var extra := CheckExtra(hub.h, dir, actual, wanted);
    ReportsTogether(dir, wanted, directories, files, extra);
    ReportedIsAudited(dir, wanted, root, directories + files + extra);
    return Some(Reported(directories + files + extra, root));
  }

  lemma {:induction false} WantedFiles(expected: seq<RecipeFile>, root: string)
    ensures forall path :: path in Wanted(expected, root) ==>
              Wanted(expected, root)[path] in expected && path == Slice(Wanted(expected, root)[path].path, |root| + 1)
    ensures forall f :: f in expected ==> Slice(f.path, |root| + 1) in Wanted(expected, root)
  {
    if expected != [] {
      WantedFiles(expected[..|expected| - 1], root);
      assert expected == expected[..|expected| - 1] + [expected[|expected| - 1]];
    }
  }

  // ----- what has just been published passes -----

  function FilesUnder(files: seq<RecipeFile>, root: string): seq<RecipeFile> {
    if files == [] then []
    else
      var before, last := FilesUnder(files[..|files| - 1], root), files[|files| - 1];
      if IsUnder(last, root) then before + [last] else before
  }

  lemma {:induction false} FilesUnderMember(files: seq<RecipeFile>, root: string, f: RecipeFile)
    ensures f in FilesUnder(files, root) <==> f in files && IsUnder(f, root)
  {
    if files != [] {
      FilesUnderMember(files[..|files| - 1], root, f);
      assert files == files[..|files| - 1] + [files[|files| - 1]];
    }
  }

  lemma PublishedBelow(base: Tree, t: Tree, files: seq<RecipeFile>, roots: seq<string>, root: string)
    requires Published(base, t, files, roots) && root in roots && HasFiles(files, root)
    ensures Below(t, Split(root, '/')) == DirectoryOf(files, root)
    ensures Built(DirectoryOf(files, root), ItemsUnder(files, root))
    ensures WellFormed(DirectoryOf(files, root))
  {
    var dir, r := DirectoryOf(files, root), Split(root, '/');
    BuiltFromIsBuilt(ItemsUnder(files, root));
    BuiltWellFormed(dir, ItemsUnder(files, root));
    NoRoot(dir);
    forall q ensures Held(Below(t, r), q) == Held(dir, q) {
      BelowHeld(t, r, q);
      assert PublishedAt(base, t, files, roots, r + q);
      assert (r + q)[|r|..] == q;
    }
    SameTree(Below(t, r), dir);
  }

  lemma PublishedAbove(base: Tree, t: Tree, files: seq<RecipeFile>, roots: seq<string>, root: string, p: Path)
    requires Published(base, t, files, roots) && root in roots && HasFiles(files, root)
    requires p != [] && p <= Split(root, '/')
    ensures Held(t, p) == Some(Directory(DIRECTORY_MODE))
  {
    assert PublishedAt(base, t, files, roots, p);
  }

  lemma {:induction false} PublishedRoot(base: Tree, t: Tree, files: seq<RecipeFile>, roots: seq<string>,
                                         root: string, p: Path)
    requires Published(base, t, files, roots) && root in roots && HasFiles(files, root) && p <= Split(root, '/')
    ensures RootPresent(t, p)
    decreases |p|
  {
    if p != [] {
      PublishedRoot(base, t, files, roots, root, p[..|p| - 1]);
      PublishedAbove(base, t, files, roots, root, p);
    }
  }

  lemma WantedItem(files: seq<RecipeFile>, root: string, path: string)
    requires path in Wanted(FilesUnder(files, root), root)
    ensures var f := Wanted(FilesUnder(files, root), root)[path];
            Item(path, ModeOf(f), f.bytes) in ItemsUnder(files, root)
  {
    var f := Wanted(FilesUnder(files, root), root)[path];
    WantedFiles(FilesUnder(files, root), root);
    FilesUnderMember(files, root, f);
    ItemsFrom(files, root);
  }

  lemma ItemWanted(files: seq<RecipeFile>, root: string, item: Item)
    requires item in ItemsUnder(files, root)
    ensures item.path in Wanted(FilesUnder(files, root), root)
  {
    ItemsFrom(files, root);
    var f :| f in files && IsUnder(f, root) && item == Item(f.path[|root| + 1..], ModeOf(f), f.bytes);
    FilesUnderMember(files, root, f);
    WantedFiles(FilesUnder(files, root), root);
  }

  lemma BuiltMatches(files: seq<RecipeFile>, root: string, dir: Tree)
    requires Built(dir, ItemsUnder(files, root)) && WellFormed(dir)
    ensures Matches(dir, Wanted(FilesUnder(files, root), root))
  {
    var wanted, items := Wanted(FilesUnder(files, root), root), ItemsUnder(files, root);
    forall path | path in wanted ensures Held(dir,
                                              Split(path, '/')) == Some(File(ModeOf(wanted[path]),
                                                  wanted[path].bytes)) {
      WantedItem(files, root, path);
      assert BuiltAt(dir, items, Split(path, '/'));
      assert FileAt(items, Split(path, '/'), Item(path, ModeOf(wanted[path]), wanted[path].bytes));
    }
    forall p | p in dir
      ensures if dir[p].Directory? then dir[p].mode == DIRECTORY_MODE && IsWantedDirectory(wanted, Join(p, '/'))
              else Join(p, '/') in wanted
    {
      RootedPath(dir, p);
      assert BuiltAt(dir, items, p);
      if AboveSome(items, p) {
        var item :| item in items && p != [] && p < ItemPath(item);
        ItemWanted(files, root, item);
      } else {
        var item :| FileAt(items, p, item);
        ItemWanted(files, root, item);
      }
    }
  }

  /** Every directory that a publication has just written passes the audit. */
  lemma PublishedPasses(base: Tree, t: Tree, files: seq<RecipeFile>, roots: seq<string>, root: string,
                        reported: seq<Mismatch>)
    requires Published(base, t, files, roots) && root in roots && HasFiles(files, root)
    requires RootPresent(t, Split(root, '/')) ==>
               Audited(Below(t, Split(root, '/')), Wanted(FilesUnder(files, root), root), root, reported)
    ensures RootPresent(t, Split(root, '/')) && reported == []
  {
    PublishedBelow(base, t, files, roots, root);
    PublishedRoot(base, t, files, roots, root, Split(root, '/'));
    BuiltMatches(files, root, DirectoryOf(files, root));
  }
}
