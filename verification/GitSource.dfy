/** `validateGitSourceEntries` of services/pipeline/git-source.ts: the entries of a Git tree, checked
    before anything of them is checked out. */
module GitSource {
  import opened Text
  import opened Resolution
  import opened ArchiveSafety
  import opened Values
  import opened Sums

  const MAX_ENTRIES := 20000
  const MAX_EXPANDED_BYTES := 0x1_0000_0000
  const MAX_SAFE_INTEGER := 0x1F_FFFF_FFFF_FFFF

  datatype TreeEntry = TreeEntry(path: string, kind: string, size: int, target: Option<string>,
                                 objectId: Option<string>, mode: Option<string>, typ: Option<string>)

  predicate IsObjectId(s: string) {
    (|s| == 40 || |s| == 64) && forall c :: c in s ==> '0' <= c <= '9' || 'a' <= c <= 'f'
  }

  predicate IsGitMetadataPath(path: string) {
    path == ".gitmodules" || HasSuffix(path, "/.gitmodules") || ".git" in Split(path, '/')
  }

  function Target(entry: TreeEntry): string {
    if entry.target.Some? then entry.target.value else ""
  }

  /** The per-entry conditions. */
  predicate EntryOk(entry: TreeEntry, maxExpanded: int) {
    && (entry.kind == "file" || entry.kind == "symlink")
    && 0 <= entry.size <= maxExpanded && entry.size <= MAX_SAFE_INTEGER
    && entry.typ != Some("commit") && entry.mode != Some("160000")
    && (entry.typ.Some? ==> entry.typ == Some("blob"))
    && (entry.objectId.Some? ==> IsObjectId(entry.objectId.value))
    && var path := ValidateArchivePath(entry.path, DEFAULT_PATH_BYTES);
       && path.Ok? && !IsGitMetadataPath(path.value)
       && if entry.kind == "symlink" then
            && !UnsafeTarget(Target(entry), DEFAULT_PATH_BYTES)
            && Finish(LexicalWalk(Directories(path.value), Split(Target(entry), '/')), DEFAULT_PATH_BYTES).Ok?
          else Target(entry) == ""
  }

  /** The entry as it is passed on: normalised path, target only for links. */
  function Checked(entry: TreeEntry): TreeEntry {
    var path := ValidateArchivePath(entry.path, DEFAULT_PATH_BYTES);
    entry.(path := if path.Ok? then path.value else "",
           target := if entry.kind == "symlink" then entry.target else None)
  }

  function CheckedAll(raw: seq<TreeEntry>): seq<TreeEntry> {
    seq(|raw|, i requires 0 <= i < |raw| => Checked(raw[i]))
  }

  function ByPath(entries: seq<TreeEntry>): map<string, Entry> {
    if entries == [] then map[]
    else
      var last := entries[|entries| - 1];
      ByPath(entries[..|entries| - 1])[last.path := Entry(last.path, last.kind, Target(last))]
  }

  function Size(entry: TreeEntry): int {
    entry.size
  }

  predicate IsLink(entry: Entry) {
    entry.kind == "symlink"
  }

  predicate NoDirectories(entry: Entry) {
    false
  }

  function Canonical(byPath: map<string, Entry>, entry: TreeEntry): Result<string> {
    Finish(CanonicalWalk(byPath, NoDirectories, IsLink, Directories(entry.path), Split(Target(entry), '/'), {}),
           DEFAULT_PATH_BYTES)
  }

  ghost predicate DistinctPaths(entries: seq<TreeEntry>) {
    forall i, j :: 0 <= i < j < |entries| ==> entries[i].path != entries[j].path
  }

  /** What a list of entries must be. */
  ghost predicate Acceptable(raw: seq<TreeEntry>, maxEntries: int, maxExpanded: int) {
    var entries := CheckedAll(raw);
    && 0 < maxEntries <= MAX_ENTRIES && 0 < maxExpanded <= MAX_EXPANDED_BYTES
    && 0 < |raw| <= maxEntries
    && (forall i :: 0 <= i < |raw| ==> EntryOk(raw[i], maxExpanded))
    && DistinctPaths(entries) && Sum(Size, entries) <= maxExpanded
    && (forall e :: e in entries ==> ParentsFree(ByPath(entries).Keys, e.path))
    && (forall e :: e in entries ==> LinkResolves(ByPath(entries), e))
  }

  // ----- the loops -----

  method CheckParents(byPath: map<string, Entry>, path: string) returns (ok: bool)
    ensures ok == ParentsFree(byPath.Keys, path)
  {
    var parts := Split(path, '/');
    var k := |parts| - 1;
    while k > 0
      invariant 0 <= k < |parts|
      invariant forall j :: k < j < |parts| ==> Join(parts[..j], '/') !in byPath
    {
      if Join(parts[..k], '/') in byPath {
        return false;
      }
      k := k - 1;
    }
    return true;
  }

  /** `map` with a check that throws. */
  method MapChecked<A, B>(raw: seq<A>, good: A -> bool, check: A -> B) returns (ok: bool, result: seq<B>)
    ensures ok <==> forall i :: 0 <= i < |raw| ==> good(raw[i])
    ensures ok ==> |result| == |raw| && forall i :: 0 <= i < |raw| ==> result[i] == check(raw[i])
  {
    result := [];
    for i := 0 to |raw|
      invariant |result| == i && forall j :: 0 <= j < i ==> result[j] == check(raw[j])
      invariant forall j :: 0 <= j < i ==> good(raw[j])
    {
      if !good(raw[i]) {
        return false, [];
      }
      result := result + [check(raw[i])];
    }
    return true, result;
  }

  method IndexEntries(entries: seq<TreeEntry>) returns (byPath: map<string, Entry>)
    ensures byPath == ByPath(entries)
  {
    byPath := map[];
    for i := 0 to |entries|
      invariant byPath == ByPath(entries[..i])
    {
      assert entries[..i + 1][..i] == entries[..i];
      byPath := byPath[entries[i].path := Entry(entries[i].path, entries[i].kind, Target(entries[i]))];
    }
    assert entries[..|entries|] == entries;
  }

  method CheckSizes(entries: seq<TreeEntry>, byPath: map<string, Entry>, maxExpanded: int) returns (ok: bool)
    requires 0 < maxExpanded && forall e :: e in entries ==> 0 <= e.size
    ensures ok <==> Sum(Size, entries) <= maxExpanded && forall e :: e in entries ==> ParentsFree(byPath.Keys, e.path)
  {
    var expandedSize := 0;
    for i := 0 to |entries|
      invariant expandedSize == Sum(Size, entries[..i]) <= maxExpanded
      invariant forall j :: 0 <= j < i ==> ParentsFree(byPath.Keys, entries[j].path)
    {
      assert entries[..i + 1][..i] == entries[..i];
      if expandedSize > maxExpanded - entries[i].size {
        SumPrefix(Size, entries, i + 1);
        return false;
      }
      expandedSize := expandedSize + entries[i].size;
      var free := CheckParents(byPath, entries[i].path);
      if !free {
        assert entries[i] in entries;
        return false;
      }
    }
    assert entries[..|entries|] == entries;
    return true;
  }

  /** The link resolves, if the entry is one. */
  predicate LinkResolves(byPath: map<string, Entry>, entry: TreeEntry) {
    entry.kind == "symlink" ==> Canonical(byPath, entry).Ok?
  }

  method CheckLink(entry: TreeEntry, byPath: map<string, Entry>) returns (ok: bool)
    requires IsPath(Split(entry.path, '/'))
    ensures ok <==> LinkResolves(byPath, entry)
  {
    if entry.kind != "symlink" {
      return true;
    }
    var parent := Join(Directories(entry.path), '/');
    ParentStack(entry.path);
    var resolved := ResolveCanonicalArchivePath(parent, Target(entry), byPath, NoDirectories, IsLink);
    return resolved.Ok?;
  }

  method CheckLinks(entries: seq<TreeEntry>, byPath: map<string, Entry>) returns (ok: bool)
    requires forall e :: e in entries ==> IsPath(Split(e.path, '/'))
    ensures ok <==> forall e :: e in entries ==> LinkResolves(byPath, e)
  {
    for i := 0 to |entries|
      invariant forall j :: 0 <= j < i ==> LinkResolves(byPath, entries[j])
    {
      assert entries[i] in entries;
      ok := CheckLink(entries[i], byPath);
      if !ok {
        return;
      }
    }
    ok := true;
  }

  lemma ParentStack(path: string)
    requires IsPath(Split(path, '/'))
    ensures StartStack(Join(Directories(path), '/')) == Directories(path)
  {
    var dirs := Directories(path);
    assert forall i :: 0 <= i < |dirs| ==> IsName(Split(path, '/')[i]) && dirs[i] == Split(path, '/')[i];
    if dirs != [] {
      SplitJoin(dirs, '/');
      assert dirs[0] != "";
    }
  }

  lemma {:induction false} ByPathKeys(entries: seq<TreeEntry>)
    ensures forall path :: path in ByPath(entries) <==> exists e :: e in entries && e.path == path
  {
    if entries != [] {
      var before, last := entries[..|entries| - 1], entries[|entries| - 1];
      ByPathKeys(before);
      assert entries == before + [last];
    }
  }

  lemma DistinctExtends(before: seq<TreeEntry>, last: TreeEntry)
    ensures DistinctPaths(before + [last]) <==>
            DistinctPaths(before) && forall e :: e in before ==> e.path != last.path
  {
    var all := before + [last];
    assert all[|before|] == last && forall i :: 0 <= i < |before| ==> all[i] == before[i];
    if DistinctPaths(all) {
      forall e | e in before ensures e.path != last.path {
        var i :| 0 <= i < |before| && before[i] == e;
        assert all[i].path != all[|before|].path;
      }
    } else if DistinctPaths(before) {
      var i, j :| 0 <= i < j < |all| && all[i].path == all[j].path;
      assert all[i] in before;
    }
  }

  /** `byPath.size !== entries.length` detects exactly the duplicates. */
  lemma {:induction false} ByPathSize(entries: seq<TreeEntry>)
    ensures |ByPath(entries)| <= |entries|
    ensures |ByPath(entries)| == |entries| <==> DistinctPaths(entries)
  {
    if entries != [] {
      var before, last := entries[..|entries| - 1], entries[|entries| - 1];
      assert entries == before + [last];
      ByPathSize(before);
      ByPathKeys(before);
      DistinctExtends(before, last);
    }
  }

  ghost predicate ListsAll(byPath: map<string, Entry>, entries: seq<TreeEntry>) {
    forall e :: e in entries ==> e.path in byPath && byPath[e.path] == Entry(e.path, e.kind, Target(e))
  }

  lemma ListsOneMore(byPath: map<string, Entry>, before: seq<TreeEntry>, last: TreeEntry)
    requires ListsAll(byPath, before) && forall e :: e in before ==> e.path != last.path
    ensures ListsAll(byPath[last.path := Entry(last.path, last.kind, Target(last))], before + [last])
  {
  }

  lemma DistinctLast(before: seq<TreeEntry>, last: TreeEntry)
    requires DistinctPaths(before + [last])
    ensures DistinctPaths(before) && forall e :: e in before ==> e.path != last.path
  {
    var all := before + [last];
    forall i | 0 <= i < |before| ensures before[i].path != last.path {
      assert all[i] == before[i] && all[|before|] == last;
    }
    forall i, j | 0 <= i < j < |before| ensures before[i].path != before[j].path {
      assert all[i] == before[i] && all[j] == before[j];
    }
  }

  lemma {:induction false} ByPathValues(entries: seq<TreeEntry>)
    requires DistinctPaths(entries)
    ensures ListsAll(ByPath(entries), entries)
  {
    if entries != [] {
      var before, last := entries[..|entries| - 1], entries[|entries| - 1];
      assert entries == before + [last];
      DistinctLast(before, last);
      ByPathValues(before);
      ListsOneMore(ByPath(before), before, last);
    }
  }

  // ----- the whole check, and what it gives the checkout -----

  /** The tree Git checks out: the entries, and the directories above them. */
  function Checkout(byPath: map<string, Entry>): Tree {
    map q | q in Places(byPath) :: NodeFor(byPath, q)
  }

  function Places(byPath: map<string, Entry>): set<seq<string>> {
    set path, k | path in byPath && 1 <= k <= |Split(path, '/')| :: Split(path, '/')[..k]
  }

  function NodeFor(byPath: map<string, Entry>, q: seq<string>): Node {
    var key := Join(q, '/');
    if key !in byPath then Directory
    else if IsLink(byPath[key]) then Symlink(byPath[key].target)
    else Regular
  }

  lemma CheckoutIsTree(byPath: map<string, Entry>)
    requires forall path :: path in byPath ==> IsPath(Split(path, '/')) && ParentsFree(byPath.Keys, path)
    ensures WellFormed(Checkout(byPath)) && Listed(byPath, IsLink, Checkout(byPath))
    ensures forall path :: path in byPath ==> Split(path, '/') in Checkout(byPath)
  {
    var tree := Checkout(byPath);
    forall q | q in tree ensures Placed(tree, q) {
      var path, k :| path in byPath && 1 <= k <= |Split(path, '/')| && q == Split(path, '/')[..k];
      var parts := Split(path, '/');
      assert q[..|q| - 1] == parts[..k - 1];
      if k > 1 {
        assert parts[..k - 1] in Places(byPath);
        assert Join(parts[..k - 1], '/') !in byPath;
      }
    }
    forall path | path in byPath ensures Split(path, '/') in tree {
      var parts := Split(path, '/');
      assert parts[..|parts|] == parts;
      assert parts in Places(byPath);
    }
    forall p | IsPath(p) ensures ListedAt(byPath, IsLink, tree, p) {
    }
  }

  lemma EntryFacts(raw: TreeEntry, maxExpanded: int)
    requires EntryOk(raw, maxExpanded)
    ensures var e := Checked(raw);
            && IsPath(Split(e.path, '/')) && 0 <= e.size && e.kind == raw.kind
            && (e.kind == "symlink" ==> !HasPrefix(Target(e), "/"))
  {
    ValidPathNames(raw.path, DEFAULT_PATH_BYTES);
  }

  /** For accepted entries, the checkout confines every path resolution. */
  lemma CanonicalWalked(byPath: map<string, Entry>, e: TreeEntry)
    requires Canonical(byPath, e).Ok?
    ensures CanonicalWalk(byPath, NoDirectories, IsLink, Directories(e.path), Split(Target(e), '/'), {}).Ok?
  {
  }

  lemma AcceptedCheckoutContained(entries: seq<TreeEntry>)
    requires forall e :: e in entries ==>
               IsPath(Split(e.path, '/')) && (e.kind == "symlink" ==> !HasPrefix(Target(e), "/"))
    requires DistinctPaths(entries)
    requires forall e :: e in entries ==> ParentsFree(ByPath(entries).Keys, e.path)
    requires forall e :: e in entries && e.kind == "symlink" ==> Canonical(ByPath(entries), e).Ok?
    ensures WellFormed(Checkout(ByPath(entries))) && AllContained(Checkout(ByPath(entries)))
  {
    var byPath := ByPath(entries);
    ByPathKeys(entries);
    ByPathValues(entries);
    CheckoutIsTree(byPath);
    forall key | key in byPath && IsLink(byPath[key])
      ensures !HasPrefix(byPath[key].target, "/")
      ensures CanonicalWalk(byPath, NoDirectories, IsLink, Directories(key), Split(byPath[key].target, '/'), {}).Ok?
    {
      var e :| e in entries && e.path == key;
      CanonicalWalked(byPath, e);
    }
    AcceptedLinksContainAll(Checkout(byPath), byPath, NoDirectories, IsLink);
  }

  method ValidateGitSourceEntries(raw: seq<TreeEntry>, maxEntries: int, maxExpanded: int)
    returns (r: Result<seq<TreeEntry>>)
    ensures r.Ok? <==> Acceptable(raw, maxEntries, maxExpanded)
    ensures r.Ok? ==> r.value == CheckedAll(raw)
    ensures r.Ok? ==> WellFormed(Checkout(ByPath(r.value))) && AllContained(Checkout(ByPath(r.value)))
  {
    if maxEntries <= 0 || maxEntries > MAX_ENTRIES || maxExpanded <= 0 || maxExpanded > MAX_EXPANDED_BYTES {
      return Err;
    }
    if |raw| == 0 || |raw| > maxEntries {
      return Err;
    }
    var ok, entries := MapChecked(raw, e => EntryOk(e, maxExpanded), Checked);
    if !ok {
      return Err;
    }
    assert entries == CheckedAll(raw);
    forall e | e in entries
      ensures IsPath(Split(e.path, '/')) && 0 <= e.size && (e.kind == "symlink" ==> !HasPrefix(Target(e), "/"))
    {
      var i :| 0 <= i < |entries| && entries[i] == e;
      EntryFacts(raw[i], maxExpanded);
    }
    var byPath := IndexEntries(entries);
    ByPathSize(entries);
    if |byPath| != |entries| {
      return Err;
    }
    ok := CheckSizes(entries, byPath, maxExpanded);
    if !ok {
      return Err;
    }
    ok := CheckLinks(entries, byPath);
    if !ok {
      return Err;
    }
    AcceptedCheckoutContained(entries);
    return Ok(entries);
  }
}
