/** `commitRecipeTree` of services/pipeline/github-pr.ts: whole recipe directories are replaced by one
    update of a branch. Strings are UTF-8 byte strings. */
module RecipePublication {
  import opened Hexadecimal
  import opened Values
  import opened Sums
  import opened Text
  import RecipeProof
  import opened GitHubTrees
  import opened GitHub

  datatype RecipeFile = RecipeFile(path: string, bytes: Bytes, mode: Option<string>)

  const MAX_COMMITTED := 4096
  const MAX_COMMITTED_BYTES := 36 * 1024 * 1024

  function ByteLength(f: RecipeFile): int {
    |f.bytes|
  }

  function ModeOf(f: RecipeFile): string {
    if f.mode.Some? then f.mode.value else "100644"
  }

  predicate IsPackage(name: string) {
    && 1 <= |name| <= 64 && ('a' <= name[0] <= 'z' || '0' <= name[0] <= '9')
    && forall c :: c in name ==> 'a' <= c <= 'z' || '0' <= c <= '9' || c in {'@', '.', '_', '+', '-'}
  }

  /** `packages/<package>` or `packages/<collection>/<package>`. */
  predicate RootOk(root: string) {
    var parts := Split(root, '/');
    && 2 <= |parts| <= 3 && parts[0] == "packages" && IsPackage(parts[|parts| - 1])
    && (|parts| == 3 ==> parts[1] in {"core", "extra", "multilib", "omarchy", "omapkg"})
  }

  predicate IsUnder(f: RecipeFile, root: string) {
    HasPrefix(f.path, root + "/")
  }

  predicate FileOk(f: RecipeFile, roots: seq<string>) {
    && RecipeProof.SafeRecipePath(f.path) && UnderSome(f, roots)
    && (f.mode.None? || f.mode.value == "100644" || f.mode.value == "100755" || f.mode.value == "120000")
  }

  predicate RootsOk(roots: seq<string>) {
    && roots != [] && (forall i, j :: 0 <= i < j < |roots| ==> roots[i] != roots[j])
    && (forall a, b :: a in roots && b in roots && a != b ==> !HasPrefix(a, b + "/"))
    && (forall root :: root in roots ==> RootOk(root))
  }

  predicate Publishable(parent: string, files: seq<RecipeFile>, roots: seq<string>) {
    && IsSha1(parent) && files != [] && |files| <= MAX_COMMITTED
    && (forall i, j :: 0 <= i < j < |files| ==> files[i].path != files[j].path)
    && Sum(ByteLength, files) <= MAX_COMMITTED_BYTES
    && RootsOk(roots) && (forall f :: f in files ==> FileOk(f, roots))
  }

  // ----- roots -----

  lemma {:induction false} JoinAppend(p: seq<string>, q: seq<string>)
    requires p != [] && q != []
    ensures Join(p + q, '/') == Join(p, '/') + "/" + Join(q, '/')
  {
    assert (p + q)[1..] == p[1..] + q;
    if |p| == 1 {
      assert p[1..] + q == q;
    } else {
      JoinAppend(p[1..], q);
    }
  }

  lemma SplitAppend(a: string, b: string)
    ensures Split(a + "/" + b, '/') == Split(a, '/') + Split(b, '/')
  {
    JoinAppend(Split(a, '/'), Split(b, '/'));
    SplitJoin(Split(a, '/') + Split(b, '/'), '/');
  }

  /** A path starts with a root and a slash exactly when it lies below the root. */
  lemma UnderIsBelow(path: string, root: string)
    ensures HasPrefix(path, root + "/") <==> Split(root, '/') < Split(path, '/')
    ensures HasPrefix(path, root + "/") ==> Split(path, '/') == Split(root, '/') + Split(path[|root| + 1..], '/')
  {
    if HasPrefix(path, root + "/") {
      assert path == root + "/" + path[|root| + 1..];
      SplitAppend(root, path[|root| + 1..]);
    }
    if Split(root, '/') < Split(path, '/') {
      BelowIsUnder(path, root);
    }
  }

  lemma BelowIsUnder(path: string, root: string)
    requires Split(root, '/') < Split(path, '/')
    ensures HasPrefix(path, root + "/")
  {
    var p, r := Split(path, '/'), Split(root, '/');
    var rest := p[|r|..];
    assert p == r + rest;
    SplitJoin(rest, '/');
    SplitAppend(root, Join(rest, '/'));
    assert path == Join(p, '/') == root + "/" + Join(rest, '/');
  }

  lemma UnderBoth(path: string, a: string, b: string)
    requires HasPrefix(path, a + "/") && HasPrefix(path, b + "/") && |a| <= |b|
    ensures a == b || HasPrefix(b, a + "/")
  {
    assert a + "/" == path[..|a| + 1] && b + "/" == path[..|b| + 1];
    assert a == path[..|a|] && b == path[..|b|];
    assert |a| < |b| ==> b[..|a| + 1] == path[..|a| + 1];
  }

  /** Every file lies below exactly one root. */
  lemma OneRoot(f: RecipeFile, roots: seq<string>, a: string, b: string)
    requires RootsOk(roots) && a in roots && b in roots && IsUnder(f, a) && IsUnder(f, b)
    ensures a == b
  {
    if |a| <= |b| {
      UnderBoth(f.path, a, b);
    } else {
      UnderBoth(f.path, b, a);
    }
  }

  predicate UnderSome(f: RecipeFile, roots: seq<string>) {
    exists root :: root in roots && IsUnder(f, root)
  }

  ghost predicate Covered(files: seq<RecipeFile>, roots: seq<string>) {
    forall f {:trigger UnderSome(f, roots)} :: f in files ==> UnderSome(f, roots)
  }

  lemma CoveredBefore(files: seq<RecipeFile>, roots: seq<string>, i: nat)
    requires Covered(files, roots) && i <= |files|
    ensures Covered(files[..i], roots) && forall f :: f in files[..i] ==> f in files
  {
  }

  predicate HasFiles(files: seq<RecipeFile>, root: string) {
    exists f :: f in files && IsUnder(f, root)
  }

  /** `roots.find`. */
  function RootOf(f: RecipeFile, roots: seq<string>): (root: string)
    requires UnderSome(f, roots)
    ensures root in roots && IsUnder(f, root)
  {
    if IsUnder(f, roots[0]) then roots[0] else RootOf(f, roots[1..])
  }

  /** The files below a root, by their paths there. */
  function ItemsUnder(files: seq<RecipeFile>, root: string): seq<Item> {
    if files == [] then []
    else
      var before, last := ItemsUnder(files[..|files| - 1], root), files[|files| - 1];
      if IsUnder(last, root) then before + [Item(last.path[|root| + 1..], ModeOf(last), last.bytes)] else before
  }

  /** The roots with files, in the order of their first ones. */
  ghost function UsedRoots(files: seq<RecipeFile>, roots: seq<string>): seq<string>
    requires Covered(files, roots)
  {
    if files == [] then []
    else
      var last := files[|files| - 1];
      assert last in files && UnderSome(last, roots);
      CoveredBefore(files, roots, |files| - 1);
      var before := UsedRoots(files[..|files| - 1], roots);
      if RootOf(last, roots) in before then before else before + [RootOf(last, roots)]
  }

  lemma UsedRootsGrow(files: seq<RecipeFile>, roots: seq<string>, i: nat)
    requires Covered(files, roots) && i < |files|
    ensures Covered(files[..i], roots) && Covered(files[..i + 1], roots) && UnderSome(files[i], roots)
    ensures var before, root := UsedRoots(files[..i], roots), RootOf(files[i], roots);
            UsedRoots(files[..i + 1], roots) == if root in before then before else before + [root]
  {
    CoveredBefore(files, roots, i);
    CoveredBefore(files, roots, i + 1);
    assert files[i] in files && files[..i + 1][..i] == files[..i];
  }

  predicate DistinctStrings(s: seq<string>) {
    forall i, j :: 0 <= i < j < |s| ==> s[i] != s[j]
  }

  lemma {:induction false} UsedRootMember(files: seq<RecipeFile>, roots: seq<string>, root: string)
    requires Covered(files, roots) && RootsOk(roots)
    ensures root in UsedRoots(files, roots) <==> root in roots && HasFiles(files, root)
  {
    if files != [] {
      var n := |files| - 1;
      UsedRootsGrow(files, roots, n);
      UsedRootMember(files[..n], roots, root);
      HasFilesGrows(files, root);
      assert files[..n + 1] == files;
      if root in roots && IsUnder(files[n], root) {
        OneRoot(files[n], roots, root, RootOf(files[n], roots));
      }
    }
  }

  lemma HasFilesGrows(files: seq<RecipeFile>, root: string)
    requires files != []
    ensures HasFiles(files, root) <==> HasFiles(files[..|files| - 1], root) || IsUnder(files[|files| - 1], root)
  {
    assert files == files[..|files| - 1] + [files[|files| - 1]];
  }

  lemma {:induction false} UsedRootsDistinct(files: seq<RecipeFile>, roots: seq<string>)
    requires Covered(files, roots)
    ensures DistinctStrings(UsedRoots(files, roots))
  {
    if files != [] {
      var n := |files| - 1;
      UsedRootsGrow(files, roots, n);
      UsedRootsDistinct(files[..n], roots);
      assert files[..n + 1] == files;
    }
  }

  // ----- the tree that a commit holds -----

  function DirectoryOf(files: seq<RecipeFile>, root: string): Tree {
    BuiltFrom(ItemsUnder(files, root))
  }

  /** Below a root with files: those files. On the way to one: directories. Elsewhere: the base. */
  ghost predicate PublishedAt(base: Tree, t: Tree, files: seq<RecipeFile>, roots: seq<string>, p: Path) {
    && (forall root :: root in roots && HasFiles(files, root) && Split(root, '/') < p ==>
          Held(t, p) == Held(DirectoryOf(files, root), p[|Split(root, '/')|..]))
    && (forall root :: root in roots && HasFiles(files, root) && p != [] && p <= Split(root, '/') ==>
          Held(t, p) == Some(Directory(DIRECTORY_MODE)))
    && ((forall root :: root in roots && HasFiles(files, root) ==>
           !(Split(root, '/') < p) && (p == [] || !(p <= Split(root, '/')))) ==>
          Held(t, p) == Held(base, p))
  }

  ghost predicate Published(base: Tree, t: Tree, files: seq<RecipeFile>, roots: seq<string>) {
    && (forall p {:trigger PublishedAt(base, t, files, roots, p)} :: PublishedAt(base, t, files, roots, p))
    && (forall root :: root in roots && HasFiles(files, root) ==> Buildable(ItemsUnder(files, root)))
  }

  function Grafts(h: Hashes, files: seq<RecipeFile>, used: seq<string>): (entries: seq<TreeEntry>)
    ensures |entries| == |used|
    ensures forall i :: 0 <= i < |used| ==>
              entries[i] == TreeEntry(used[i], DIRECTORY_MODE, h.tree(DirectoryOf(files, used[i])))
  {
    seq(|used|, i requires 0 <= i < |used| => TreeEntry(used[i], DIRECTORY_MODE, h.tree(DirectoryOf(files, used[i]))))
  }

  function Directories(files: seq<RecipeFile>, used: seq<string>): (dirs: seq<Tree>)
    ensures |dirs| == |used| && forall i :: 0 <= i < |used| ==> dirs[i] == DirectoryOf(files, used[i])
  {
    seq(|used|, i requires 0 <= i < |used| => DirectoryOf(files, used[i]))
  }

  function PublishedTree(h: Hashes, base: Tree, files: seq<RecipeFile>, used: seq<string>): Tree {
    GraftedAll(base, Grafts(h, files, used), Directories(files, used))
  }

  /** The same of the first `n` grafts. */
  ghost predicate GraftedAt(base: Tree, t: Tree, files: seq<RecipeFile>, used: seq<string>, p: Path) {
    && (forall i :: 0 <= i < |used| && Split(used[i], '/') < p ==>
          Held(t, p) == Held(DirectoryOf(files, used[i]), p[|Split(used[i], '/')|..]))
    && (forall i :: 0 <= i < |used| && p != [] && p <= Split(used[i], '/') ==>
          Held(t, p) == Some(Directory(DIRECTORY_MODE)))
    && ((forall i :: 0 <= i < |used| ==> !(Split(used[i], '/') < p) && (p == [] || !(p <= Split(used[i], '/')))) ==>
          Held(t, p) == Held(base, p))
  }

  ghost predicate Apart(used: seq<string>) {
    forall i, j :: 0 <= i < |used| && 0 <= j < |used| && i != j ==> !(Split(used[i], '/') <= Split(used[j], '/'))
  }

  lemma PublishedGrows(h: Hashes, base: Tree, files: seq<RecipeFile>, used: seq<string>)
    requires used != []
    ensures var n := |used| - 1;
            PublishedTree(h, base, files, used) ==
            Grafted(PublishedTree(h, base, files, used[..n]), Split(used[n], '/'), DirectoryOf(files, used[n]))
  {
    var n := |used| - 1;
    assert Grafts(h, files, used)[..n] == Grafts(h, files, used[..n]);
    assert Directories(files, used)[..n] == Directories(files, used[..n]);
  }

  lemma {:induction false} GraftsHold(h: Hashes, base: Tree, files: seq<RecipeFile>, used: seq<string>, p: Path)
    requires Apart(used) && forall i :: 0 <= i < |used| ==> [] !in DirectoryOf(files, used[i])
    ensures GraftedAt(base, PublishedTree(h, base, files, used), files, used, p)
    decreases |used|
  {
    if used != [] {
      var n := |used| - 1;
      GraftsHold(h, base, files, used[..n], p);
      PublishedGrows(h, base, files, used);
      GraftedHeld(PublishedTree(h, base, files, used[..n]), Split(used[n], '/'), DirectoryOf(files, used[n]), p);
      OneMoreHolds(base, PublishedTree(h, base, files, used[..n]), PublishedTree(h, base, files, used), files, used, p);
    }
  }

  lemma OneMoreHolds(base: Tree, t: Tree, g: Tree, files: seq<RecipeFile>, used: seq<string>, p: Path)
    requires used != [] && Apart(used) && GraftedAt(base, t, files, used[..|used| - 1], p)
    requires var root := Split(used[|used| - 1], '/');
             Held(g, p) == if root < p then Held(DirectoryOf(files, used[|used| - 1]), p[|root|..])
                           else if p != [] && p <= root then Some(Directory(DIRECTORY_MODE)) else Held(t, p)
    ensures GraftedAt(base, g, files, used, p)
  {
    var n := |used| - 1;
    forall i | 0 <= i < n
      ensures Split(used[i], '/') < p ==> !(Split(used[n], '/') < p) && !(p <= Split(used[n], '/'))
      ensures p != [] && p <= Split(used[i], '/') ==> !(Split(used[n], '/') < p)
    {
      Comparable(Split(used[i], '/'), Split(used[n], '/'), p);
    }
    assert forall i :: 0 <= i < n ==> used[..n][i] == used[i];
  }

  /** Two prefixes of one path are prefixes one of the other. */
  lemma Comparable(a: Path, b: Path, p: Path)
    ensures a <= p && b <= p ==> a <= b || b <= a
    ensures a <= p && p <= b ==> a <= b
    ensures b <= p && p <= a ==> b <= a
  {
    assert a <= p && b <= p && |a| <= |b| ==> a == b[..|a|];
    assert a <= p && b <= p && |b| <= |a| ==> b == a[..|b|];
  }

  lemma UsedApart(files: seq<RecipeFile>, roots: seq<string>)
    requires Covered(files, roots) && RootsOk(roots)
    ensures Apart(UsedRoots(files, roots))
  {
    var used := UsedRoots(files, roots);
    UsedRootsDistinct(files, roots);
    forall i, j | 0 <= i < |used| && 0 <= j < |used| && i != j ensures !(Split(used[i], '/') <= Split(used[j], '/')) {
      UsedRootMember(files, roots, used[i]);
      UsedRootMember(files, roots, used[j]);
      RootsApart(roots, used[i], used[j]);
    }
  }

  lemma RootsApart(roots: seq<string>, a: string, b: string)
    requires RootsOk(roots) && a in roots && b in roots && a != b
    ensures !(Split(a, '/') <= Split(b, '/'))
  {
    UnderIsBelow(b, a);
    assert Join(Split(a, '/'), '/') == a && Join(Split(b, '/'), '/') == b;
    assert Split(a, '/') <= Split(b, '/') ==> Split(a, '/') == Split(b, '/') || Split(a, '/') < Split(b, '/');
  }

  /** Putting the directories in one after the other is what `Published` describes. */
  lemma GraftsPublish(h: Hashes, base: Tree, files: seq<RecipeFile>, roots: seq<string>)
    requires Covered(files, roots) && RootsOk(roots)
    requires forall root :: root in UsedRoots(files, roots) ==> Buildable(ItemsUnder(files, root))
    ensures Published(base, PublishedTree(h, base, files, UsedRoots(files, roots)), files, roots)
  {
    var used := UsedRoots(files, roots);
    var t := PublishedTree(h, base, files, used);
    UsedApart(files, roots);
    forall i | 0 <= i < |used| ensures [] !in DirectoryOf(files, used[i]) {
      assert used[i] in used;
      BuiltFromIsBuilt(ItemsUnder(files, used[i]));
      BuiltWellFormed(DirectoryOf(files, used[i]), ItemsUnder(files, used[i]));
      NoRoot(DirectoryOf(files, used[i]));
    }
    forall p ensures PublishedAt(base, t, files, roots, p) {
      GraftsHold(h, base, files, used, p);
      UsedIsUsed(base, t, files, roots, p);
    }
    forall root | root in roots && HasFiles(files, root) ensures Buildable(ItemsUnder(files, root)) {
      UsedRootMember(files, roots, root);
    }
  }

  lemma UsedIsUsed(base: Tree, t: Tree, files: seq<RecipeFile>, roots: seq<string>, p: Path)
    requires Covered(files, roots) && RootsOk(roots) && GraftedAt(base, t, files, UsedRoots(files, roots), p)
    ensures PublishedAt(base, t, files, roots, p)
  {
    var used := UsedRoots(files, roots);
    forall root | root in roots && HasFiles(files, root) ensures exists i :: 0 <= i < |used| && used[i] == root {
      UsedRootMember(files, roots, root);
    }
    forall i | 0 <= i < |used| ensures used[i] in roots && HasFiles(files, used[i]) {
      UsedRootMember(files, roots, used[i]);
    }
  }

  lemma RootComponents(root: string)
    requires RootOk(root)
    ensures forall c :: c in Split(root, '/') ==> IsComponent(c)
  {
    var parts := Split(root, '/');
    forall c | c in parts ensures IsComponent(c) {
      var i :| 0 <= i < |parts| && parts[i] == c;
    }
  }

  // ----- which files make directories -----

  /** No file lies below another. */
  predicate NoFileBelowFile(files: seq<RecipeFile>) {
    forall a, b :: a in files && b in files ==> !HasPrefix(b.path, a.path + "/")
  }

  /** Every root with files is a directory that can be built. */
  ghost predicate AllBuildable(files: seq<RecipeFile>, roots: seq<string>) {
    forall root :: root in roots && HasFiles(files, root) ==> Buildable(ItemsUnder(files, root))
  }

  lemma BuildableIff(parent: string, files: seq<RecipeFile>, roots: seq<string>)
    requires Publishable(parent, files, roots)
    ensures AllBuildable(files, roots) <==> NoFileBelowFile(files)
  {
    if NoFileBelowFile(files) {
      forall root | root in roots && HasFiles(files, root) ensures Buildable(ItemsUnder(files, root)) {
        ItemsBuildable(files, roots, root);
      }
    } else {
      var a, b :| a in files && b in files && HasPrefix(b.path, a.path + "/");
      assert FileOk(a, roots);
      var root :| root in roots && IsUnder(a, root);
      BelowNotBuildable(files, root, a, b);
    }
  }

  lemma BelowNotBuildable(files: seq<RecipeFile>, root: string, a: RecipeFile, b: RecipeFile)
    requires a in files && b in files && HasPrefix(b.path, a.path + "/") && IsUnder(a, root)
    ensures IsUnder(b, root) && !Buildable(ItemsUnder(files, root))
  {
    ItemsFrom(files, root);
    assert b.path[..|root| + 1] == a.path[..|root| + 1];
    var x, y := ItemOf(a, root), ItemOf(b, root);
    assert y.path[..|x.path| + 1] == x.path + "/";
    UnderIsBelow(y.path, x.path);
    assert ItemPath(x) < ItemPath(y);
  }

  lemma ItemsBuildable(files: seq<RecipeFile>, roots: seq<string>, root: string)
    requires NoFileBelowFile(files) && root in roots && (forall f :: f in files ==> FileOk(f, roots))
    requires forall i, j :: 0 <= i < j < |files| ==> files[i].path != files[j].path
    ensures Buildable(ItemsUnder(files, root))
  {
    var items := ItemsUnder(files, root);
    ItemsDistinct(files, root);
    forall a, b | a in items && b in items ensures !(ItemPath(a) < ItemPath(b)) {
      ItemsApart(files, root, a, b);
    }
    forall item | item in items ensures forall c :: c in ItemPath(item) ==> IsComponent(c) {
      ItemComponents(files, roots, root, item);
    }
  }

  lemma FileOfItem(files: seq<RecipeFile>, root: string, item: Item) returns (f: RecipeFile)
    requires item in ItemsUnder(files, root)
    ensures f in files && IsUnder(f, root) && f.path == root + "/" + item.path
  {
    ItemsFrom(files, root);
    f :| f in files && IsUnder(f, root) && item == Item(f.path[|root| + 1..], ModeOf(f), f.bytes);
  }

  lemma ItemsApart(files: seq<RecipeFile>, root: string, a: Item, b: Item)
    requires NoFileBelowFile(files) && a in ItemsUnder(files, root) && b in ItemsUnder(files, root)
    ensures !(ItemPath(a) < ItemPath(b))
  {
    if ItemPath(a) < ItemPath(b) {
      BelowIsUnder(b.path, a.path);
      PrefixUnder(root, a.path + "/", b.path);
      var f := FileOfItem(files, root, a);
      var g := FileOfItem(files, root, b);
    }
  }

  lemma PrefixUnder(root: string, a: string, b: string)
    requires HasPrefix(b, a)
    ensures HasPrefix(root + "/" + b, root + "/" + a)
    ensures forall p, q :: a == p + q ==> root + "/" + a == root + "/" + p + q
  {
  }

  lemma ItemComponents(files: seq<RecipeFile>, roots: seq<string>, root: string, item: Item)
    requires item in ItemsUnder(files, root) && forall f :: f in files ==> FileOk(f, roots)
    ensures forall c :: c in ItemPath(item) ==> IsComponent(c)
  {
    var f := FileOfItem(files, root, item);
    SplitAppend(root, item.path);
    assert f.path == root + "/" + item.path && FileOk(f, roots);
    forall c | c in ItemPath(item) ensures IsComponent(c) {
      assert c in Split(f.path, '/');
    }
  }

  predicate DistinctItems(items: seq<Item>) {
    forall i, j :: 0 <= i < j < |items| ==> items[i].path != items[j].path
  }

  lemma {:induction false} ItemsDistinct(files: seq<RecipeFile>, root: string)
    requires forall i, j :: 0 <= i < j < |files| ==> files[i].path != files[j].path
    ensures DistinctItems(ItemsUnder(files, root))
  {
    if files != [] {
      var before, last := files[..|files| - 1], files[|files| - 1];
      var items := ItemsUnder(before, root);
      ItemsDistinct(before, root);
      if IsUnder(last, root) {
        forall i | 0 <= i < |items| ensures items[i].path != ItemOf(last, root).path {
          assert items[i] in items;
          var f := FileOfItem(before, root, items[i]);
          assert last.path == root + "/" + ItemOf(last, root).path;
        }
        assert DistinctItems(items + [ItemOf(last, root)]);
      }
    }
  }

  // ----- the publication -----

  /** Every call is answered, and identities look like identities. */
  ghost predicate Obliging(outcome: nat -> Outcome, h: Hashes) {
    && Willing(outcome) && (forall t :: IsSha1(h.tree(t))) && (forall data :: IsSha1(h.blob(data)))
    && (forall c :: IsSha1(h.commit(c)))
  }

  /** The objects that this publication would make are among those without collisions. */
  ghost predicate InPlay(hub: Hub, parent: string, files: seq<RecipeFile>, roots: seq<string>, message: string)
    reads hub
  {
    && (forall f :: f in files ==> f.bytes in hub.world.blobs)
    && (forall root :: root in roots ==> Parts(DirectoryOf(files, root)) <= hub.world.trees)
    && (Covered(files, roots) ==>
          forall c, t :: c in hub.commits && hub.h.commit(c) == parent && hub.Named(c.tree, t) ==>
            var g := PublishedTree(hub.h, t, files, UsedRoots(files, roots));
            Parts(g) <= hub.world.trees && Commit(hub.h.tree(g), [parent], message) in hub.world.commits)
  }

  /** The entries of the directories name the files. */
  ghost predicate Listed(h: Hashes, directories: map<string, seq<TreeEntry>>, files: seq<RecipeFile>) {
    forall root :: root in directories ==> Names(h, directories[root], ItemsUnder(files, root))
  }

  /** The directories so far, in their order. */
  ghost predicate Gathered(h: Hashes, directories: map<string, seq<TreeEntry>>, order: seq<string>,
                           files: seq<RecipeFile>, roots: seq<string>)
    requires Covered(files, roots)
  {
    && order == UsedRoots(files, roots) && SameRoots(directories, order, roots) && Listed(h, directories, files)
  }

  predicate SameRoots(directories: map<string, seq<TreeEntry>>, order: seq<string>, roots: seq<string>) {
    (forall root :: root in order ==> root in directories) && (forall root :: root in directories ==>
          root in order && root in roots)
  }

  function ItemOf(f: RecipeFile, root: string): Item
    requires IsUnder(f, root)
  {
    Item(f.path[|root| + 1..], ModeOf(f), f.bytes)
  }

  lemma ItemsGrow(files: seq<RecipeFile>, f: RecipeFile, root: string)
    ensures ItemsUnder(files + [f], root) ==
            if IsUnder(f, root) then ItemsUnder(files, root) + [ItemOf(f, root)] else ItemsUnder(files, root)
  {
    assert (files + [f])[..|files|] == files;
  }

  lemma {:induction false} ItemsFrom(files: seq<RecipeFile>, root: string)
    ensures forall item :: item in ItemsUnder(files, root) ==>
              exists f :: f in files && IsUnder(f, root) && item == Item(f.path[|root| + 1..], ModeOf(f), f.bytes)
    ensures forall f :: f in files && IsUnder(f, root) ==>
              Item(f.path[|root| + 1..], ModeOf(f), f.bytes) in ItemsUnder(files, root)
  {
    if files != [] {
      ItemsFrom(files[..|files| - 1], root);
      assert files == files[..|files| - 1] + [files[|files| - 1]];
    }
  }

  lemma {:induction false} NothingUnder(files: seq<RecipeFile>, root: string)
    requires !HasFiles(files, root)
    ensures ItemsUnder(files, root) == []
  {
    if files != [] {
      HasFilesGrows(files, root);
      NothingUnder(files[..|files| - 1], root);
    }
  }

  function EntryOf(h: Hashes, f: RecipeFile, root: string): TreeEntry
    requires IsUnder(f, root)
  {
    TreeEntry(f.path[|root| + 1..], ModeOf(f), h.blob(f.bytes))
  }

  lemma ListedMore(h: Hashes, directories: map<string, seq<TreeEntry>>, entries: seq<TreeEntry>, files: seq<RecipeFile>,
                   f: RecipeFile, roots: seq<string>, root: string)
    requires RootsOk(roots) && root in roots && IsUnder(f, root) && forall r :: r in directories ==> r in roots
    requires Listed(h, directories, files) && Names(h, entries, ItemsUnder(files, root))
    ensures Listed(h, directories[root := entries + [EntryOf(h, f, root)]], files + [f])
  {
    var more := directories[root := entries + [EntryOf(h, f, root)]];
    forall other | other in more ensures Names(h, more[other], ItemsUnder(files + [f], other)) {
      if other == root {
        RootListed(h, entries, files, f, root);
      } else {
        OthersListed(h, directories[other], files, f, roots, root, other);
      }
    }
  }

  lemma RootListed(h: Hashes, entries: seq<TreeEntry>, files: seq<RecipeFile>, f: RecipeFile, root: string)
    requires IsUnder(f, root) && Names(h, entries, ItemsUnder(files, root))
    ensures Names(h, entries + [EntryOf(h, f, root)], ItemsUnder(files + [f], root))
  {
    ItemsGrow(files, f, root);
  }

  lemma OthersListed(h: Hashes, entries: seq<TreeEntry>, files: seq<RecipeFile>, f: RecipeFile, roots: seq<string>,
                     root: string, other: string)
    requires RootsOk(roots) && root in roots && other in roots && other != root && IsUnder(f, root)
    requires Names(h, entries, ItemsUnder(files, other))
    ensures Names(h, entries, ItemsUnder(files + [f], other))
  {
    ItemsGrow(files, f, other);
    if IsUnder(f, other) {
      OneRoot(f, roots, other, root);
    }
  }

  lemma NothingListed(h: Hashes, files: seq<RecipeFile>, roots: seq<string>, root: string)
    requires Covered(files, roots) && RootsOk(roots) && root in roots && root !in UsedRoots(files, roots)
    ensures Names(h, [], ItemsUnder(files, root))
  {
    UsedRootMember(files, roots, root);
    NothingUnder(files, root);
  }

  function EntriesOf(directories: map<string, seq<TreeEntry>>, root: string): seq<TreeEntry> {
    if root in directories then directories[root] else []
  }

  function With(order: seq<string>, root: string): seq<string> {
    if root in order then order else order + [root]
  }

  lemma SameRootsMore(directories: map<string, seq<TreeEntry>>, order: seq<string>, roots: seq<string>, root: string,
                      entries: seq<TreeEntry>)
    requires SameRoots(directories, order, roots) && root in roots
    ensures SameRoots(directories[root := entries], With(order, root), roots)
  {
  }

  lemma EntriesListed(h: Hashes, directories: map<string, seq<TreeEntry>>, order: seq<string>, files: seq<RecipeFile>,
                      roots: seq<string>, root: string)
    requires RootsOk(roots) && Covered(files, roots) && Gathered(h, directories, order, files, roots) && root in roots
    ensures Names(h, EntriesOf(directories, root), ItemsUnder(files, root))
  {
    if root !in directories {
      NothingListed(h, files, roots, root);
    }
  }

  lemma GatherOneMore(h: Hashes, directories: map<string, seq<TreeEntry>>, order: seq<string>, files: seq<RecipeFile>,
                      f: RecipeFile, roots: seq<string>, root: string, entries: seq<TreeEntry>)
    requires RootsOk(roots) && Covered(files, roots) && UnderSome(f, roots) && root == RootOf(f, roots)
    requires Gathered(h, directories, order, files, roots) && entries == EntriesOf(directories, root)
    ensures Covered(files + [f], roots)
    ensures Gathered(h, directories[root := entries + [EntryOf(h, f, root)]], With(order, root), files + [f], roots)
  {
    UsedRootsSnoc(files, f, roots);
    EntriesListed(h, directories, order, files, roots, root);
    ListedMore(h, directories, entries, files, f, roots, root);
    SameRootsMore(directories, order, roots, root, entries + [EntryOf(h, f, root)]);
  }

  lemma UsedRootsSnoc(files: seq<RecipeFile>, f: RecipeFile, roots: seq<string>)
    requires Covered(files, roots) && UnderSome(f, roots)
    ensures Covered(files + [f], roots)
    ensures UsedRoots(files + [f], roots) == With(UsedRoots(files, roots), RootOf(f, roots))
  {
    assert (files + [f])[..|files|] == files;
  }

  ghost predicate Uploaded(hub: Hub, files: seq<RecipeFile>)
    reads hub
  {
    forall f :: f in files ==> f.bytes in hub.blobs
  }

  ghost predicate UploadedSo(hub: Hub, directories: map<string, seq<TreeEntry>>, order: seq<string>,
                             files: seq<RecipeFile>, roots: seq<string>)
    reads hub
  {
    Covered(files, roots) && Gathered(hub.h, directories, order, files, roots) && Uploaded(hub, files)
  }

  lemma NothingUploaded(hub: Hub, roots: seq<string>)
    ensures UploadedSo(hub, map[], [], [], roots)
  {
  }

  /** One upload, and its entry. */
  method UploadFile(hub: Hub, ghost done: seq<RecipeFile>, file: RecipeFile, roots: seq<string>,
                    directories: map<string, seq<TreeEntry>>, order: seq<string>)
    returns (ok: bool, directories': map<string, seq<TreeEntry>>, order': seq<string>)
    requires hub.Sound() && RootsOk(roots) && UnderSome(file, roots) && file.bytes in hub.world.blobs
    requires UploadedSo(hub, directories, order, done, roots)
    modifies hub`calls, hub`blobs
    ensures hub.Sound() && (ok ==> UploadedSo(hub, directories', order', done + [file], roots))
    ensures Willing(hub.outcome) ==> ok
  {
    directories', order' := directories, order;
    var sha := hub.PostBlob(file.bytes);
    if sha.None? || sha.value != hub.h.blob(file.bytes) {
      return false, directories', order';
    }
    var directory := RootOf(file, roots);
    var entries := EntriesOf(directories, directory);
    GatherOneMore(hub.h, directories, order, done, file, roots, directory, entries);
    var entry := TreeEntry(file.path[|directory| + 1..], ModeOf(file), sha.value);
    assert entry == EntryOf(hub.h, file, directory);
    ok, directories', order' := true, directories[directory := entries + [entry]], With(order, directory);
  }

  lemma NextFile(files: seq<RecipeFile>, roots: seq<string>, i: nat)
    requires i < |files| && Covered(files, roots)
    ensures files[i] in files && UnderSome(files[i], roots) && files[..i + 1] == files[..i] + [files[i]]
  {
  }

  /** Uploads every file and gathers the entries of the directories. */
  method UploadFiles(hub: Hub, files: seq<RecipeFile>, roots: seq<string>)
    returns (ok: bool, directories: map<string, seq<TreeEntry>>, order: seq<string>)
    requires hub.Sound() && RootsOk(roots) && Covered(files, roots) && forall f :: f in files ==>
              f.bytes in hub.world.blobs
    modifies hub`calls, hub`blobs
    ensures hub.Sound() && (ok ==> UploadedSo(hub, directories, order, files, roots))
    ensures Willing(hub.outcome) ==> ok
  {
    ok, directories, order := true, map[], [];
    NothingUploaded(hub, roots);
    assert files[..0] == [];
    for i := 0 to |files|
      invariant hub.Sound() && UploadedSo(hub, directories, order, files[..i], roots)
    {
      NextFile(files, roots, i);
      ok, directories, order := UploadFile(hub, files[..i], files[i], roots, directories, order);
      if !ok {
        return;
      }
    }
    assert files[..|files|] == files;
    ok := true;
  }

  predicate DirectoryPosted(trees: set<Tree>, files: seq<RecipeFile>, root: string) {
    Buildable(ItemsUnder(files, root)) && DirectoryOf(files, root) in trees
  }

  lemma GraftsGrow(h: Hashes, files: seq<RecipeFile>, order: seq<string>, j: nat)
    requires j < |order|
    ensures Grafts(h, files, order[..j + 1]) ==
            Grafts(h, files, order[..j]) + [TreeEntry(order[j], DIRECTORY_MODE, h.tree(DirectoryOf(files, order[j])))]
  {
  }

  method PostDirectory(hub: Hub, files: seq<RecipeFile>, root: string, entries: seq<TreeEntry>)
    returns (sha: Option<string>)
    requires hub.Sound() && Names(hub.h, entries, ItemsUnder(files, root)) && Uploaded(hub, files)
    requires Parts(DirectoryOf(files, root)) <= hub.world.trees
    modifies hub`calls, hub`trees
    ensures hub.Sound() && old(hub.trees) <= hub.trees
    ensures sha.Some? ==> sha.value == hub.h.tree(DirectoryOf(files, root)) && DirectoryPosted(hub.trees, files, root)
    ensures Obliging(hub.outcome, hub.h) && Buildable(ItemsUnder(files, root)) ==> sha.Some?
  {
    ItemsFrom(files, root);
    sha := hub.PostTree(entries, ItemsUnder(files, root));
    if sha.Some? && !IsSha1(sha.value) {
      sha := None;
    }
  }

  predicate AllPosted(trees: set<Tree>, files: seq<RecipeFile>, order: seq<string>) {
    forall i :: 0 <= i < |order| ==> DirectoryPosted(trees, files, order[i])
  }

  lemma PostedMore(before: set<Tree>, trees: set<Tree>, files: seq<RecipeFile>, order: seq<string>, j: nat)
    requires j < |order| && before <= trees && AllPosted(before, files, order[..j])
    requires DirectoryPosted(trees, files, order[j])
    ensures AllPosted(trees, files, order[..j + 1])
  {
    forall i | 0 <= i < j + 1 ensures DirectoryPosted(trees, files, order[i]) {
      assert i < j ==> DirectoryPosted(before, files, order[..j][i]);
    }
  }

  /** One new tree for each directory that has files. */
  method PostDirectories(hub: Hub, files: seq<RecipeFile>, roots: seq<string>, directories: map<string,
                         seq<TreeEntry>>, order: seq<string>)
    returns (ok: bool, tree: seq<TreeEntry>)
    requires hub.Sound() && UploadedSo(hub, directories, order, files, roots)
    requires forall root :: root in roots ==> Parts(DirectoryOf(files, root)) <= hub.world.trees
    modifies hub`calls, hub`trees
    ensures hub.Sound() && old(hub.trees) <= hub.trees
    ensures ok ==> tree == Grafts(hub.h, files, order) && AllPosted(hub.trees, files, order)
    ensures Obliging(hub.outcome, hub.h) && (forall root :: root in order ==> Buildable(ItemsUnder(files, root))) ==> ok
  {
    tree := [];
    for j := 0 to |order|
      invariant hub.Sound() && old(hub.trees) <= hub.trees
      invariant tree == Grafts(hub.h, files, order[..j]) && AllPosted(hub.trees, files, order[..j])
    {
      var path := order[j];
      assert path in order;
      ghost var before := hub.trees;
      var sha := PostDirectory(hub, files, path, directories[path]);
      if sha.None? {
        return false, [];
      }
      GraftsGrow(hub.h, files, order, j);
      PostedMore(before, hub.trees, files, order, j);
      tree := tree + [TreeEntry(path, DIRECTORY_MODE, sha.value)];
    }
    assert order[..|order|] == order;
    ok := true;
  }

  /** The branch is where the caller expects it. */
  method ReadParent(hub: Hub, branch: string, parent: string) returns (commit: Option<Commit>, ghost base: Tree)
    requires hub.Sound()
    modifies hub`calls
    ensures hub.Sound()
    ensures commit.Some? ==> branch in hub.refs && hub.refs[branch] == parent
    ensures commit.Some? ==>
              commit.value in hub.commits && hub.h.commit(commit.value) == parent && hub.Named(commit.value.tree, base)
    ensures Willing(hub.outcome) ==>
              (commit.Some? <==> branch in hub.refs && hub.refs[branch] == parent && hub.HasCommit(parent))
  {
    base := map[];
    var before := hub.GetRef(branch);
    if before.None? || before.value != parent {
      return None, base;
    }
    commit := hub.GetCommit(parent);
    if commit.Some? {
      assert IsStored(hub.h, hub.trees, commit.value.tree);
      base :| base in hub.trees && hub.h.tree(base) == commit.value.tree;
    }
  }

  /** The branch has moved, and nothing else, to a commit with that tree. */
  ghost predicate MovedTo(hub: Hub, before: map<string, string>, branch: string, t: Tree)
    reads hub
  {
    branch in hub.refs && hub.refs == before[branch := hub.refs[branch]] && hub.HasTree(hub.refs[branch], t)
  }

  /** One commit and one update of the branch. */
  method MoveBranch(hub: Hub, branch: string, c: Commit, ghost t: Tree) returns (r: Option<string>)
    requires hub.Sound() && hub.Named(c.tree, t) && c in hub.world.commits
    modifies hub`calls, hub`commits, hub`refs
    ensures hub.Sound() && old(hub.commits) <= hub.commits
    ensures MovedTo(hub, old(hub.refs), branch, t) || (hub.refs == old(hub.refs) && r.None?)
    ensures r.Some? ==> branch in hub.refs && hub.refs[branch] == r.value
    ensures Obliging(hub.outcome, hub.h) ==> r.Some?
  {
    var sha := hub.PostCommit(c, t);
    if sha.None? || !IsSha1(sha.value) {
      return None;
    }
    assert hub.HasTree(sha.value, t);
    var ok := hub.PatchRef(branch, sha.value);
    return if ok then sha else None;
  }

  /** The blobs, the new directories, and the base tree with them. */
  method MakeTree(hub: Hub, sha: string, ghost base: Tree, ghost t: Tree, files: seq<RecipeFile>, roots: seq<string>)
    returns (created: Option<string>)
    requires hub.Sound() && hub.Named(sha, base) && RootsOk(roots) && Covered(files, roots)
    requires forall f :: f in files ==> f.bytes in hub.world.blobs
    requires forall root :: root in roots ==> Parts(DirectoryOf(files, root)) <= hub.world.trees
    requires t == PublishedTree(hub.h, base, files, UsedRoots(files, roots)) && Parts(t) <= hub.world.trees
    modifies hub`calls, hub`blobs, hub`trees
    ensures hub.Sound() && old(hub.trees) <= hub.trees
    ensures created.Some? ==> hub.Named(created.value, t) && Published(base, t, files, roots)
    ensures created.Some? && Published(base, base, files, roots) ==> created.value == sha
    ensures Obliging(hub.outcome, hub.h) ==> (created.Some? <==> AllBuildable(files, roots))
  {
    var uploaded, directories, order := UploadFiles(hub, files, roots);
    if !uploaded {
      return None;
    }
    created := PutDirectories(hub, sha, base, files, roots, directories, order);
    if created.Some? && Published(base, base, files, roots) {
      PublishedOnce(base, t, base, files, roots);
    }
  }

  /** The branch moves at most once, from its known parent, and only to a commit with the published tree,
      whichever calls fail; where nothing would change no commit is made. When every call is answered,
      the publication succeeds exactly on what is publishable. */
  method CommitRecipeTree(hub: Hub, branch: string, parent: string, files: seq<RecipeFile>, message: string,
                          roots: seq<string>)
    returns (r: Option<string>, ghost base: Tree, ghost t: Tree)
    requires hub.Sound() && InPlay(hub, parent, files, roots, message)
    modifies hub
    ensures hub.Sound() && old(hub.commits) <= hub.commits && old(hub.trees) <= hub.trees
    ensures r.Some? || hub.refs != old(hub.refs) ==>
              && Publishable(parent, files, roots) && branch in old(hub.refs) && old(hub.refs)[branch] == parent
              && old(hub.HasTree(parent, base)) && Published(base, t, files, roots)
                    && MovedTo(hub, old(hub.refs), branch, t)
    ensures r.Some? ==> hub.refs[branch] == r.value
    ensures Published(base, base, files, roots) ==> hub.refs == old(hub.refs) && hub.commits == old(hub.commits)
    ensures Obliging(hub.outcome, hub.h) ==>
              (r.Some? <==> && Publishable(parent, files, roots) && NoFileBelowFile(files)
                            && branch in old(hub.refs) && old(hub.refs)[branch] == parent && old(hub.HasCommit(parent)))
  {
    r, base, t := None, map[], map[];
    if Publishable(parent, files, roots) {
      var commit;
      commit, base := ReadParent(hub, branch, parent);
      if commit.Some? {
        PublishableIsCovered(parent, files, roots);
        BuildableIff(parent, files, roots);
        t := PublishedTree(hub.h, base, files, UsedRoots(files, roots));
        assert Parts(t) <= hub.world.trees && Commit(hub.h.tree(t), [parent], message) in hub.world.commits;
        r := PublishOn(hub, branch, parent, commit.value, base, t, files, message, roots);
      }
    }
  }

  lemma StaysAt(hub: Hub, branch: string, commit: Commit, t: Tree)
    requires branch in hub.refs && hub.refs[branch] == hub.h.commit(commit) && commit in hub.commits
    requires hub.Named(commit.tree, t)
    ensures MovedTo(hub, hub.refs, branch, t)
  {
    assert hub.HasTree(hub.refs[branch], t);
  }

  method PublishOn(hub: Hub, branch: string, parent: string, commit: Commit, ghost base: Tree, ghost t: Tree,
                   files: seq<RecipeFile>, message: string, roots: seq<string>)
    returns (r: Option<string>)
    requires hub.Sound() && RootsOk(roots) && Covered(files, roots)
    requires forall f :: f in files ==> f.bytes in hub.world.blobs
    requires forall root :: root in roots ==> Parts(DirectoryOf(files, root)) <= hub.world.trees
    requires t == PublishedTree(hub.h, base, files, UsedRoots(files, roots)) && Parts(t) <= hub.world.trees
    requires Commit(hub.h.tree(t), [parent], message) in hub.world.commits
    requires commit in hub.commits && hub.h.commit(commit) == parent && hub.Named(commit.tree, base)
    requires branch in hub.refs && hub.refs[branch] == parent
    modifies hub
    ensures hub.Sound() && old(hub.commits) <= hub.commits && old(hub.trees) <= hub.trees
    ensures r.Some? || hub.refs != old(hub.refs) ==>
              Published(base, t, files, roots) && MovedTo(hub, old(hub.refs), branch, t)
    ensures r.Some? ==> hub.refs[branch] == r.value
    ensures Published(base, base, files, roots) ==> hub.refs == old(hub.refs) && hub.commits == old(hub.commits)
    ensures Obliging(hub.outcome, hub.h) ==> (r.Some? <==> AllBuildable(files, roots))
  {
    r := None;
    ghost var unchanging := Published(base, base, files, roots);
    var created := MakeTree(hub, commit.tree, base, t, files, roots);
    assert hub.refs == old(hub.refs) && hub.commits == old(hub.commits);
    if created.Some? {
      assert Published(base, t, files, roots) && (unchanging ==> created.value == commit.tree);
      r := Land(hub, branch, parent, commit, created.value, message, t);
    }
  }

  /** An identical retry answers with the commit it finds. */
  method Land(hub: Hub, branch: string, parent: string, commit: Commit, created: string, message: string, ghost t: Tree)
    returns (r: Option<string>)
    requires hub.Sound() && hub.Named(created, t) && Commit(created, [parent], message) in hub.world.commits
    requires branch in hub.refs && hub.refs[branch] == parent && commit in hub.commits && hub.h.commit(commit) == parent
    modifies hub`calls, hub`commits, hub`refs
    ensures hub.Sound() && old(hub.commits) <= hub.commits
    ensures MovedTo(hub, old(hub.refs), branch, t) || (hub.refs == old(hub.refs) && r.None?)
    ensures r.Some? ==> branch in hub.refs && hub.refs[branch] == r.value
    ensures created == commit.tree ==> hub.refs == old(hub.refs) && hub.commits == old(hub.commits)
    ensures Obliging(hub.outcome, hub.h) ==> r.Some?
  {
    if created == commit.tree {
      StaysAt(hub, branch, commit, t);
      return Some(parent);
    }
    r := MoveBranch(hub, branch, Commit(created, [parent], message), t);
  }

  /** The new directories, and the base tree with them. */
  method PutDirectories(hub: Hub, sha: string, ghost base: Tree, files: seq<RecipeFile>, roots: seq<string>,
                        directories: map<string, seq<TreeEntry>>, order: seq<string>)
    returns (created: Option<string>)
    requires hub.Sound() && hub.Named(sha, base) && RootsOk(roots) && UploadedSo(hub, directories, order, files, roots)
    requires forall root :: root in roots ==> Parts(DirectoryOf(files, root)) <= hub.world.trees
    requires Parts(PublishedTree(hub.h, base, files, order)) <= hub.world.trees
    modifies hub`calls, hub`trees
    ensures hub.Sound() && old(hub.trees) <= hub.trees
    ensures created.Some? ==> var t := PublishedTree(hub.h, base, files, UsedRoots(files, roots));
              hub.Named(created.value, t) && Published(base, t, files, roots)
    ensures Obliging(hub.outcome, hub.h) && AllBuildable(files, roots) ==> created.Some?
  {
    UsedRootsHaveFiles(files, roots, order);
    var posted, tree := PostDirectories(hub, files, roots, directories, order);
    if !posted {
      return None;
    }
    created := PutIntoBase(hub, sha, base, files, roots, order, tree);
  }

  lemma UsedRootsHaveFiles(files: seq<RecipeFile>, roots: seq<string>, order: seq<string>)
    requires Covered(files, roots) && RootsOk(roots) && order == UsedRoots(files, roots)
    ensures forall root :: root in order ==> root in roots && HasFiles(files, root)
  {
    forall root | root in order ensures root in roots && HasFiles(files, root) {
      UsedRootMember(files, roots, root);
    }
  }

  /** The base tree with the new directories. */
  method PutIntoBase(hub: Hub, sha: string, ghost base: Tree, files: seq<RecipeFile>, roots: seq<string>,
                     order: seq<string>, tree: seq<TreeEntry>)
    returns (created: Option<string>)
    requires hub.Sound() && hub.Named(sha, base) && RootsOk(roots) && Covered(files, roots)
    requires order == UsedRoots(files, roots) && tree == Grafts(hub.h, files, order)
    requires AllPosted(hub.trees, files, order) && Parts(PublishedTree(hub.h, base, files, order)) <= hub.world.trees
    modifies hub`calls, hub`trees
    ensures hub.Sound() && old(hub.trees) <= hub.trees
    ensures created.Some? ==> var t := PublishedTree(hub.h, base, files, order);
              hub.Named(created.value, t) && Published(base, t, files, roots)
    ensures Obliging(hub.outcome, hub.h) ==> created.Some?
  {
    OrderFacts(hub.trees, files, roots, order);
    GraftsPublish(hub.h, base, files, roots);
    created := hub.PostTreeOnBase(sha, tree, base, Directories(files, order));
    if created.Some? && !IsSha1(created.value) {
      created := None;
    }
  }

  lemma OrderFacts(trees: set<Tree>, files: seq<RecipeFile>, roots: seq<string>, order: seq<string>)
    requires Covered(files, roots) && RootsOk(roots) && order == UsedRoots(files, roots)
    requires AllPosted(trees, files, order)
    ensures forall root :: root in order ==> Buildable(ItemsUnder(files, root))
    ensures forall i :: 0 <= i < |order| ==> forall c :: c in Split(order[i], '/') ==> IsComponent(c)
    ensures forall i :: 0 <= i < |order| ==> DirectoryOf(files, order[i]) in trees
  {
    forall i | 0 <= i < |order|
      ensures forall c :: c in Split(order[i], '/') ==> IsComponent(c)
      ensures Buildable(ItemsUnder(files, order[i])) && DirectoryOf(files, order[i]) in trees
    {
      UsedRootMember(files, roots, order[i]);
      RootComponents(order[i]);
      assert DirectoryPosted(trees, files, order[i]);
    }
  }

  /** There is only one tree that a publication can leave. */
  lemma PublishedOnce(base: Tree, a: Tree, b: Tree, files: seq<RecipeFile>, roots: seq<string>)
    requires Published(base, a, files, roots) && Published(base, b, files, roots)
    ensures a == b
  {
    forall p ensures Held(a, p) == Held(b, p) {
      assert PublishedAt(base, a, files, roots, p) && PublishedAt(base, b, files, roots, p);
    }
    SameTree(a, b);
  }

  lemma PublishableIsCovered(parent: string, files: seq<RecipeFile>, roots: seq<string>)
    requires Publishable(parent, files, roots)
    ensures Covered(files, roots)
  {
    forall f | f in files ensures UnderSome(f, roots) {
      assert FileOk(f, roots);
    }
  }
}
