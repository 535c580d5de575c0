/** The trees of a Git repository by path, and the two ways the GitHub API makes one: from a list of
    files, and by putting directories into a base tree. */
module GitHubTrees {
  import opened Values
  import opened Text

  type Path = seq<string>

  type Bytes = string

  datatype Object = File(mode: string, data: Bytes) | Directory(mode: string) | Gitlink(mode: string)

  type Tree = map<Path, Object>

  const DIRECTORY_MODE := "040000"

  predicate IsComponent(c: string) {
    c != "" && '/' !in c
  }

  predicate Rooted(t: Tree, p: Path) {
    && p != [] && (forall i :: 0 <= i < |p| ==> IsComponent(p[i]))
    && (|p| > 1 ==> p[..|p| - 1] in t && t[p[..|p| - 1]].Directory?)
  }

  /** Every object lies in a directory. */
  ghost predicate WellFormed(t: Tree) {
    forall p {:trigger Rooted(t, p)} :: p in t ==> Rooted(t, p)
  }

  function Held(t: Tree, p: Path): Option<Object> {
    if p in t then Some(t[p]) else None
  }

  /** What lies below a path, by the rest of the path. */
  function Below(t: Tree, root: Path): Tree {
    var rests := set p | p in t && root < p :: p[|root|..];
    map q | q in rests && root + q in t :: t[root + q]
  }

  lemma BelowHeld(t: Tree, root: Path, q: Path)
    ensures Held(Below(t, root), q) == if q == [] then None else Held(t, root + q)
  {
    var rests := set p | p in t && root < p :: p[|root|..];
    if q != [] && root + q in t {
      assert root < root + q && (root + q)[|root|..] == q;
      assert q in rests;
    }
    if q in rests {
      var p :| p in t && root < p && p[|root|..] == q;
      assert p == root + q;
    }
  }

  lemma BelowWellFormed(t: Tree, root: Path)
    requires WellFormed(t)
    ensures WellFormed(Below(t, root))
  {
    var b := Below(t, root);
    forall q | q in b ensures Rooted(b, q) {
      BelowHeld(t, root, q);
      var p := root + q;
      assert Rooted(t, p);
      assert forall i :: 0 <= i < |q| ==> q[i] == p[|root| + i];
      if |q| > 1 {
        assert p[..|p| - 1] == root + q[..|q| - 1];
        BelowHeld(t, root, q[..|q| - 1]);
      }
    }
  }

  lemma SameTree(a: Tree, b: Tree)
    requires forall p {:trigger Held(a, p)} {:trigger Held(b, p)} :: Held(a, p) == Held(b, p)
    ensures a == b
  {
    forall p: Path
      ensures p in a <==> p in b
      ensures p in a ==> a[p] == b[p]
    {
      assert Held(a, p) == Held(b, p);
    }
  }

  lemma BelowBelow(t: Tree, a: Path, b: Path)
    requires b != []
    ensures Below(Below(t, a), b) == Below(t, a + b)
  {
    var x, y := Below(Below(t, a), b), Below(t, a + b);
    forall q ensures Held(x, q) == Held(y, q) {
      BelowBelowAt(t, a, b, q);
    }
    SameTree(x, y);
  }

  lemma BelowBelowAt(t: Tree, a: Path, b: Path, q: Path)
    requires b != []
    ensures Held(Below(Below(t, a), b), q) == Held(Below(t, a + b), q)
  {
    BelowHeld(Below(t, a), b, q);
    BelowHeld(t, a, b + q);
    BelowHeld(t, a + b, q);
    assert a + (b + q) == a + b + q;
  }

  // ----- a tree from a list of files -----

  datatype Item = Item(path: string, mode: string, data: Bytes)

  function ItemPath(item: Item): Path {
    Split(item.path, '/')
  }

  ghost predicate FileAt(items: seq<Item>, p: Path, item: Item) {
    item in items && ItemPath(item) == p
  }

  ghost predicate AboveSome(items: seq<Item>, p: Path) {
    exists item :: item in items && p != [] && p < ItemPath(item)
  }

  /** Paths differ, none lies below another, and every component is a name. */
  predicate Buildable(items: seq<Item>) {
    && (forall i, j :: 0 <= i < j < |items| ==> items[i].path != items[j].path)
    && (forall a, b :: a in items && b in items ==> !(ItemPath(a) < ItemPath(b)))
    && (forall item :: item in items ==> forall c :: c in ItemPath(item) ==> IsComponent(c))
  }

  ghost predicate BuiltAt(t: Tree, items: seq<Item>, p: Path) {
    && (forall item :: FileAt(items, p, item) ==> Held(t, p) == Some(File(item.mode, item.data)))
    && (AboveSome(items, p) ==> Held(t, p) == Some(Directory(DIRECTORY_MODE)))
    && (p in t ==> AboveSome(items, p) || exists item :: FileAt(items, p, item))
  }

  /** The files, their ancestors as directories, and nothing else. */
  ghost predicate Built(t: Tree, items: seq<Item>) {
    forall p {:trigger BuiltAt(t, items, p)} :: BuiltAt(t, items, p)
  }

  function Ancestors(p: Path): set<Path> {
    set k | 1 <= k < |p| :: p[..k]
  }

  function WithItem(t: Tree, item: Item): Tree {
    (t + map p | p in Ancestors(ItemPath(item)) :: Directory(DIRECTORY_MODE))[ItemPath(item) := File(item.mode,
        item.data)]
  }

  function BuiltFrom(items: seq<Item>): Tree {
    if items == [] then map[] else WithItem(BuiltFrom(items[..|items| - 1]), items[|items| - 1])
  }

  lemma {:induction false} BuiltFromIsBuilt(items: seq<Item>)
    requires Buildable(items)
    ensures Built(BuiltFrom(items), items)
  {
    if items == [] {
      forall p ensures BuiltAt(BuiltFrom(items), items, p) {
      }
    } else {
      var before, last := items[..|items| - 1], items[|items| - 1];
      assert items == before + [last];
      BuildableBefore(items);
      BuiltFromIsBuilt(before);
      forall p ensures BuiltAt(BuiltFrom(items), items, p) {
        assert BuiltAt(BuiltFrom(before), before, p);
        OneMoreItem(before, last, p);
      }
    }
  }

  lemma BuildableBefore(items: seq<Item>)
    requires Buildable(items) && items != []
    ensures Buildable(items[..|items| - 1])
  {
    assert forall item :: item in items[..|items| - 1] ==> item in items;
  }

  lemma SamePathSameItem(items: seq<Item>, a: Item, b: Item)
    requires Buildable(items) && a in items && b in items && ItemPath(a) == ItemPath(b)
    ensures a == b
  {
    assert a.path == Join(ItemPath(a), '/') && b.path == Join(ItemPath(b), '/');
    var i, j :| 0 <= i < |items| && items[i] == a && 0 <= j < |items| && items[j] == b;
  }

  lemma AncestorsOf(p: Path, q: Path)
    ensures q in Ancestors(p) <==> q != [] && q < p
  {
    if q != [] && q < p {
      assert q == p[..|q|];
    }
  }

  lemma OneMoreItem(before: seq<Item>, last: Item, p: Path)
    requires Buildable(before + [last]) && BuiltAt(BuiltFrom(before), before, p)
    ensures BuiltAt(WithItem(BuiltFrom(before), last), before + [last], p)
  {
    var items, t := before + [last], WithItem(BuiltFrom(before), last);
    assert last in items && forall item :: item in items <==> item in before || item == last;
    AncestorsOf(ItemPath(last), p);
    assert AboveSome(items, p) <==> AboveSome(before, p) || (p != [] && p < ItemPath(last));
    forall item | FileAt(items, p, item) ensures Held(t, p) == Some(File(item.mode, item.data)) {
      if p == ItemPath(last) {
        SamePathSameItem(items, item, last);
      } else {
        assert FileAt(before, p, item);
      }
    }
    if p in t && !AboveSome(items, p) && p != ItemPath(last) {
      var item :| FileAt(before, p, item);
      assert FileAt(items, p, item);
    }
    if p == ItemPath(last) {
      assert FileAt(items, p, last);
    }
  }

  lemma BuiltWellFormed(t: Tree, items: seq<Item>)
    requires Buildable(items) && Built(t, items)
    ensures WellFormed(t)
  {
    forall p | p in t ensures Rooted(t, p) {
      assert BuiltAt(t, items, p);
      var item: Item;
      if AboveSome(items, p) {
        item :| item in items && p != [] && p < ItemPath(item);
      } else {
        item :| FileAt(items, p, item);
      }
      assert p <= ItemPath(item);
      assert forall i :: 0 <= i < |p| ==> p[i] == ItemPath(item)[i] && ItemPath(item)[i] in ItemPath(item);
      if |p| > 1 {
        assert p[..|p| - 1] < ItemPath(item);
        assert BuiltAt(t, items, p[..|p| - 1]);
      }
    }
  }

  // ----- a directory put into a base tree -----

  function Outside(t: Tree, root: Path): Tree {
    map p | p in t && !(root <= p) :: t[p]
  }

  function OnTheWay(root: Path): Tree {
    map p | p in Ancestors(root) + {root} :: Directory(DIRECTORY_MODE)
  }

  function Inside(root: Path, dir: Tree): Tree {
    var paths := set q | q in dir :: root + q;
    map p | p in paths && p[|root|..] in dir :: dir[p[|root|..]]
  }

  function Grafted(t: Tree, root: Path, dir: Tree): Tree {
    Outside(t, root) + OnTheWay(root) + Inside(root, dir)
  }

  lemma InsideHeld(root: Path, dir: Tree, p: Path)
    ensures Held(Inside(root, dir), p) == if root <= p then Held(dir, p[|root|..]) else None
  {
    var paths := set q | q in dir :: root + q;
    if p in paths {
      var q :| q in dir && root + q == p;
      assert p[|root|..] == q && root <= p;
    }
    if root <= p {
      assert p == root + p[|root|..];
      assert p[|root|..] in dir ==> p in paths;
    }
  }

  lemma GraftedHeld(t: Tree, root: Path, dir: Tree, p: Path)
    requires root != [] && [] !in dir
    ensures Held(Grafted(t, root, dir), p) ==
            if root < p then Held(dir, p[|root|..])
            else if p != [] && p <= root then Some(Directory(DIRECTORY_MODE))
            else Held(t, p)
  {
    InsideHeld(root, dir, p);
    AncestorsOf(root, p);
    assert root <= p && !(root < p) ==> p == root && p[|root|..] == [];
    assert p in OnTheWay(root) <==> p != [] && p <= root;
  }

  lemma GraftedWellFormed(t: Tree, root: Path, dir: Tree)
    requires WellFormed(t) && WellFormed(dir) && root != [] && [] !in dir && forall c :: c in root ==> IsComponent(c)
    ensures WellFormed(Grafted(t, root, dir))
  {
    forall p | p in Grafted(t, root, dir) ensures Rooted(Grafted(t, root, dir), p) {
      GraftedHeld(t, root, dir, p);
      if root < p {
        GraftedInside(t, root, dir, p[|root|..]);
        assert p == root + p[|root|..];
      } else if p != [] && p <= root {
        GraftedOnTheWay(t, root, dir, p);
      } else {
        GraftedOutside(t, root, dir, p);
      }
    }
  }

  lemma GraftedInside(t: Tree, root: Path, dir: Tree, q: Path)
    requires root != [] && [] !in dir && (forall c :: c in root ==> IsComponent(c)) && Rooted(dir, q)
    ensures Rooted(Grafted(t, root, dir), root + q)
  {
    var p := root + q;
    var parent := p[..|p| - 1];
    GraftedHeld(t, root, dir, parent);
    assert forall i :: 0 <= i < |root| ==> p[i] == root[i] && root[i] in root;
    assert forall i :: 0 <= i < |q| ==> p[|root| + i] == q[i];
    assert forall i :: |root| <= i < |p| ==> p[i] == q[i - |root|];
    if |q| > 1 {
      assert parent == root + q[..|q| - 1] && parent[|root|..] == q[..|q| - 1];
    } else {
      assert parent == root;
    }
  }

  lemma GraftedOnTheWay(t: Tree, root: Path, dir: Tree, p: Path)
    requires root != [] && [] !in dir && (forall c :: c in root ==> IsComponent(c)) && p != [] && p <= root
    ensures Rooted(Grafted(t, root, dir), p)
  {
    GraftedHeld(t, root, dir, p[..|p| - 1]);
    assert forall i :: 0 <= i < |p| ==> p[i] == root[i] && root[i] in root;
  }

  lemma GraftedOutside(t: Tree, root: Path, dir: Tree, p: Path)
    requires root != [] && [] !in dir && Rooted(t, p) && !(root < p) && !(p <= root)
    ensures Rooted(Grafted(t, root, dir), p)
  {
    GraftedHeld(t, root, dir, p[..|p| - 1]);
    assert root <= p[..|p| - 1] ==> root <= p;
  }

  // ----- the bytes in a tree -----

  ghost predicate BytesIn(t: Tree, blobs: set<Bytes>) {
    forall p :: p in t && t[p].File? ==> t[p].data in blobs
  }

  lemma BelowBytes(t: Tree, root: Path, blobs: set<Bytes>)
    requires BytesIn(t, blobs)
    ensures BytesIn(Below(t, root), blobs)
  {
    forall q | q in Below(t, root) && Below(t, root)[q].File? ensures Below(t, root)[q].data in blobs {
      BelowHeld(t, root, q);
    }
  }

  lemma BuiltBytes(t: Tree, items: seq<Item>, blobs: set<Bytes>)
    requires Built(t, items) && forall item :: item in items ==> item.data in blobs
    ensures BytesIn(t, blobs)
  {
    forall p | p in t && t[p].File? ensures t[p].data in blobs {
      assert BuiltAt(t, items, p);
      var item :| FileAt(items, p, item);
    }
  }

  lemma GraftedBytes(t: Tree, root: Path, dir: Tree, blobs: set<Bytes>)
    requires BytesIn(t, blobs) && BytesIn(dir, blobs) && root != [] && [] !in dir
    ensures BytesIn(Grafted(t, root, dir), blobs)
  {
    forall p | p in Grafted(t, root, dir)
          && Grafted(t, root, dir)[p].File? ensures Grafted(t, root, dir)[p].data in blobs {
      GraftedHeld(t, root, dir, p);
    }
  }
}
