/** The Git object API of GitHub as one client sees it. Objects are named by hashes of what they are;
    any call may fail. */
module GitHub {
  import opened Values
  import opened Text
  import opened GitHubTrees

  datatype Commit = Commit(tree: string, parents: seq<string>, message: string)

  datatype Hashes = Hashes(blob: Bytes -> string, tree: Tree -> string, commit: Commit -> string)

  /** A call answers, is carried out but its answer is lost, or fails; a blob upload may answer with
      another identity. */
  datatype Outcome = Answers | Loses | Fails | Misnames(sha: string)

  ghost predicate Willing(outcome: nat -> Outcome) {
    forall n: nat :: outcome(n).Answers?
  }

  /** An entry of a new tree: a blob, or a directory put into a base tree. */
  datatype TreeEntry = TreeEntry(path: string, mode: string, sha: string)

  function DirectoriesOf(t: Tree): set<Path> {
    set p | p in t && t[p].Directory?
  }

  function PartAt(t: Tree, p: Path): Tree {
    if p == [] then t else Below(t, p)
  }

  /** A tree with the trees of all its directories. */
  function Parts(t: Tree): set<Tree> {
    set p | p in DirectoriesOf(t) + {[]} :: PartAt(t, p)
  }

  lemma PartOf(t: Tree, b: Tree) returns (p: Path)
    requires b in Parts(t)
    ensures p in DirectoriesOf(t) + {[]} && b == PartAt(t, p)
  {
    p :| p in DirectoriesOf(t) + {[]} && b == PartAt(t, p);
  }

  lemma WholeIsPart(t: Tree)
    ensures t in Parts(t)
  {
    assert PartAt(t, []) == t;
  }

  lemma PartsClosed(t: Tree, b: Tree)
    requires b in Parts(t)
    ensures Parts(b) <= Parts(t)
  {
    var p := PartOf(t, b);
    forall c | c in Parts(b) ensures c in Parts(t) {
      var q := PartOf(b, c);
      PartOfPart(t, p, q);
    }
  }

  lemma PartOfPart(t: Tree, p: Path, q: Path)
    requires p in DirectoriesOf(t) + {[]} && q in DirectoriesOf(PartAt(t, p)) + {[]}
    ensures PartAt(PartAt(t, p), q) in Parts(t)
  {
    if p != [] && q != [] {
      BelowHeld(t, p, q);
      BelowBelow(t, p, q);
      assert p + q in DirectoriesOf(t) && PartAt(PartAt(t, p), q) == PartAt(t, p + q);
    }
  }

  lemma PartsWellFormed(t: Tree, b: Tree)
    requires WellFormed(t) && b in Parts(t)
    ensures WellFormed(b)
  {
    var p := PartOf(t, b);
    if p != [] {
      BelowWellFormed(t, p);
    }
  }

  lemma NoRoot(t: Tree)
    requires WellFormed(t)
    ensures [] !in t
  {
    assert [] in t ==> Rooted(t, []);
  }

  datatype World = World(trees: set<Tree>, blobs: set<Bytes>, commits: set<Commit>)

  ghost predicate NoCollisions(h: Hashes, world: World) {
    && (forall a, b :: a in world.trees && b in world.trees && h.tree(a) == h.tree(b) ==> a == b)
    && (forall a, b :: a in world.blobs && b in world.blobs && h.blob(a) == h.blob(b) ==> a == b)
    && (forall a, b :: a in world.commits && b in world.commits && h.commit(a) == h.commit(b) ==> a == b)
  }

  function GraftedAll(t: Tree, entries: seq<TreeEntry>, dirs: seq<Tree>): Tree
    requires |dirs| == |entries|
  {
    if entries == [] then t
    else
      var n := |entries| - 1;
      Grafted(GraftedAll(t, entries[..n], dirs[..n]), Split(entries[n].path, '/'), dirs[n])
  }

  lemma OneMoreGraft(t: Tree, entries: seq<TreeEntry>, dirs: seq<Tree>, i: nat)
    requires i < |entries| == |dirs|
    ensures GraftedAll(t, entries[..i + 1], dirs[..i + 1]) == Grafted(GraftedAll(t, entries[..i], dirs[..i]),
              Split(entries[i].path, '/'), dirs[i])
  {
    assert entries[..i + 1][..i] == entries[..i] && dirs[..i + 1][..i] == dirs[..i];
  }

  /** The entries name the items' bytes by their identities. */
  predicate Names(h: Hashes, entries: seq<TreeEntry>, items: seq<Item>) {
    && |entries| == |items|
    && forall i :: 0 <= i < |items| ==> entries[i] == TreeEntry(items[i].path, items[i].mode, h.blob(items[i].data))
  }

  ghost predicate IsStored(h: Hashes, trees: set<Tree>, sha: string) {
    exists t :: t in trees && h.tree(t) == sha
  }

  class Hub {
    const h: Hashes
    const outcome: nat -> Outcome
    /** The objects among which no two have the same identity. */
    ghost const world: World
    var trees: set<Tree>
    var blobs: set<Bytes>
    var commits: set<Commit>
    var refs: map<string, string>
    var calls: nat

    constructor (h: Hashes, outcome: nat -> Outcome, ghost world: World)
      requires NoCollisions(h, world)
      ensures Sound() && this.h == h && this.outcome == outcome && this.world == world
    {
      this.h, this.outcome, this.world := h, outcome, world;
      trees, blobs, commits, refs, calls := {}, {}, {}, map[], 0;
    }

    ghost predicate Sound()
      reads this
    {
      && NoCollisions(h, world) && trees <= world.trees && blobs <= world.blobs && commits <= world.commits
      && (forall t :: t in trees ==> WellFormed(t) && Parts(t) <= trees && BytesIn(t, blobs))
      && (forall c {:trigger IsStored(h, trees, c.tree)} :: c in commits ==> IsStored(h, trees, c.tree))
    }

    ghost predicate Named(sha: string, t: Tree)
      reads this
    {
      t in trees && h.tree(t) == sha
    }

    /** The commit of that identity has this tree. */
    ghost predicate HasTree(commit: string, t: Tree)
      reads this
    {
      exists c :: c in commits && h.commit(c) == commit && Named(c.tree, t)
    }

    /** There is a commit with this identity. */
    ghost predicate HasCommit(commit: string)
      reads this
    {
      exists c :: c in commits && h.commit(c) == commit
    }

    method Outcome() returns (o: Outcome)
      modifies this`calls
      ensures Willing(outcome) ==> o.Answers?
    {
      o := outcome(calls);
      calls := calls + 1;
    }

    method GetRef(branch: string) returns (sha: Option<string>)
      modifies this`calls
      ensures sha.Some? ==> branch in refs && refs[branch] == sha.value
      ensures Willing(outcome) ==> (sha.Some? <==> branch in refs)
    {
      var o := Outcome();
      sha := if o.Answers? && branch in refs then Some(refs[branch]) else None;
    }

    method GetCommit(sha: string) returns (c: Option<Commit>)
      modifies this`calls
      ensures c.Some? ==> c.value in commits && h.commit(c.value) == sha
      ensures Willing(outcome) ==> (c.Some? <==> HasCommit(sha))
    {
      var o := Outcome();
      if o.Answers? && exists c :: c in commits && h.commit(c) == sha {
        var found :| found in commits && h.commit(found) == sha;
        return Some(found);
      }
      return None;
    }

    method PostBlob(data: Bytes) returns (sha: Option<string>)
      requires Sound() && data in world.blobs
      modifies this`calls, this`blobs
      ensures Sound() && old(blobs) <= blobs && (sha.Some? ==> data in blobs)
      ensures Willing(outcome) ==> sha == Some(h.blob(data))
    {
      var o := Outcome();
      if o.Fails? {
        return None;
      }
      blobs := blobs + {data};
      sha := match o
        case Misnames(other) => Some(other)
        case Loses => None
        case _ => Some(h.blob(data));
    }

    method GetBlob(sha: string) returns (data: Option<Bytes>)
      modifies this`calls
      ensures data.Some? ==> data.value in blobs && h.blob(data.value) == sha
      ensures Willing(outcome) ==> (data.Some? <==> exists d :: d in blobs && h.blob(d) == sha)
    {
      var o := Outcome();
      if o.Answers? && exists d :: d in blobs && h.blob(d) == sha {
        var found :| found in blobs && h.blob(found) == sha;
        return Some(found);
      }
      return None;
    }

    /** The blobs that tree entries name. */
    method Resolve(entries: seq<TreeEntry>) returns (items: Option<seq<Item>>)
      requires Sound()
      ensures items.Some? ==>
                Names(h, entries, items.value) && forall item :: item in items.value ==> item.data in blobs
      ensures (forall e :: e in entries ==> exists data :: data in blobs && h.blob(data) == e.sha) ==> items.Some?
    {
      var resolved: seq<Item> := [];
      for i := 0 to |entries|
        invariant Names(h, entries[..i], resolved) && forall item :: item in resolved ==> item.data in blobs
      {
        if !exists data :: data in blobs && h.blob(data) == entries[i].sha {
          assert entries[i] in entries;
          return None;
        }
        var data :| data in blobs && h.blob(data) == entries[i].sha;
        resolved := resolved + [Item(entries[i].path, entries[i].mode, data)];
      }
      assert entries[..|entries|] == entries;
      return Some(resolved);
    }

    lemma NamesOnce(entries: seq<TreeEntry>, a: seq<Item>, b: seq<Item>)
      requires Sound() && Names(h, entries, a) && Names(h, entries, b)
      requires forall item :: item in a + b ==> item.data in world.blobs
      ensures a == b
    {
      forall i | 0 <= i < |a| ensures a[i] == b[i] {
        assert a[i] in a + b && b[i] in a + b;
      }
    }

    /** A tree from blobs alone. */
    method PostTree(entries: seq<TreeEntry>, ghost items: seq<Item>) returns (sha: Option<string>)
      requires Sound() && Names(h, entries, items) && (forall item :: item in items ==> item.data in blobs)
      requires Parts(BuiltFrom(items)) <= world.trees
      modifies this`calls, this`trees
      ensures Sound() && old(trees) <= trees
      ensures sha.Some? ==> Buildable(items) && Named(sha.value, BuiltFrom(items))
      ensures Willing(outcome) ==> (sha.Some? <==> Buildable(items))
    {
      var o := Outcome();
      forall e | e in entries ensures exists data :: data in blobs && h.blob(data) == e.sha {
        var i :| 0 <= i < |entries| && entries[i] == e;
        assert items[i] in items && h.blob(items[i].data) == e.sha;
      }
      var resolved := Resolve(entries);
      NamesOnce(entries, items, resolved.value);
      if o.Fails? || !Buildable(resolved.value) {
        return None;
      }
      BuiltFromIsBuilt(items);
      BuiltWellFormed(BuiltFrom(items), items);
      BuiltBytes(BuiltFrom(items), items, blobs);
      WholeIsPart(BuiltFrom(items));
      Store(BuiltFrom(resolved.value));
      sha := if o.Answers? then Some(h.tree(BuiltFrom(resolved.value))) else None;
    }

    method GetTree(sha: string) returns (t: Option<Tree>)
      modifies this`calls
      ensures t.Some? ==> Named(sha, t.value)
      ensures Willing(outcome) ==> (t.Some? <==> IsStored(h, trees, sha))
    {
      var o := Outcome();
      if o.Answers? && exists t :: t in trees && h.tree(t) == sha {
        var found :| found in trees && h.tree(found) == sha;
        return Some(found);
      }
      return None;
    }

    /** The base tree with directories put into it. */
    method PostTreeOnBase(base: string, entries: seq<TreeEntry>, ghost t: Tree, ghost dirs: seq<Tree>)
      returns (sha: Option<string>)
      requires Sound() && Named(base, t) && |dirs| == |entries|
      requires forall i :: 0 <= i < |dirs| ==> Named(entries[i].sha, dirs[i])
      requires forall i :: 0 <= i < |dirs| ==> forall c :: c in Split(entries[i].path, '/') ==> IsComponent(c)
      requires Parts(GraftedAll(t, entries, dirs)) <= world.trees
      modifies this`calls, this`trees
      ensures Sound() && old(trees) <= trees
      ensures sha.Some? ==> Named(sha.value, GraftedAll(t, entries, dirs))
      ensures Willing(outcome) ==> sha.Some?
    {
      var o := Outcome();
      if o.Fails? {
        return None;
      }
      var result := GraftEntries(base, entries, t, dirs);
      WholeIsPart(result);
      Store(result);
      sha := if o.Answers? then Some(h.tree(result)) else None;
    }

    method GraftEntries(base: string, entries: seq<TreeEntry>, ghost t: Tree, ghost dirs: seq<Tree>)
      returns (result: Tree)
      requires Sound() && Named(base, t) && |dirs| == |entries|
      requires forall i :: 0 <= i < |dirs| ==> Named(entries[i].sha, dirs[i])
      requires forall i :: 0 <= i < |dirs| ==> forall c :: c in Split(entries[i].path, '/') ==> IsComponent(c)
      ensures WellFormed(result) && BytesIn(result, blobs) && result == GraftedAll(t, entries, dirs)
    {
      result :| result in trees && h.tree(result) == base;
      assert entries[..0] == [] && dirs[..0] == [];
      for i := 0 to |entries|
        invariant WellFormed(result) && BytesIn(result, blobs) && result == GraftedAll(t, entries[..i], dirs[..i])
      {
        var dir :| dir in trees && h.tree(dir) == entries[i].sha;
        assert Named(entries[i].sha, dirs[i]) && dir == dirs[i];
        NoRoot(dir);
        GraftedWellFormed(result, Split(entries[i].path, '/'), dir);
        GraftedBytes(result, Split(entries[i].path, '/'), dir, blobs);
        OneMoreGraft(t, entries, dirs, i);
        result := Grafted(result, Split(entries[i].path, '/'), dir);
      }
      assert entries[..|entries|] == entries && dirs[..|entries|] == dirs;
    }

    method Store(t: Tree)
      requires Sound() && WellFormed(t) && Parts(t) <= world.trees && BytesIn(t, blobs)
      modifies this`trees
      ensures Sound() && trees == old(trees) + Parts(t)
    {
      forall b | b in Parts(t) ensures WellFormed(b) && Parts(b) <= Parts(t) && BytesIn(b, blobs) {
        PartsWellFormed(t, b);
        PartsClosed(t, b);
        var p := PartOf(t, b);
        BelowBytes(t, p, blobs);
      }
      trees := trees + Parts(t);
      forall c | c in commits ensures IsStored(h, trees, c.tree) {
        assert IsStored(h, old(trees), c.tree);
      }
    }

    method PostCommit(c: Commit, ghost t: Tree) returns (sha: Option<string>)
      requires Sound() && c in world.commits && Named(c.tree, t)
      modifies this`calls, this`commits
      ensures Sound() && old(commits) <= commits
      ensures sha.Some? ==> sha.value == h.commit(c) && c in commits
      ensures Willing(outcome) ==> sha.Some?
    {
      var o := Outcome();
      if o.Fails? {
        return None;
      }
      assert IsStored(h, trees, c.tree);
      commits := commits + {c};
      sha := if o.Answers? then Some(h.commit(c)) else None;
    }

    method PatchRef(branch: string, sha: string) returns (ok: bool)
      modifies this`calls, this`refs
      ensures refs == old(refs)[branch := sha] || (refs == old(refs) && !ok)
      ensures Willing(outcome) ==> ok
    {
      var o := Outcome();
      if !o.Fails? {
        refs := refs[branch := sha];
      }
      ok := o.Answers?;
    }
  }
}
