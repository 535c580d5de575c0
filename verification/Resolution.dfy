/** Pathname resolution as a small-step machine, after section 4.13 (Pathname Resolution) of
    POSIX.1-2017 Base Definitions, on the directory tree a client unpacks below some root. */
module Resolution {
  import opened Text

  datatype Node = Directory | Regular | Symlink(target: string)

  /** Component lists relative to the root. The root itself, [], is always a directory. */
  type Tree = map<seq<string>, Node>

  predicate IsName(c: string) {
    c != "" && c != "." && c != ".." && '/' !in c
  }

  predicate IsPath(p: seq<string>) {
    p != [] && forall i :: 0 <= i < |p| ==> IsName(p[i])
  }

  predicate IsDirectory(tree: Tree, p: seq<string>) {
    p == [] || (p in tree && tree[p] == Directory)
  }

  predicate Placed(tree: Tree, p: seq<string>) {
    IsPath(p) && IsDirectory(tree, p[..|p| - 1])
  }

  /** Every node has a real directory as its parent: in particular, nothing lies below a link. */
  ghost predicate WellFormed(tree: Tree) {
    forall p {:trigger Placed(tree, p)} :: p in tree ==> Placed(tree, p)
  }

  /** `At` has reached directory `dir` with components `rest` to go; `Outside` has left the root. */
  datatype Walk =
    | At(dir: seq<string>, rest: seq<string>)
    | Found(path: seq<string>)
    | NotFound
    | NotDirectory
    | Outside

  function Step(tree: Tree, w: Walk): Walk {
    if !w.At? then w
    else if w.rest == [] then Found(w.dir)
    else
      var c, rest := w.rest[0], w.rest[1..];
      if c == "" || c == "." then At(w.dir, rest)
      else if c == ".." then
        if w.dir == [] then Outside else At(w.dir[..|w.dir| - 1], rest)
      else
        var p := w.dir + [c];
        if p !in tree then NotFound
        else match tree[p]
          case Directory => At(p, rest)
          case Regular => if rest == [] then Found(p) else NotDirectory
          case Symlink(target) =>
            if target == "" then NotFound
            else if HasPrefix(target, "/") then Outside
            else At(w.dir, Split(target, '/') + rest)
  }

  function Run(tree: Tree, w: Walk, n: nat): Walk
    decreases n
  {
    if n == 0 then w else Run(tree, Step(tree, w), n - 1)
  }

  /** Resolution has ended, inside the root. */
  predicate Settled(w: Walk) {
    !w.At? && !w.Outside?
  }

  /** Resolution from `w` ends after finitely many steps, and never leaves the root on the way. */
  ghost predicate Contained(tree: Tree, w: Walk) {
    exists n: nat :: Settled(Run(tree, w, n))
  }

  /** The guarantee the link checks exist for: every path without `..`, from every directory. */
  ghost predicate AllContained(tree: Tree) {
    forall dir: seq<string>, path: seq<string> ::
      IsDirectory(tree, dir) && ".." !in path ==> Contained(tree, At(dir, path))
  }

  lemma {:induction false} RunAdds(tree: Tree, w: Walk, m: nat, n: nat)
    ensures Run(tree, w, m + n) == Run(tree, Run(tree, w, m), n)
    decreases m
  {
    if m > 0 {
      RunAdds(tree, Step(tree, w), m - 1, n);
    }
  }

  /** Leaving the root cannot be undone, so a contained resolution is inside at every step. */
  lemma {:induction false} ContainedNeverOutside(tree: Tree, w: Walk, m: nat)
    requires Contained(tree, w)
    ensures !Run(tree, w, m).Outside?
  {
    var n: nat :| Settled(Run(tree, w, n));
    if Run(tree, w, m).Outside? {
      RunAdds(tree, w, m, n);
      RunAdds(tree, w, n, m);
      Absorbed(tree, Run(tree, w, m), n);
      Absorbed(tree, Run(tree, w, n), m);
      assert false;
    }
  }

  lemma {:induction false} Absorbed(tree: Tree, w: Walk, n: nat)
    requires !w.At?
    ensures Run(tree, w, n) == w
    decreases n
  {
    if n > 0 {
      Absorbed(tree, w, n - 1);
    }
  }

  lemma {:induction false} StepContained(tree: Tree, w: Walk, n: nat)
    requires Contained(tree, Run(tree, w, n))
    ensures Contained(tree, w)
  {
    var m: nat :| Settled(Run(tree, Run(tree, w, n), m));
    RunAdds(tree, w, n, m);
  }

  // ----- from each link on its own to all paths -----

  /** After `n` steps along `comps`, resolution has settled or stands at `after` with `tail` to go. */
  ghost predicate Passes(tree: Tree, dir: seq<string>, comps: seq<string>, tail: seq<string>,
                         n: nat, after: seq<string>) {
    var w := Run(tree, At(dir, comps + tail), n);
    Settled(w) || (w == At(after, tail) && IsDirectory(tree, after))
  }

  ghost predicate Resumes(tree: Tree, dir: seq<string>, comps: seq<string>, tail: seq<string>) {
    exists n: nat, after :: Passes(tree, dir, comps, tail, n, after)
  }

  /** The target of the link at `p` is relative and passes, whatever follows it in the path. */
  ghost predicate LinkPasses(tree: Tree, p: seq<string>)
    requires p != [] && p in tree && tree[p].Symlink?
  {
    var dir, comps := p[..|p| - 1], Split(tree[p].target, '/');
    !HasPrefix(tree[p].target, "/") && forall tail :: Resumes(tree, dir, comps, tail)
  }

  // ----- checks that walk along one link -----

  /** Where such a check stands: a directory, the components to go, and the links it has followed. */
  datatype Place = Place(dir: seq<string>, rest: seq<string>, seen: set<string>)

  /** The check goes on in step with the kernel, unless the kernel settles first. */
  ghost predicate InStep(tree: Tree, links: set<string>, accepts: Place -> bool, next: Place -> Place, at: Place,
                         tail: seq<string>) {
    var w, to := Step(tree, At(at.dir, at.rest + tail)), next(at);
    || Settled(w)
    || (w == At(to.dir, to.rest + tail) && accepts(to)
        && ((to.seen == at.seen && |to.rest| < |at.rest|) || links - to.seen < links - at.seen))
  }

  /** Wherever the check can stand and still accept, it is in a directory and goes on in step. */
  ghost predicate Shadows(tree: Tree, links: set<string>, accepts: Place -> bool, next: Place -> Place) {
    && (forall at :: accepts(at) ==> IsDirectory(tree, at.dir))
    && (forall at, tail {:trigger InStep(tree, links, accepts, next, at, tail)} ::
          accepts(at) && at.rest != [] ==> InStep(tree, links, accepts, next, at, tail))
  }

  /** So either the kernel stops inside the root first, or it comes to stand where the check does, with
      only `tail` left. */
  lemma {:induction false} WalkPasses(tree: Tree, links: set<string>, accepts: Place -> bool, next: Place -> Place,
                                      at: Place, tail: seq<string>)
    returns (n: nat, dir: seq<string>)
    requires Shadows(tree, links, accepts, next) && accepts(at)
    ensures Passes(tree, at.dir, at.rest, tail, n, dir)
    decreases links - at.seen, |at.rest|
  {
    if at.rest == [] {
      assert at.rest + tail == tail;
      n, dir := 0, at.dir;
      return;
    }
    var w := At(at.dir, at.rest + tail);
    assert InStep(tree, links, accepts, next, at, tail);
    if Settled(Step(tree, w)) {
      assert Run(tree, w, 1) == Run(tree, Step(tree, w), 0);
      n, dir := 1, at.dir;
    } else {
      n, dir := WalkPasses(tree, links, accepts, next, next(at), tail);
      n := n + 1;
    }
  }

  /** If each link passes when followed from its own directory, then no path without `..` can
      leave the root, from any directory and through any nesting of links. */
  lemma {:induction false} PassingLinksContain(tree: Tree, dir: seq<string>, path: seq<string>)
    requires WellFormed(tree)
    requires forall p :: p in tree && tree[p].Symlink? && p != [] ==> LinkPasses(tree, p)
    requires IsDirectory(tree, dir) && ".." !in path
    ensures Contained(tree, At(dir, path))
    decreases |path|
  {
    var w := At(dir, path);
    var next := Step(tree, w);
    assert Run(tree, w, 1) == Run(tree, next, 0) == next;
    if path == [] || Settled(next) {
      assert Settled(Run(tree, w, 1));
      return;
    }
    var c, rest := path[0], path[1..];
    var p := dir + [c];
    if c != "" && c != "." && p in tree && tree[p].Symlink? {
      assert LinkPasses(tree, p) && p[..|p| - 1] == dir;
      assert Resumes(tree, dir, Split(tree[p].target, '/'), rest);
      var n: nat, after :| Passes(tree, dir, Split(tree[p].target, '/'), rest, n, after);
      if !Settled(Run(tree, next, n)) {
        PassingLinksContain(tree, after, rest);
      } else {
        assert Settled(Run(tree, Run(tree, next, n), 0));
      }
      StepContained(tree, next, n);
    } else {
      PassingLinksContain(tree, next.dir, rest);
    }
    StepContained(tree, w, 1);
  }

  lemma PassingLinksContainAll(tree: Tree)
    requires WellFormed(tree)
    requires forall p :: p in tree && tree[p].Symlink? && p != [] ==> LinkPasses(tree, p)
    ensures AllContained(tree)
  {
    forall dir: seq<string>, path: seq<string> | IsDirectory(tree, dir) && ".." !in path
      ensures Contained(tree, At(dir, path))
    {
      PassingLinksContain(tree, dir, path);
    }
  }
}
