/** `validateContainedLinks` of worker/recipe_capture.go and what its verdict means for every
    pathname resolution in the tree the links are later created in. */
module ContainedLinks {
  import opened Text
  import opened Resolution

  const MAX_TARGET := 512
  const MAX_FOLLOWED := 32

  // ----- the check, as a specification -----

  /** What one link's walk must survive: `parts` is where it stands, `seen` the links followed. */
  predicate WalkAccepted(links: map<string, string>, valid: string -> bool,
                         parts: seq<string>, remaining: seq<string>, seen: set<string>)
    decreases links.Keys - seen, |remaining|
  {
    if remaining == [] then true
    else
      var part, rest := remaining[0], remaining[1..];
      if part == ".." then
        parts != [] && WalkAccepted(links, valid, parts[..|parts| - 1], rest, seen)
      else if part == "." then
        WalkAccepted(links, valid, parts, rest, seen)
      else
        var resolved := Join(parts + [part], '/');
        && valid(part)
        && if resolved in links then
             && resolved !in seen && |seen| <= MAX_FOLLOWED && !HasPrefix(links[resolved], "/")
             && WalkAccepted(links, valid, parts, Split(links[resolved], '/') + rest, seen + {resolved})
           else
             WalkAccepted(links, valid, parts + [part], rest, seen)
  }

  function Parent(path: string): seq<string> {
    var parts := Split(path, '/');
    parts[..|parts| - 1]
  }

  predicate LinkAccepted(links: map<string, string>, valid: string -> bool, path: string)
    requires path in links
  {
    var target := links[path];
    && target != "" && |target| <= MAX_TARGET && !HasPrefix(target, "/")
    && WalkAccepted(links, valid, Parent(path), Split(target, '/'), {path})
  }

  predicate LinksAccepted(links: map<string, string>, valid: string -> bool) {
    forall path :: path in links ==> LinkAccepted(links, valid, path)
  }

  // ----- the check, as the loops of the source -----

  method ValidateLink(links: map<string, string>, valid: string -> bool, path: string) returns (ok: bool)
    requires path in links
    ensures ok == LinkAccepted(links, valid, path)
  {
    var target := links[path];
    if target == "" || |target| > MAX_TARGET || HasPrefix(target, "/") {
      return false;
    }
    var parts := Parent(path);
    var remaining := Split(target, '/');
    var seen := {path};
    while |remaining| > 0
      invariant WalkAccepted(links, valid, parts, remaining, seen)
             == WalkAccepted(links, valid, Parent(path), Split(target, '/'), {path})
      decreases links.Keys - seen, |remaining|
    {
      var part := remaining[0];
      remaining := remaining[1..];
      if part == ".." {
        if |parts| == 0 {
          return false;
        }
        parts := parts[..|parts| - 1];
      } else if part != "." {
        if !valid(part) {
          return false;
        }
        parts := parts + [part];
        var resolved := Join(parts, '/');
        if resolved in links {
          var link := links[resolved];
          if resolved in seen || |seen| > MAX_FOLLOWED || HasPrefix(link, "/") {
            return false;
          }
          seen := seen + {resolved};
          parts := parts[..|parts| - 1];
          remaining := Split(link, '/') + remaining;
        }
      }
    }
    return true;
  }

  /** The map is visited in no particular order. */
  method ValidateContainedLinks(links: map<string, string>, valid: string -> bool) returns (ok: bool)
    ensures ok == LinksAccepted(links, valid)
  {
    var pending := links.Keys;
    while pending != {}
      invariant pending <= links.Keys
      invariant forall path :: path in links && path !in pending ==> LinkAccepted(links, valid, path)
    {
      var path :| path in pending;
      var accepted := ValidateLink(links, valid, path);
      if !accepted {
        return false;
      }
      pending := pending - {path};
    }
    return true;
  }

  // ----- soundness: acceptance confines every resolution -----

  /** At `p` the tree holds a listed link, something else that is not listed, or nothing. */
  predicate AgreeAt(links: map<string, string>, tree: Tree, p: seq<string>) {
    var key := Join(p, '/');
    p in tree ==>
      if tree[p].Symlink? then key in links && links[key] == tree[p].target else key !in links
  }

  /** `links` lists every symbolic link of `tree`, under slash-joined paths; listed links need not
      have been created yet. */
  ghost predicate ListsLinks(links: map<string, string>, tree: Tree) {
    forall p {:trigger AgreeAt(links, tree, p)} :: IsPath(p) ==> AgreeAt(links, tree, p)
  }

  /** The place after the next component. */
  function Next(links: map<string, string>, at: Place): Place {
    if at.rest == [] || (at.rest[0] == ".." && at.dir == []) then at
    else
      var part, rest := at.rest[0], at.rest[1..];
      var resolved := Join(at.dir + [part], '/');
      if part == ".." then Place(at.dir[..|at.dir| - 1], rest, at.seen)
      else if part == "." then Place(at.dir, rest, at.seen)
      else if resolved in links then Place(at.dir, Split(links[resolved], '/') + rest, at.seen + {resolved})
      else Place(at.dir + [part], rest, at.seen)
  }

  predicate Stands(tree: Tree, links: map<string, string>, valid: string -> bool, at: Place) {
    && IsDirectory(tree, at.dir) && (forall i :: 0 <= i < |at.rest| ==> '/' !in at.rest[i])
    && WalkAccepted(links, valid, at.dir, at.rest, at.seen)
  }

  function Accepting(tree: Tree, links: map<string, string>, valid: string -> bool): Place -> bool {
    at => Stands(tree, links, valid, at)
  }

  function Following(links: map<string, string>): Place -> Place {
    at => Next(links, at)
  }

  /** One component: the kernel settles, or the check follows. */
  lemma StepShadowsKernel(tree: Tree, links: map<string, string>, valid: string -> bool, at: Place, tail: seq<string>)
    requires WellFormed(tree) && ListsLinks(links, tree)
    requires forall s :: valid(s) ==> s != ""
    requires at.rest != [] && Stands(tree, links, valid, at)
    ensures InStep(tree, links.Keys, Accepting(tree, links, valid), Following(links), at, tail)
  {
    var part, rest := at.rest[0], at.rest[1..];
    assert (at.rest + tail)[1..] == rest + tail;
    if part == ".." {
      assert Placed(tree, at.dir);
    } else if part != "." {
      var p := at.dir + [part];
      DirectoryNames(tree, at.dir);
      assert AgreeAt(links, tree, p);
      var resolved := Join(p, '/');
      if resolved in links {
        assert Split(links[resolved], '/') + (rest + tail) == Next(links, at).rest + tail;
        assert resolved in links.Keys - at.seen;
      }
    }
  }

  lemma DirectoryNames(tree: Tree, dir: seq<string>)
    requires WellFormed(tree) && IsDirectory(tree, dir)
    ensures forall i :: 0 <= i < |dir| ==> IsName(dir[i])
  {
    assert dir != [] ==> Placed(tree, dir);
  }

  lemma CheckShadows(tree: Tree, links: map<string, string>, valid: string -> bool)
    requires WellFormed(tree) && ListsLinks(links, tree)
    requires forall s :: valid(s) ==> s != ""
    ensures Shadows(tree, links.Keys, Accepting(tree, links, valid), Following(links))
  {
    forall at, tail | Stands(tree, links, valid, at) && at.rest != []
      ensures InStep(tree, links.Keys, Accepting(tree, links, valid), Following(links), at, tail)
    {
      StepShadowsKernel(tree, links, valid, at, tail);
    }
  }

  /** If the check accepts the links of a tree, no path without `..` can leave the root of that
      tree, from any directory in it, through any nesting of links, and resolution terminates. */
  lemma AcceptedLinksContainAll(tree: Tree, links: map<string, string>, valid: string -> bool)
    requires WellFormed(tree) && ListsLinks(links, tree)
    requires forall s :: valid(s) ==> s != ""
    requires LinksAccepted(links, valid)
    ensures AllContained(tree)
  {
    forall p | p in tree && tree[p].Symlink? && p != [] ensures LinkPasses(tree, p) {
      var dir, key := p[..|p| - 1], Join(p, '/');
      assert Placed(tree, p);
      assert AgreeAt(links, tree, p);
      SplitJoin(p, '/');
      assert LinkAccepted(links, valid, key);
      CheckShadows(tree, links, valid);
      forall tail ensures Resumes(tree, dir, Split(tree[p].target, '/'), tail) {
        var n, after := WalkPasses(tree, links.Keys, Accepting(tree, links, valid), Following(links),
                                   Place(dir, Split(links[key], '/'), {key}), tail);
      }
    }
    PassingLinksContainAll(tree);
  }

  // ----- exactness: what a link that meets no other link needs -----

  /** Directory levels gained by a component list, with `..` as -1. */
  function Climb(parts: seq<string>): int {
    if parts == [] then 0
    else (if parts[0] == ".." then -1 else if parts[0] == "." then 0 else 1) + Climb(parts[1..])
  }

  /** No directory that the components name on their way is itself a link. */
  predicate MeetsNoLink(links: map<string, string>, parts: seq<string>, remaining: seq<string>)
    decreases |remaining|
  {
    if remaining == [] then true
    else if remaining[0] == ".." then
      MeetsNoLink(links, if parts == [] then [] else parts[..|parts| - 1], remaining[1..])
    else if remaining[0] == "." then MeetsNoLink(links, parts, remaining[1..])
    else
      && Join(parts + [remaining[0]], '/') !in links
      && MeetsNoLink(links, parts + [remaining[0]], remaining[1..])
  }

  /** Such a walk is accepted exactly when every component is valid and no prefix of it climbs
      more levels than lie above it. */
  lemma {:induction false} LexicalWalkAcceptedIff(
      links: map<string, string>, valid: string -> bool,
      parts: seq<string>, remaining: seq<string>, seen: set<string>)
    requires MeetsNoLink(links, parts, remaining)
    ensures WalkAccepted(links, valid, parts, remaining, seen) <==>
            && (forall i :: 0 <= i < |remaining| ==>
                  remaining[i] == "." || remaining[i] == ".." || valid(remaining[i]))
            && (forall k :: 0 <= k <= |remaining| ==> |parts| + Climb(remaining[..k]) >= 0)
    decreases |remaining|
  {
    if remaining == [] {
      return;
    }
    var c, rest := remaining[0], remaining[1..];
    var next := if c == ".." then (if parts == [] then [] else parts[..|parts| - 1])
                else if c == "." then parts else parts + [c];
    LexicalWalkAcceptedIff(links, valid, next, rest, seen);
    forall k | 1 <= k <= |remaining|
      ensures Climb(remaining[..k]) == Climb([c]) + Climb(rest[..k - 1])
    {
      assert remaining[..k][1..] == rest[..k - 1];
      assert [c][1..] == [];
    }
    if c == ".." && parts == [] {
      assert |parts| + Climb(remaining[..1]) < 0;
    } else {
      forall k | 0 <= k <= |rest|
        ensures |next| + Climb(rest[..k]) == |parts| + Climb(remaining[..k + 1])
      {
        assert Climb(remaining[..k + 1]) == Climb([c]) + Climb(rest[..(k + 1) - 1]);
      }
      assert |parts| + Climb(remaining[..0]) >= 0;
      if forall k :: 0 <= k <= |remaining| ==> |parts| + Climb(remaining[..k]) >= 0 {
        forall k | 0 <= k <= |rest| ensures |next| + Climb(rest[..k]) >= 0 {
          assert |parts| + Climb(remaining[..k + 1]) >= 0;
        }
      }
      if forall k :: 0 <= k <= |rest| ==> |next| + Climb(rest[..k]) >= 0 {
        forall k | 0 <= k <= |remaining| ensures |parts| + Climb(remaining[..k]) >= 0 {
          if k > 0 {
            assert |next| + Climb(rest[..k - 1]) >= 0;
          }
        }
      }
      assert forall i :: 0 <= i < |rest| ==> rest[i] == remaining[i + 1];
    }
  }

  // ----- exactness: what refuses a link that meets others -----

  /** The next component leaves the root, is no valid component, or leads to a link that was followed
      before, is one too many, or is absolute. */
  predicate Refuses(links: map<string, string>, valid: string -> bool, at: Place) {
    at.rest != [] &&
    var part := at.rest[0];
    var resolved := Join(at.dir + [part], '/');
    if part == ".." then at.dir == []
    else if part == "." then false
    else
      || !valid(part)
      || (resolved in links && (resolved in at.seen || |at.seen| > MAX_FOLLOWED || HasPrefix(links[resolved], "/")))
  }

  function After(links: map<string, string>, at: Place, n: nat): Place
    decreases n
  {
    if n == 0 then at else After(links, Next(links, at), n - 1)
  }

  ghost predicate Refused(links: map<string, string>, valid: string -> bool, at: Place, n: nat) {
    Refuses(links, valid, After(links, at, n)) && forall k :: 0 <= k < n ==> !Refuses(links, valid, After(links, at, k))
  }

  /** A link, whatever links it follows, is rejected exactly if its walk comes to such a component. */
  lemma {:induction false} RejectedIff(links: map<string, string>, valid: string -> bool, at: Place)
    ensures !WalkAccepted(links, valid, at.dir, at.rest, at.seen) <==>
              exists n: nat :: Refused(links, valid, at, n)
    decreases links.Keys - at.seen, |at.rest|
  {
    if Refuses(links, valid, at) {
      assert Refused(links, valid, at, 0);
    } else if at.rest == [] {
      forall n: nat ensures !Refused(links, valid, at, n) {
        StandsStill(links, at, n);
      }
    } else {
      var next := Next(links, at);
      StepAccepted(links, valid, at);
      RejectedIff(links, valid, next);
      RefusedShifts(links, valid, at);
    }
  }

  lemma {:induction false} StandsStill(links: map<string, string>, at: Place, n: nat)
    requires at.rest == []
    ensures After(links, at, n) == at
    decreases n
  {
    if n > 0 {
      StandsStill(links, at, n - 1);
    }
  }

  lemma StepAccepted(links: map<string, string>, valid: string -> bool, at: Place)
    requires at.rest != [] && !Refuses(links, valid, at)
    ensures var next := Next(links, at);
            && WalkAccepted(links, valid, at.dir, at.rest, at.seen)
               == WalkAccepted(links, valid, next.dir, next.rest, next.seen)
            && (links.Keys - next.seen < links.Keys - at.seen
                || (next.seen == at.seen && |next.rest| < |at.rest|))
  {
    var resolved := Join(at.dir + [at.rest[0]], '/');
    if at.rest[0] != ".." && at.rest[0] != "." && resolved in links {
      assert resolved in links.Keys - at.seen && resolved !in links.Keys - (at.seen + {resolved});
    }
  }

  lemma RefusedShifts(links: map<string, string>, valid: string -> bool, at: Place)
    requires !Refuses(links, valid, at)
    ensures (exists n: nat :: Refused(links, valid, at, n)) <==>
            exists n: nat :: Refused(links, valid, Next(links, at), n)
  {
    if n: nat :| Refused(links, valid, at, n) {
      assert n > 0;
      assert forall k :: 0 <= k < n - 1 ==> After(links, Next(links, at), k) == After(links, at, k + 1);
      assert Refused(links, valid, Next(links, at), n - 1);
    }
    if n: nat :| Refused(links, valid, Next(links, at), n) {
      forall k | 0 <= k < n + 1 ensures !Refuses(links, valid, After(links, at, k)) {
        assert k > 0 ==> After(links, at, k) == After(links, Next(links, at), k - 1);
      }
      assert Refused(links, valid, at, n + 1);
    }
  }
}
