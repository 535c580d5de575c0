/** services/pipeline/archive-safety.ts: path validation and the two link-target resolvers. */
module ArchiveSafety {
  import opened Text
  import opened Resolution
  import opened Values

  const DEFAULT_PATH_BYTES := 4096

  /** A link whose target is null counts as one with an empty target. */
  datatype Entry = Entry(path: string, kind: string, target: string)

  predicate HasUnsafeCharacter(value: string) {
    exists c :: c in value && (c as int <= 0x1f || c as int == 0x7f || c == '\\')
  }

  function ValidateArchivePath(value: string, maxBytes: int): Result<string> {
    if value == "" || |value| > maxBytes || HasUnsafeCharacter(value) then Err
    else
      var normalized := if HasPrefix(value, "./") then value[2..] else value;
      if normalized == "" || normalized == "." || HasPrefix(normalized, "/") then Err
      else if exists part :: part in Split(normalized, '/') && (part == ".." || part == "." || part == "") then Err
      else Ok(normalized)
  }

  lemma ValidPathNames(value: string, maxBytes: int)
    requires ValidateArchivePath(value, maxBytes).Ok?
    ensures var path := ValidateArchivePath(value, maxBytes).value;
            IsPath(Split(path, '/')) && Join(Split(path, '/'), '/') == path
  {
    var parts := Split(ValidateArchivePath(value, maxBytes).value, '/');
    forall i | 0 <= i < |parts| ensures IsName(parts[i]) {
      assert parts[i] in parts;
    }
  }

  // ----- the lexical resolver -----

  function LexicalWalk(stack: seq<string>, parts: seq<string>): Result<seq<string>>
    decreases |parts|
  {
    if parts == [] then Ok(stack)
    else if parts[0] == "" || parts[0] == "." then LexicalWalk(stack, parts[1..])
    else if parts[0] == ".." then
      if stack == [] then Err else LexicalWalk(stack[..|stack| - 1], parts[1..])
    else LexicalWalk(stack + [parts[0]], parts[1..])
  }

  predicate UnsafeTarget(target: string, maxBytes: int) {
    target == "" || |target| > maxBytes || HasPrefix(target, "/") || DoubleSlash(target) || HasUnsafeCharacter(target)
  }

  predicate DoubleSlash(s: string) {
    exists i :: 0 <= i < |s| - 1 && s[i] == '/' && s[i + 1] == '/'
  }

  function Finish(walk: Result<seq<string>>, maxBytes: int): Result<string> {
    if walk.Err? || walk.value == [] then Err else ValidateArchivePath(Join(walk.value, '/'), maxBytes)
  }

  method ResolveArchiveLinkTarget(path: string, target: string, maxBytes: int) returns (r: Result<string>)
    ensures r == if UnsafeTarget(target, maxBytes) then Err
                 else Finish(LexicalWalk(Directories(path), Split(target, '/')), maxBytes)
  {
    if UnsafeTarget(target, maxBytes) {
      return Err;
    }
    var stack := Directories(path);
    var parts := Split(target, '/');
    var i := 0;
    while i < |parts|
      invariant 0 <= i <= |parts|
      invariant LexicalWalk(stack, parts[i..]) == LexicalWalk(Directories(path), parts)
    {
      var part := parts[i];
      assert parts[i..][0] == part && parts[i..][1..] == parts[i + 1..];
      i := i + 1;
      if part == "" || part == "." {
        continue;
      }
      if part == ".." {
        if stack == [] {
          return Err;
        }
        stack := stack[..|stack| - 1];
      } else {
        stack := stack + [part];
      }
    }
    if stack == [] {
      return Err;
    }
    return ValidateArchivePath(Join(stack, '/'), maxBytes);
  }

  function Directories(path: string): seq<string> {
    var parts := Split(path, '/');
    parts[..|parts| - 1]
  }

  // ----- the canonical resolver -----

  /** The walk along `pending` from `stack`, following the links of `byPath` not yet `followed`. */
  function CanonicalWalk(byPath: map<string, Entry>, isDirectory: Entry -> bool, isSymlink: Entry -> bool,
                         stack: seq<string>, pending: seq<string>, followed: set<string>): Result<seq<string>>
    decreases byPath.Keys - followed, |pending|
  {
    if pending == [] then Ok(stack)
    else
      var part, rest := pending[0], pending[1..];
      if part == "" || part == "." then
        CanonicalWalk(byPath, isDirectory, isSymlink, stack, rest, followed)
      else if part == ".." then
        if stack == [] then Err
        else CanonicalWalk(byPath, isDirectory, isSymlink, stack[..|stack| - 1], rest, followed)
      else
        var path := Join(stack + [part], '/');
        if path in byPath && isSymlink(byPath[path]) then
          if path in followed then Err
          else
            CanonicalWalk(byPath, isDirectory, isSymlink, stack, Split(byPath[path].target, '/') + rest,
                          followed + {path})
        else if path in byPath && !isDirectory(byPath[path]) && rest != [] then Err
        else CanonicalWalk(byPath, isDirectory, isSymlink, stack + [part], rest, followed)
  }

  function StartStack(start: string): seq<string> {
    if start == "" then [] else Split(start, '/')
  }

  method ResolveCanonicalArchivePath(start: string, input: string, byPath: map<string, Entry>,
                                     isDirectory: Entry -> bool, isSymlink: Entry -> bool)
    returns (r: Result<string>)
    ensures r == Finish(CanonicalWalk(byPath, isDirectory, isSymlink, StartStack(start), Split(input, '/'), {}),
                        DEFAULT_PATH_BYTES)
  {
    var stack, pending := StartStack(start), Split(input, '/');
    var followed := {};
    while |pending| > 0
      invariant CanonicalWalk(byPath, isDirectory, isSymlink, stack, pending, followed)
             == CanonicalWalk(byPath, isDirectory, isSymlink, StartStack(start), Split(input, '/'), {})
      decreases byPath.Keys - followed, |pending|
    {
      var part := pending[0];
      pending := pending[1..];
      if part == "" || part == "." {
        continue;
      }
      if part == ".." {
        if stack == [] {
          return Err;
        }
        stack := stack[..|stack| - 1];
        continue;
      }
      stack := stack + [part];
      var path := Join(stack, '/');
      if path in byPath && isSymlink(byPath[path]) {
        if path in followed {
          return Err;
        }
        followed := followed + {path};
        stack := stack[..|stack| - 1];
        pending := Split(byPath[path].target, '/') + pending;
      } else if path in byPath && !isDirectory(byPath[path]) && |pending| > 0 {
        return Err;
      }
    }
    if stack == [] {
      return Err;
    }
    return ValidateArchivePath(Join(stack, '/'), DEFAULT_PATH_BYTES);
  }

  // ----- how the two agree -----

  /** No component that `parts` names on its way is an entry to follow or to refuse. */
  predicate NothingToFollow(byPath: map<string, Entry>, isDirectory: Entry -> bool, isSymlink: Entry -> bool,
                            stack: seq<string>, parts: seq<string>)
    decreases |parts|
  {
    if parts == [] then true
    else if parts[0] == "" || parts[0] == "." then
      NothingToFollow(byPath, isDirectory, isSymlink, stack, parts[1..])
    else if parts[0] == ".." then
      NothingToFollow(byPath, isDirectory, isSymlink, if stack == [] then [] else stack[..|stack| - 1], parts[1..])
    else
      var path := Join(stack + [parts[0]], '/');
      && (path in byPath ==> !isSymlink(byPath[path]) && (isDirectory(byPath[path]) || |parts| == 1))
      && NothingToFollow(byPath, isDirectory, isSymlink, stack + [parts[0]], parts[1..])
  }

  lemma {:induction false} CanonicalAgreesWithLexical(
      byPath: map<string, Entry>, isDirectory: Entry -> bool, isSymlink: Entry -> bool,
      stack: seq<string>, parts: seq<string>, followed: set<string>)
    requires NothingToFollow(byPath, isDirectory, isSymlink, stack, parts)
    ensures CanonicalWalk(byPath, isDirectory, isSymlink, stack, parts, followed) == LexicalWalk(stack, parts)
    decreases |parts|
  {
    if parts != [] {
      var rest := parts[1..];
      if parts[0] == "" || parts[0] == "." {
        CanonicalAgreesWithLexical(byPath, isDirectory, isSymlink, stack, rest, followed);
      } else if parts[0] == ".." {
        if stack != [] {
          CanonicalAgreesWithLexical(byPath, isDirectory, isSymlink, stack[..|stack| - 1], rest, followed);
        }
      } else {
        CanonicalAgreesWithLexical(byPath, isDirectory, isSymlink, stack + [parts[0]], rest, followed);
      }
    }
  }

  // ----- what acceptance means for the kernel -----

  /** At `p` the tree holds what `byPath` lists, a directory it does not list, or nothing. */
  predicate ListedAt(byPath: map<string, Entry>, isSymlink: Entry -> bool, tree: Tree, p: seq<string>) {
    var key := Join(p, '/');
    p in tree ==>
      if tree[p].Symlink? then key in byPath && isSymlink(byPath[key]) && byPath[key].target == tree[p].target
      else if tree[p].Regular? then key in byPath && !isSymlink(byPath[key])
      else key in byPath ==> !isSymlink(byPath[key])
  }

  ghost predicate Listed(byPath: map<string, Entry>, isSymlink: Entry -> bool, tree: Tree) {
    forall p {:trigger ListedAt(byPath, isSymlink, tree, p)} :: IsPath(p) ==> ListedAt(byPath, isSymlink, tree, p)
  }

  /** Link targets are never absolute; `resolveArchiveLinkTarget` has seen to it. */
  ghost predicate RelativeLinks(byPath: map<string, Entry>, isSymlink: Entry -> bool) {
    forall key :: key in byPath && isSymlink(byPath[key]) ==> !HasPrefix(byPath[key].target, "/")
  }

  /** The place after the next component. */
  function Next(byPath: map<string, Entry>, isSymlink: Entry -> bool, at: Place): Place {
    if at.rest == [] || (at.rest[0] == ".." && at.dir == []) then at
    else
      var part, rest := at.rest[0], at.rest[1..];
      var path := Join(at.dir + [part], '/');
      if part == "" || part == "." then Place(at.dir, rest, at.seen)
      else if part == ".." then Place(at.dir[..|at.dir| - 1], rest, at.seen)
      else if path in byPath && isSymlink(byPath[path]) then
        Place(at.dir, Split(byPath[path].target, '/') + rest, at.seen + {path})
      else Place(at.dir + [part], rest, at.seen)
  }

  predicate Stands(tree: Tree, byPath: map<string, Entry>, isDirectory: Entry -> bool, isSymlink: Entry -> bool,
                   at: Place) {
    && IsDirectory(tree, at.dir) && (forall i :: 0 <= i < |at.rest| ==> '/' !in at.rest[i])
    && CanonicalWalk(byPath, isDirectory, isSymlink, at.dir, at.rest, at.seen).Ok?
  }

  function Accepting(tree: Tree, byPath: map<string, Entry>, isDirectory: Entry -> bool, isSymlink: Entry -> bool)
    : Place -> bool
  {
    at => Stands(tree, byPath, isDirectory, isSymlink, at)
  }

  function Following(byPath: map<string, Entry>, isSymlink: Entry -> bool): Place -> Place {
    at => Next(byPath, isSymlink, at)
  }

  /** One component: the kernel settles, or the resolver follows. */
  lemma StepShadowsKernel(tree: Tree, byPath: map<string, Entry>, isDirectory: Entry -> bool,
                          isSymlink: Entry -> bool, at: Place, tail: seq<string>)
    requires WellFormed(tree) && Listed(byPath, isSymlink, tree) && RelativeLinks(byPath, isSymlink)
    requires at.rest != [] && Stands(tree, byPath, isDirectory, isSymlink, at)
    ensures InStep(tree, byPath.Keys, Accepting(tree, byPath, isDirectory, isSymlink),
                   Following(byPath, isSymlink), at, tail)
  {
    var part, rest := at.rest[0], at.rest[1..];
    assert (at.rest + tail)[1..] == rest + tail;
    assert at.dir != [] ==> Placed(tree, at.dir);
    if part != "" && part != "." && part != ".." {
      var p := at.dir + [part];
      assert ListedAt(byPath, isSymlink, tree, p);
      var path := Join(p, '/');
      if path in byPath && isSymlink(byPath[path]) {
        assert Split(byPath[path].target, '/') + (rest + tail) == Next(byPath, isSymlink, at).rest + tail;
        assert path in byPath.Keys - at.seen;
      }
    }
  }

  lemma ResolverShadows(tree: Tree, byPath: map<string, Entry>, isDirectory: Entry -> bool, isSymlink: Entry -> bool)
    requires WellFormed(tree) && Listed(byPath, isSymlink, tree) && RelativeLinks(byPath, isSymlink)
    ensures Shadows(tree, byPath.Keys, Accepting(tree, byPath, isDirectory, isSymlink),
                    Following(byPath, isSymlink))
  {
    forall at, tail | Stands(tree, byPath, isDirectory, isSymlink, at) && at.rest != []
      ensures InStep(tree, byPath.Keys, Accepting(tree, byPath, isDirectory, isSymlink),
                     Following(byPath, isSymlink), at, tail)
    {
      StepShadowsKernel(tree, byPath, isDirectory, isSymlink, at, tail);
    }
  }

  /** Every link, walked from its own directory, has been accepted. */
  ghost predicate LinksResolve(byPath: map<string, Entry>, isDirectory: Entry -> bool, isSymlink: Entry -> bool) {
    forall key :: key in byPath && isSymlink(byPath[key]) ==>
      CanonicalWalk(byPath, isDirectory, isSymlink, Directories(key), Split(byPath[key].target, '/'), {}).Ok?
  }

  /** Accepted links confine the resolution of every path without `..`, from every directory. */
  lemma AcceptedLinksContainAll(tree: Tree, byPath: map<string, Entry>,
                                isDirectory: Entry -> bool, isSymlink: Entry -> bool)
    requires WellFormed(tree) && Listed(byPath, isSymlink, tree) && RelativeLinks(byPath, isSymlink)
    requires LinksResolve(byPath, isDirectory, isSymlink)
    ensures AllContained(tree)
  {
    forall p | p in tree && tree[p].Symlink? && p != [] ensures LinkPasses(tree, p) {
      var dir, key := p[..|p| - 1], Join(p, '/');
      assert Placed(tree, p);
      assert ListedAt(byPath, isSymlink, tree, p);
      SplitJoin(p, '/');
      assert Directories(key) == dir;
      ResolverShadows(tree, byPath, isDirectory, isSymlink);
      forall tail ensures Resumes(tree, dir, Split(tree[p].target, '/'), tail) {
        var n, after := WalkPasses(tree, byPath.Keys, Accepting(tree, byPath, isDirectory, isSymlink),
                                   Following(byPath, isSymlink), Place(dir, Split(byPath[key].target, '/'), {}),
                                   tail);
      }
    }
    PassingLinksContainAll(tree);
  }
}
