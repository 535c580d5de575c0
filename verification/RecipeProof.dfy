/** The walk of `materializeRecipeCapture` (worker/recipe_capture.go) over the tree objects of a
    capture, against looking a path up in the Git tree component by component. */
module RecipeProof {
  import opened Text
  import opened GitTree
  import opened Values

  /** The supplied tree objects under their Git identities. */
  type Trees = map<string, seq<Entry>>

  const DIRECTORY := "40000"
  const MAX_DIRECTORIES := 2048
  const MAX_DEPTH := 32
  const MAX_FILES := 2048

  ghost predicate WellParsed(trees: Trees) {
    forall sha :: sha in trees ==> WellNamed(trees[sha])
  }

  ghost predicate WellNamed(entries: seq<Entry>) {
    DistinctNames(entries, {}) && forall e :: e in entries ==> GoodName(e.name)
  }

  // ----- the Git tree, one component at a time -----

  function Find(entries: seq<Entry>, name: string): Option<Entry> {
    if entries == [] then None else if entries[0].name == name then Some(entries[0]) else Find(entries[1..], name)
  }

  /** The file entry at the end of a path of components. */
  function LookupIn(trees: Trees, entries: seq<Entry>, comps: seq<string>): Option<Entry>
    decreases |comps|
  {
    if comps == [] then None
    else
      var e := Find(entries, comps[0]);
      if e.None? then None
      else if |comps| == 1 then (if e.value.mode == DIRECTORY then None else e)
      else if e.value.mode == DIRECTORY && e.value.sha in trees then LookupIn(trees, trees[e.value.sha], comps[1..])
      else None
  }

  /** The identity of the directory at the end of a path of components. */
  function TreeAt(trees: Trees, sha: string, comps: seq<string>): Option<string>
    decreases |comps|
  {
    if comps == [] then Some(sha)
    else if sha !in trees then None
    else
      var e := Find(trees[sha], comps[0]);
      if e.Some? && e.value.mode == DIRECTORY then TreeAt(trees, e.value.sha, comps[1..]) else None
  }

  function Lookup(trees: Trees, sha: string, comps: seq<string>): Option<Entry> {
    if sha in trees then LookupIn(trees, trees[sha], comps) else None
  }

  // ----- the walk -----

  predicate SafeRecipePath(value: string) {
    && |value| <= 512 && ValidUtf8(value) && '\\' !in value
    && (forall c :: c in value ==> c as int >= 32 && c as int != 127)
    && (forall part :: part in Split(value, '/') ==> part != "" && part != "." && part != ".." && !IsDotGit(part))
  }

  /** `strings.EqualFold(part, ".git")`; no other letters fold to these. */
  predicate IsDotGit(part: string) {
    && |part| == 4 && part[0] == '.'
    && (part[1] == 'g' || part[1] == 'G') && (part[2] == 'i' || part[2] == 'I') && (part[3] == 't' || part[3] == 'T')
  }

  function Slashes(s: string): nat {
    if s == "" then 0 else (if s[0] == '/' then 1 else 0) + Slashes(s[1..])
  }

  datatype State = State(directories: nat, expected: map<string, Entry>, used: set<string>)

  function Walk(trees: Trees, sha: string, prefix: string, s: State): (r: Option<State>)
    ensures r.Some? ==> s.directories < r.value.directories <= MAX_DIRECTORIES
    decreases if s.directories <= MAX_DIRECTORIES then MAX_DIRECTORIES - s.directories else 0, 0
  {
    if s.directories + 1 > MAX_DIRECTORIES || Slashes(prefix) > MAX_DEPTH || sha !in trees then None
    else WalkEntries(trees, trees[sha], prefix, State(s.directories + 1, s.expected, s.used + {sha}))
  }

  function WalkEntries(trees: Trees, entries: seq<Entry>, prefix: string, s: State): (r: Option<State>)
    requires s.directories <= MAX_DIRECTORIES
    ensures r.Some? ==> s.directories <= r.value.directories <= MAX_DIRECTORIES
    decreases MAX_DIRECTORIES - s.directories, |entries|
  {
    if entries == [] then Some(s)
    else
      var path := prefix + entries[0].name;
      if !SafeRecipePath(path) then None
      else if entries[0].mode == DIRECTORY then
        var below := Walk(trees, entries[0].sha, path + "/", s);
        if below.None? then None else WalkEntries(trees, entries[1..], prefix, below.value)
      else if |s.expected| >= MAX_FILES then None
      else WalkEntries(trees, entries[1..], prefix, s.(expected := s.expected[path := entries[0]]))
  }

  // ----- what the walk finds -----

  /** The file entry at a slash-joined path below the directory with these entries. */
  function FileBelow(trees: Trees, entries: seq<Entry>, path: string): Option<Entry> {
    LookupIn(trees, entries, Split(path, '/'))
  }

  function Held(expected: map<string, Entry>, path: string): Option<Entry> {
    if path in expected then Some(expected[path]) else None
  }

  /** `after` is `before` with the files of the directory put below `prefix`. */
  predicate FilledAt(trees: Trees, entries: seq<Entry>, prefix: string,
                     before: map<string, Entry>, after: map<string, Entry>, path: string) {
    Held(after, path) ==
    if HasPrefix(path, prefix) && FileBelow(trees, entries, path[|prefix|..]).Some? then
      FileBelow(trees, entries, path[|prefix|..])
    else Held(before, path)
  }

  ghost predicate Filled(trees: Trees, entries: seq<Entry>, prefix: string,
                         before: map<string, Entry>, after: map<string, Entry>) {
    forall path {:trigger FilledAt(trees, entries, prefix, before, after, path)} ::
      FilledAt(trees, entries, prefix, before, after, path)
  }

  lemma SplitSlashFree(name: string)
    requires '/' !in name
    ensures Split(name, '/') == [name]
  {
    SplitJoin([name], '/');
    assert Join([name], '/') == name;
  }

  lemma SplitBelow(name: string, rest: string)
    requires '/' !in name
    ensures Split(name + "/" + rest, '/') == [name] + Split(rest, '/')
  {
    var parts := [name] + Split(rest, '/');
    assert parts[1..] == Split(rest, '/');
    assert Join(parts, '/') == name + ['/'] + rest;
    SplitJoin(parts, '/');
  }

  /** The first component and what follows it. */
  lemma SplitHead(path: string)
    ensures var comps := Split(path, '/');
            && (|comps| == 1 ==> path == comps[0])
            && (|comps| > 1 ==>
                  && path == comps[0] + "/" + Join(comps[1..], '/')
                  && Split(Join(comps[1..], '/'), '/') == comps[1..])
  {
    var comps := Split(path, '/');
    if |comps| > 1 {
      SplitJoin(comps[1..], '/');
    }
  }

  lemma {:induction false} FindNamed(entries: seq<Entry>, name: string)
    ensures Find(entries, name).Some? <==> exists e :: e in entries && e.name == name
    ensures Find(entries, name).Some? ==> Find(entries, name).value in entries && Find(entries, name).value.name == name
  {
    if entries != [] {
      FindNamed(entries[1..], name);
    }
  }

  lemma TailWellNamed(entries: seq<Entry>)
    requires WellNamed(entries) && entries != []
    ensures WellNamed(entries[1..]) && '/' !in entries[0].name
    ensures Find(entries[1..], entries[0].name).None?
  {
    FindNamed(entries[1..], entries[0].name);
    assert entries[0] in entries;
    forall i, j | 0 <= i < j < |entries[1..]| ensures entries[1..][i].name != entries[1..][j].name {
      assert entries[i + 1].name != entries[j + 1].name;
    }
  }

  /** Where a path starts with the first entry's name, that entry decides. */
  lemma FileHead(trees: Trees, entries: seq<Entry>, path: string)
    requires WellNamed(entries) && entries != []
    ensures var comps, e := Split(path, '/'), entries[0];
            if comps[0] != e.name then FileBelow(trees, entries, path) == FileBelow(trees, entries[1..], path)
            else
              && FileBelow(trees, entries[1..], path).None?
              && FileBelow(trees, entries, path) ==
                 if |comps| == 1 then (if e.mode == DIRECTORY then None else Some(e))
                 else if e.mode == DIRECTORY && e.sha in trees then LookupIn(trees, trees[e.sha], comps[1..])
                 else None
  {
    TailWellNamed(entries);
  }

  lemma FilledByFile(trees: Trees, entries: seq<Entry>, prefix: string, before: map<string, Entry>, after: map<string,
                     Entry>)
    requires WellNamed(entries) && entries != [] && entries[0].mode != DIRECTORY
    requires Filled(trees, entries[1..], prefix, before[prefix + entries[0].name := entries[0]], after)
    ensures Filled(trees, entries, prefix, before, after)
  {
    var e := entries[0];
    var mid := before[prefix + e.name := e];
    TailWellNamed(entries);
    SplitSlashFree(e.name);
    forall path ensures FilledAt(trees, entries, prefix, before, after, path) {
      assert FilledAt(trees, entries[1..], prefix, mid, after, path);
      if HasPrefix(path, prefix) {
        var rest := path[|prefix|..];
        assert path == prefix + rest;
        FileHead(trees, entries, rest);
        SplitHead(rest);
      }
    }
  }

  lemma FilledByDirectory(trees: Trees, entries: seq<Entry>, prefix: string,
                          before: map<string, Entry>, mid: map<string, Entry>, after: map<string, Entry>)
    requires WellNamed(entries) && entries != [] && entries[0].mode == DIRECTORY && entries[0].sha in trees
    requires Filled(trees, trees[entries[0].sha], prefix + entries[0].name + "/", before, mid)
    requires Filled(trees, entries[1..], prefix, mid, after)
    ensures Filled(trees, entries, prefix, before, after)
  {
    var e := entries[0];
    var below := prefix + e.name + "/";
    TailWellNamed(entries);
    forall path ensures FilledAt(trees, entries, prefix, before, after, path) {
      assert FilledAt(trees, trees[e.sha], below, before, mid, path);
      assert FilledAt(trees, entries[1..], prefix, mid, after, path);
      if HasPrefix(path, prefix) {
        BelowPrefix(prefix, e.name, path);
        FileHead(trees, entries, path[|prefix|..]);
      } else {
        assert !HasPrefix(path, below) by {
          assert below[..|prefix|] == prefix;
        }
      }
    }
  }

  /** A path lies below `name` exactly when that is its first component of several. */
  lemma BelowPrefix(prefix: string, name: string, path: string)
    requires HasPrefix(path, prefix) && '/' !in name
    ensures var comps, below := Split(path[|prefix|..], '/'), prefix + name + "/";
            && (HasPrefix(path, below) <==> |comps| > 1 && comps[0] == name)
            && (HasPrefix(path, below) ==> Split(path[|below|..], '/') == comps[1..])
  {
    var rest, below := path[|prefix|..], prefix + name + "/";
    assert path == prefix + rest;
    SplitHead(rest);
    if HasPrefix(path, below) {
      assert rest == name + "/" + path[|below|..];
      SplitBelow(name, path[|below|..]);
    }
  }

  /** The walk collects exactly the files a component-by-component lookup finds, under their paths. */
  lemma {:induction false} WalkFills(trees: Trees, sha: string, prefix: string, s: State)
    requires WellParsed(trees) && Walk(trees, sha, prefix, s).Some?
    ensures sha in trees && Filled(trees, trees[sha], prefix, s.expected, Walk(trees, sha, prefix, s).value.expected)
    decreases if s.directories <= MAX_DIRECTORIES then MAX_DIRECTORIES - s.directories else 0, 0
  {
    EntriesFill(trees, trees[sha], prefix, State(s.directories + 1, s.expected, s.used + {sha}));
  }

  lemma {:induction false} EntriesFill(trees: Trees, entries: seq<Entry>, prefix: string, s: State)
    requires WellParsed(trees) && WellNamed(entries)
    requires s.directories <= MAX_DIRECTORIES && WalkEntries(trees, entries, prefix, s).Some?
    ensures Filled(trees, entries, prefix, s.expected, WalkEntries(trees, entries, prefix, s).value.expected)
    decreases MAX_DIRECTORIES - s.directories, |entries|
  {
    var after := WalkEntries(trees, entries, prefix, s).value.expected;
    if entries == [] {
      forall path ensures FilledAt(trees, entries, prefix, s.expected, after, path) {
      }
      return;
    }
    TailWellNamed(entries);
    var path := prefix + entries[0].name;
    if entries[0].mode == DIRECTORY {
      var below := Walk(trees, entries[0].sha, path + "/", s).value;
      WalkFills(trees, entries[0].sha, path + "/", s);
      EntriesFill(trees, entries[1..], prefix, below);
      FilledByDirectory(trees, entries, prefix, s.expected, below.expected, after);
    } else {
      EntriesFill(trees, entries[1..], prefix, s.(expected := s.expected[path := entries[0]]));
      FilledByFile(trees, entries, prefix, s.expected, after);
    }
  }

  // ----- what the walk uses -----

  /** The directory entries on the way down, one level at a time. */
  function TreeBelow(trees: Trees, entries: seq<Entry>, comps: seq<string>): Option<string>
    requires comps != []
  {
    var e := Find(entries, comps[0]);
    if e.Some? && e.value.mode == DIRECTORY then TreeAt(trees, e.value.sha, comps[1..]) else None
  }

  /** Every directory below is among the trees, and was used. */
  lemma {:induction false} WalkUses(trees: Trees, sha: string, prefix: string, s: State, comps: seq<string>)
    requires WellParsed(trees) && Walk(trees, sha, prefix, s).Some?
    ensures sha in trees && s.used <= Walk(trees, sha, prefix, s).value.used
    ensures TreeAt(trees, sha, comps).Some? ==>
              TreeAt(trees, sha, comps).value in trees
                    && TreeAt(trees, sha, comps).value in Walk(trees, sha, prefix, s).value.used
    decreases if s.directories <= MAX_DIRECTORIES then MAX_DIRECTORIES - s.directories else 0, 0
  {
    EntriesUse(trees, trees[sha], prefix, State(s.directories + 1, s.expected, s.used + {sha}), comps);
  }

  lemma {:induction false} EntriesUse(trees: Trees, entries: seq<Entry>, prefix: string, s: State, comps: seq<string>)
    requires WellParsed(trees) && WellNamed(entries)
    requires s.directories <= MAX_DIRECTORIES && WalkEntries(trees, entries, prefix, s).Some?
    ensures s.used <= WalkEntries(trees, entries, prefix, s).value.used
    ensures comps != [] && TreeBelow(trees, entries, comps).Some? ==>
              && TreeBelow(trees, entries, comps).value in trees
              && TreeBelow(trees, entries, comps).value in WalkEntries(trees, entries, prefix, s).value.used
    decreases MAX_DIRECTORIES - s.directories, |entries|
  {
    if entries != [] {
      TailWellNamed(entries);
      var path := prefix + entries[0].name;
      if entries[0].mode == DIRECTORY {
        WalkUses(trees, entries[0].sha, path + "/", s, if comps == [] then [] else comps[1..]);
        EntriesUse(trees, entries[1..], prefix, Walk(trees, entries[0].sha, path + "/", s).value, comps);
      } else {
        EntriesUse(trees, entries[1..], prefix, s.(expected := s.expected[path := entries[0]]), comps);
      }
    }
  }

  /** Nothing is used but the directories below. */
  lemma {:induction false} WalkUsesOnly(trees: Trees, sha: string, prefix: string, s: State, used: string)
    returns (comps: seq<string>)
    requires WellParsed(trees) && Walk(trees, sha, prefix, s).Some?
    requires used in Walk(trees, sha, prefix, s).value.used && used !in s.used
    ensures TreeAt(trees, sha, comps) == Some(used)
    decreases if s.directories <= MAX_DIRECTORIES then MAX_DIRECTORIES - s.directories else 0, 0
  {
    if used == sha {
      comps := [];
    } else {
      comps := EntriesUseOnly(trees, trees[sha], prefix, State(s.directories + 1, s.expected, s.used + {sha}), used);
    }
  }

  lemma {:induction false} EntriesUseOnly(trees: Trees, entries: seq<Entry>, prefix: string, s: State, used: string)
    returns (comps: seq<string>)
    requires WellParsed(trees) && WellNamed(entries)
    requires s.directories <= MAX_DIRECTORIES && WalkEntries(trees, entries, prefix, s).Some?
    requires used in WalkEntries(trees, entries, prefix, s).value.used && used !in s.used
    ensures comps != [] && TreeBelow(trees, entries, comps) == Some(used)
    decreases MAX_DIRECTORIES - s.directories, |entries|
  {
    TailWellNamed(entries);
    var e, path := entries[0], prefix + entries[0].name;
    if e.mode == DIRECTORY {
      var below := Walk(trees, e.sha, path + "/", s).value;
      if used in below.used {
        var rest := WalkUsesOnly(trees, e.sha, path + "/", s, used);
        comps := [e.name] + rest;
        assert comps[1..] == rest;
      } else {
        comps := EntriesUseOnly(trees, entries[1..], prefix, below, used);
        assert TreeBelow(trees, entries[1..], comps).Some?;
      }
    } else {
      comps := EntriesUseOnly(trees, entries[1..], prefix, s.(expected := s.expected[path := e]), used);
      assert TreeBelow(trees, entries[1..], comps).Some?;
    }
  }

  // ----- two stores -----

  ghost predicate Complete(trees: Trees, sha: string) {
    forall comps {:trigger TreeAt(trees, sha, comps)} ::
      TreeAt(trees, sha, comps).Some? ==> TreeAt(trees, sha, comps).value in trees
  }

  ghost predicate Agree(a: Trees, b: Trees) {
    forall sha :: sha in a && sha in b ==> a[sha] == b[sha]
  }

  lemma CompleteBelow(trees: Trees, sha: string, e: Entry)
    requires sha in trees && Complete(trees, sha) && e.mode == DIRECTORY && Find(trees[sha], e.name) == Some(e)
    ensures e.sha in trees && Complete(trees, e.sha)
  {
    assert TreeAt(trees, sha, [e.name]) == TreeAt(trees, e.sha, []);
    forall comps | TreeAt(trees, e.sha, comps).Some? ensures TreeAt(trees, e.sha, comps).value in trees {
      assert ([e.name] + comps)[1..] == comps;
      assert TreeAt(trees, sha, [e.name] + comps) == TreeAt(trees, e.sha, comps);
    }
  }

  /** Two complete stores that agree where they overlap hold the same files. */
  lemma {:induction false} SameFiles(a: Trees, b: Trees, sha: string, comps: seq<string>)
    requires sha in a && sha in b && Complete(a, sha) && Complete(b, sha) && Agree(a, b)
    ensures LookupIn(a, a[sha], comps) == LookupIn(b, b[sha], comps)
    ensures TreeAt(a, sha, comps) == TreeAt(b, sha, comps)
    decreases |comps|
  {
    assert a[sha] == b[sha];
    if comps != [] {
      FindNamed(a[sha], comps[0]);
      var e := Find(a[sha], comps[0]);
      if e.Some? && e.value.mode == DIRECTORY {
        CompleteBelow(a, sha, e.value);
        CompleteBelow(b, sha, e.value);
        SameFiles(a, b, e.value.sha, comps[1..]);
      }
    }
  }

  /** The closure of the source, with the variables it updates as fields. */
  class Walker {
    const trees: Trees
    var directories: nat
    var expected: map<string, Entry>
    var used: set<string>

    constructor (trees: Trees, used: set<string>)
      ensures this.trees == trees && State(directories, expected, this.used) == State(0, map[], used)
    {
      this.trees, this.directories, this.expected, this.used := trees, 0, map[], used;
    }

    /** On success the fields are what `Walk` computes. */
    method Run(sha: string, prefix: string) returns (ok: bool)
      modifies this
      ensures var r := Walk(trees, sha, prefix, old(State(directories, expected, used)));
              ok == r.Some? && (ok ==> State(directories, expected, used) == r.value)
      decreases if directories <= MAX_DIRECTORIES then MAX_DIRECTORIES - directories else 0
    {
      directories := directories + 1;
      if directories > MAX_DIRECTORIES || Slashes(prefix) > MAX_DEPTH {
        return false;
      }
      if sha !in trees {
        return false;
      }
      used := used + {sha};
      var entries := trees[sha];
      ghost var start := State(directories, expected, used);
      for i := 0 to |entries|
        invariant start.directories <= directories <= MAX_DIRECTORIES
        invariant WalkEntries(trees, entries[i..], prefix, State(directories, expected, used))
               == WalkEntries(trees, entries, prefix, start)
      {
        var entry := entries[i];
        assert entries[i..][0] == entry && entries[i..][1..] == entries[i + 1..];
        var path := prefix + entry.name;
        if !SafeRecipePath(path) {
          return false;
        }
        if entry.mode == DIRECTORY {
          var below := Run(entry.sha, path + "/");
          if !below {
            return false;
          }
        } else {
          if |expected| >= MAX_FILES {
            return false;
          }
          expected := expected[path := entry];
        }
      }
      return true;
    }
  }
}
