/** `capture` of services/pipeline/capture-recipe.py: a recipe directory of a Git repository is
    retained with its Merkle proof. */
module CaptureRecipe {
  import opened Hexadecimal
  import opened Values
  import opened Text
  import opened GitTree
  import opened RecipeLoader
  import opened RecipeProof
  import opened RecipeCapture

  /** The repository, and the two hashes. */
  datatype Repo = Repo(object_: (string, string) -> Option<Bytes>, gitHash: (string, Bytes) -> string,
                       sha256: Bytes -> string)

  // ----- tree objects -----

  predicate IsAscii(s: string) {
    forall i :: 0 <= i < |s| ==> s[i] as int < 128
  }

  /** Where the first name ends: unlike the verifier, this looks for it after the space. */
  function NameEnd(raw: string): nat {
    IndexOf(raw, ' ') + IndexOf(raw[IndexOf(raw, ' ')..], NUL)
  }

  function Decoded(mode: string, name: string, oid: Bytes): Option<Entry> {
    if IsAscii(mode) && ValidUtf8(name) then Some(Entry(mode, name, Hex(oid))) else None
  }

  /** The first entry, if it is complete and decodes. */
  function First(raw: Bytes): Option<Entry> {
    var space, end := IndexOf(raw, ' '), NameEnd(raw);
    if end + 21 > |raw| then None else Decoded(raw[..space], raw[space + 1..end], raw[end + 1..end + 21])
  }

  /** `tree_entries`: names are not restricted any further. */
  function TreeEntries(raw: Bytes): Option<seq<Entry>>
    decreases |raw|
  {
    if raw == "" then Some([])
    else if First(raw).None? then None
    else Following([First(raw).value], TreeEntries(raw[NameEnd(raw) + 21..]))
  }

  function Following(result: seq<Entry>, rest: Option<seq<Entry>>): Option<seq<Entry>> {
    if rest.None? then None else Some(result + rest.value)
  }

  lemma {:induction false} IndexOfFrom(s: string, c: char, from: nat)
    requires from <= IndexOf(s, c)
    ensures IndexOf(s[from..], c) == IndexOf(s, c) - from
  {
    if from > 0 {
      IndexOfFrom(s[1..], c, from - 1);
      assert s[1..][from - 1..] == s[from..];
    } else {
      assert s[0..] == s;
    }
  }

  lemma SameFirst(raw: Bytes)
    requires raw != "" && !Truncated(raw) && First(raw).Some?
    ensures NameEnd(raw) == IndexOf(raw, NUL) && First(raw).value == Head(raw)
  {
    IndexOfFrom(raw, NUL, IndexOf(raw, ' '));
  }

  lemma FirstThenRest(raw: Bytes, entry: Entry, rest: Bytes)
    requires raw != "" && First(raw) == Some(entry) && raw[NameEnd(raw) + 21..] == rest
    ensures TreeEntries(raw) == Following([entry], TreeEntries(rest))
  {
  }

  predicate BothAccept(raw: Bytes, seen: set<string>) {
    Parse(raw, seen).Ok? && TreeEntries(raw).Some?
  }

  predicate BothRead(raw: Bytes, seen: set<string>, entries: seq<Entry>) {
    Parse(raw, seen) == Ok(entries) && TreeEntries(raw) == Some(entries)
  }

  lemma BothGoOn(raw: Bytes, seen: set<string>)
    requires raw != "" && BothAccept(raw, seen)
    ensures !Truncated(raw) && BothAccept(raw[IndexOf(raw, NUL) + 21..], seen + {Head(raw).name})
  {
    SameFirst(raw);
    FirstThenRest(raw, Head(raw), raw[IndexOf(raw, NUL) + 21..]);
  }

  lemma BothReadOne(raw: Bytes, seen: set<string>, rest: seq<Entry>)
    requires raw != "" && BothAccept(raw, seen) && !Truncated(raw)
    requires BothRead(raw[IndexOf(raw, NUL) + 21..], seen + {Head(raw).name}, rest)
    ensures BothRead(raw, seen, [Head(raw)] + rest)
  {
    SameFirst(raw);
    FirstThenRest(raw, Head(raw), raw[IndexOf(raw, NUL) + 21..]);
  }

  /** Where both parsers accept, they read the same entries. */
  lemma {:induction false} ParsersAgree(raw: Bytes, seen: set<string>) returns (entries: seq<Entry>)
    requires BothAccept(raw, seen)
    ensures BothRead(raw, seen, entries)
    decreases |raw|
  {
    entries := [];
    if raw != "" {
      BothGoOn(raw, seen);
      entries := ParsersAgree(raw[IndexOf(raw, NUL) + 21..], seen + {Head(raw).name});
      BothReadOne(raw, seen, entries);
      entries := [Head(raw)] + entries;
    }
  }

  // ----- what the verifier asks of entries -----

  predicate VerifiableEntry(e: Entry) {
    GoodName(e.name) && NUL !in e.mode
  }

  /** Distinct names, none empty or with a slash, and modes that do not end the entry early. */
  ghost predicate Verifiable(entries: seq<Entry>, seen: set<string>) {
    (forall e :: e in entries ==> VerifiableEntry(e)) && DistinctNames(entries, seen)
  }

  lemma {:induction false} FoundFirst(s: string, c: char)
    ensures IndexOf(s, c) < |s| <==> c in s
    ensures c !in s[..IndexOf(s, c)]
  {
    if s != "" && s[0] != c {
      FoundFirst(s[1..], c);
      assert s[..IndexOf(s, c)] == [s[0]] + s[1..][..IndexOf(s[1..], c)];
      assert c in s <==> c in s[1..];
    }
  }

  lemma {:induction false} NotBefore(s: string, c: char, i: nat)
    requires i <= |s| && c !in s[..i]
    ensures i <= IndexOf(s, c)
  {
    if i > 0 {
      assert s[0] in s[..i] && s[1..][..i - 1] == s[..i][1..];
      NotBefore(s[1..], c, i - 1);
    }
  }

  /** A mode without NUL ends at the first space, and only then does the verifier find that entry. */
  lemma FirstRead(raw: Bytes)
    requires raw != "" && First(raw).Some?
    ensures NUL !in First(raw).value.mode <==> !Truncated(raw)
    ensures !Truncated(raw) ==> Head(raw) == First(raw).value && IndexOf(raw, NUL) == NameEnd(raw)
  {
    var space := IndexOf(raw, ' ');
    FoundFirst(raw, NUL);
    if NUL !in raw[..space] {
      NotBefore(raw, NUL, space);
      IndexOfFrom(raw, NUL, space);
    }
    if !Truncated(raw) {
      SameFirst(raw);
    }
  }

  lemma VerifiableCons(entry: Entry, rest: seq<Entry>, seen: set<string>)
    ensures Verifiable([entry] + rest, seen) <==>
              VerifiableEntry(entry) && entry.name !in seen && Verifiable(rest, seen + {entry.name})
  {
    var all := [entry] + rest;
    assert all[0] == entry && forall i :: 0 <= i < |rest| ==> all[i + 1] == rest[i];
    assert forall e :: e in all <==> e == entry || e in rest;
  }

  lemma ParseStep(raw: Bytes, seen: set<string>)
    requires raw != ""
    ensures Parse(raw, seen).Ok? <==>
              && !Truncated(raw) && GoodName(Head(raw).name) && Head(raw).name !in seen
              && Parse(raw[IndexOf(raw, NUL) + 21..], seen + {Head(raw).name}).Ok?
  {
  }

  /** The verifier accepts a tree that the capture read exactly if its entries are verifiable. */
  lemma {:induction false} VerifierReadsIff(raw: Bytes, seen: set<string>)
    requires TreeEntries(raw).Some?
    ensures Parse(raw, seen).Ok? <==> Verifiable(TreeEntries(raw).value, seen)
    decreases |raw|
  {
    if raw != "" {
      var entry, after := First(raw).value, raw[NameEnd(raw) + 21..];
      FirstThenRest(raw, entry, after);
      FirstRead(raw);
      ParseStep(raw, seen);
      VerifierReadsIff(after, seen + {entry.name});
      VerifiableCons(entry, TreeEntries(after).value, seen);
    }
  }

  /** The loop, on the bytes still to be read. */
  method ReadTreeEntries(raw: Bytes) returns (entries: Option<seq<Entry>>)
    ensures entries == TreeEntries(raw)
  {
    var left, result: seq<Entry> := raw, [];
    FollowedNothing(TreeEntries(raw));
    while |left| > 0
      invariant TreeEntries(raw) == Following(result, TreeEntries(left))
      decreases |left|
    {
      var entry := First(left);
      if entry.None? {
        return None;
      }
      var rest := left[NameEnd(left) + 21..];
      FirstThenRest(left, entry.value, rest);
      FollowedOne(result, entry.value, TreeEntries(rest));
      result, left := result + [entry.value], rest;
    }
    assert result + [] == result;
    return Some(result);
  }

  lemma FollowedNothing(rest: Option<seq<Entry>>)
    ensures rest == Following([], rest)
  {
    assert rest.Some? ==> [] + rest.value == rest.value;
  }

  lemma FollowedOne(result: seq<Entry>, entry: Entry, rest: Option<seq<Entry>>)
    ensures Following(result, Following([entry], rest)) == Following(result + [entry], rest)
  {
    assert rest.Some? ==> result + ([entry] + rest.value) == result + [entry] + rest.value;
  }

  // ----- the capture, as a specification -----

  datatype File = File(path: string, entry: Entry, data: Bytes)

  /** The variables of `capture`, the trees with the order they came in; `kept` and `dirs` record
      what was retained and walked. */
  datatype Cap = Cap(trees: map<string, Bytes>, order: seq<Bytes>, proof: int, files: seq<File>, total: int,
                     objects: map<string, Bytes>, kept: set<Bytes>, dirs: seq<string>)

  predicate Grows(s: Cap, t: Cap) {
    s.trees.Keys <= t.trees.Keys && s.files <= t.files && s.kept <= t.kept && s.dirs <= t.dirs
  }

  /** An object that fits, under its own identity. */
  function ObjectBytes(repo: Repo, kind: string, oid: string, limit: int): Option<Bytes> {
    var raw := repo.object_(kind, oid);
    if raw.Some? && |raw.value| <= limit && repo.gitHash(kind, raw.value) == oid then raw else None
  }

  function EntriesAt(repo: Repo, oid: string): seq<Entry> {
    var raw := repo.object_("tree", oid);
    if raw.Some? && TreeEntries(raw.value).Some? then TreeEntries(raw.value).value else []
  }

  function Retained(repo: Repo, s: Cap, data: Bytes): Cap {
    s.(kept := s.kept + {data}, objects := if data == "" then s.objects else s.objects[repo.sha256(data) := data])
  }

  /** A tree is read and counted once. */
  function WithTree(repo: Repo, oid: string, s: Cap): (r: Option<Cap>)
    ensures r.Some? ==> Grows(s, r.value) && oid in r.value.trees
  {
    if oid in s.trees then Some(s)
    else
      var raw := ObjectBytes(repo, "tree", oid, MAX_TREE);
      if raw.None? || s.proof + |raw.value| > MAX_PROOF || |s.trees| >= MAX_TREES
         || TreeEntries(raw.value).None? then None
      else
        var more := s.(trees := s.trees[oid := raw.value], order := s.order + [raw.value],
                       proof := s.proof + |raw.value|);
        Some(Retained(repo, more, raw.value))
  }

  /** Paths are bounded and each directory lengthens them, so this many levels can still follow. */
  function Room(prefix: string): nat {
    if |prefix| <= 513 then 514 - |prefix| else 0
  }

  predicate IsFileMode(mode: string) {
    mode == "100644" || mode == "100755" || mode == LINK_MODE
  }

  function WalkTree(repo: Repo, oid: string, prefix: string, s: Cap): (r: Option<Cap>)
    ensures r.Some? ==> Grows(s, r.value)
    decreases Room(prefix), 1, 0
  {
    var t := WithTree(repo, oid, s);
    if t.None? then None
    else WalkFiles(repo, EntriesAt(repo, oid), prefix, t.value.(dirs := t.value.dirs + [prefix]))
  }

  function WalkFiles(repo: Repo, entries: seq<Entry>, prefix: string, s: Cap): (r: Option<Cap>)
    ensures r.Some? ==> Grows(s, r.value)
    decreases Room(prefix), 0, |entries|
  {
    if entries == [] then Some(s)
    else
      var e, path := entries[0], prefix + entries[0].name;
      if !SafeRecipePath(path) then None
      else if e.mode == DIRECTORY then
        var below := WalkTree(repo, e.sha, path + "/", s);
        if below.None? then None else WalkFiles(repo, entries[1..], prefix, below.value)
      else
        var more := WithFile(repo, path, e, s);
        if more.None? then None else WalkFiles(repo, entries[1..], prefix, more.value)
  }

  function WithFile(repo: Repo, path: string, e: Entry, s: Cap): (r: Option<Cap>)
    ensures r.Some? ==> Grows(s, r.value)
  {
    var data := ObjectBytes(repo, "blob", e.sha, MAX_RECIPE_TREE - s.total);
    if !IsFileMode(e.mode) || data.None? || |s.files| >= MAX_FILES then None
    else
      var file := File(path, e, data.value);
      Some(Retained(repo, s.(files := s.files + [file], total := s.total + |file.data|), file.data))
  }

  function Candidates(entries: seq<Entry>, part: string): seq<Entry> {
    if entries == [] then []
    else
      var last := entries[|entries| - 1];
      Candidates(entries[..|entries| - 1], part) + if last.name == part && last.mode == DIRECTORY then [last] else []
  }

  /** Down to the directory. */
  function Descended(repo: Repo, oid: string, parts: seq<string>, s: Cap): (r: Option<(string, Cap)>)
    ensures r.Some? ==> Grows(s, r.value.1)
    decreases |parts|
  {
    if parts == [] then Some((oid, s))
    else
      var t := WithTree(repo, oid, s);
      if t.None? || |Candidates(EntriesAt(repo, oid), parts[0])| != 1 then None
      else Descended(repo, Candidates(EntriesAt(repo, oid), parts[0])[0].sha, parts[1..], t.value)
  }

  predicate RootLine(line: string) {
    |line| == 45 && HasPrefix(line, "tree ") && forall i :: 5 <= i < 45 ==> IsHex(line[i])
  }

  predicate SomePkgbuild(files: seq<File>) {
    exists f :: f in files && f.path == "PKGBUILD" && f.entry.mode != LINK_MODE && f.data != ""
  }

  function Nothing(commit: Bytes): Cap {
    Cap(map[], [], |commit|, [], 0, map[], {}, [])
  }

  /** What is retained for a commit and a directory, and the bytes of the commit. */
  function Captured(repo: Repo, commit: string, subdir: string): Option<(Bytes, Cap)> {
    var raw := ObjectBytes(repo, "commit", commit, MAX_COMMIT);
    if !IsSha1(commit) || !(subdir == "" || SafeRecipePath(subdir)) then None
    else if raw.None? || !RootLine(FirstLine(raw.value)) then None
    else
      var down := Descended(repo, FirstLine(raw.value)[5..], Parts(subdir), Nothing(raw.value));
      if down.None? then None
      else
        var walked := WalkTree(repo, down.value.0, "", down.value.1);
        if walked.None? || !SomePkgbuild(walked.value.files) then None
        else Some((raw.value, Retained(repo, walked.value, raw.value)))
  }

  // ----- the capture, as the nested functions of the source -----

  class Capturer {
    const repo: Repo
    var trees: map<string, Bytes>
    ghost var order: seq<Bytes>
    var proof: int
    var files: seq<File>
    var total: int
    var objects: map<string, Bytes>
    ghost var kept: set<Bytes>
    ghost var dirs: seq<string>

    constructor (repo: Repo, commit: Bytes)
      ensures this.repo == repo && State() == Nothing(commit) && Faithful()
    {
      this.repo := repo;
      trees, proof, files, total, objects := map[], |commit|, [], 0, map[];
      order, kept, dirs := [], {}, [];
    }

    ghost function State(): Cap
      reads this
    {
      Cap(trees, order, proof, files, total, objects, kept, dirs)
    }

    /** The trees are the repository's, and parse. */
    ghost predicate Faithful()
      reads this
    {
      forall oid :: oid in trees ==> repo.object_("tree", oid) == Some(trees[oid]) && TreeEntries(trees[oid]).Some?
    }

    method Retain(data: Bytes)
      modifies this
      ensures State() == Retained(repo, old(State()), data)
    {
      if data != "" {
        objects := objects[repo.sha256(data) := data];
      }
      kept := kept + {data};
    }

    method Tree(oid: string) returns (entries: Option<seq<Entry>>)
      requires Faithful()
      modifies this
      ensures var r := WithTree(repo, oid, old(State()));
              && entries == (if r.None? then None else Some(EntriesAt(repo, oid)))
              && (r.Some? ==> State() == r.value && Faithful())
    {
      if oid !in trees {
        var raw := ObjectBytes(repo, "tree", oid, MAX_TREE);
        if raw.None? {
          return None;
        }
        proof := proof + |raw.value|;
        if proof > MAX_PROOF || |trees| >= MAX_TREES {
          return None;
        }
        var parsed := ReadTreeEntries(raw.value);
        if parsed.None? {
          return None;
        }
        trees, order := trees[oid := raw.value], order + [raw.value];
        Retain(raw.value);
      }
      entries := ReadTreeEntries(trees[oid]);
    }

    method AddFile(path: string, entry: Entry) returns (ok: bool)
      requires Faithful()
      modifies this
      ensures var r := WithFile(repo, path, entry, old(State()));
              ok == r.Some? && (ok ==> State() == r.value && Faithful())
    {
      if !IsFileMode(entry.mode) {
        return false;
      }
      var data := ObjectBytes(repo, "blob", entry.sha, MAX_RECIPE_TREE - total);
      if data.None? {
        return false;
      }
      total := total + |data.value|;
      if |files| >= MAX_FILES {
        return false;
      }
      files := files + [File(path, entry, data.value)];
      Retain(data.value);
      return true;
    }

    method Walk(oid: string, prefix: string) returns (ok: bool)
      requires Faithful()
      modifies this
      ensures var r := WalkTree(repo, oid, prefix, old(State()));
              ok == r.Some? && (ok ==> State() == r.value && Faithful())
      decreases Room(prefix)
    {
      var entries := Tree(oid);
      if entries.None? {
        return false;
      }
      dirs := dirs + [prefix];
      ghost var start := State();
      assert entries.value[0..] == entries.value;
      for i := 0 to |entries.value|
        invariant Faithful()
        invariant WalkFiles(repo, entries.value[i..], prefix, State())
               == WalkFiles(repo, entries.value, prefix, start)
      {
        var entry := entries.value[i];
        assert entries.value[i..][0] == entry && entries.value[i..][1..] == entries.value[i + 1..];
        var path := prefix + entry.name;
        if !SafeRecipePath(path) {
          return false;
        }
        var more;
        if entry.mode == DIRECTORY {
          more := Walk(entry.sha, path + "/");
        } else {
          more := AddFile(path, entry);
        }
        if !more {
          return false;
        }
      }
      return true;
    }

    method Descend(root: string, parts: seq<string>) returns (oid: Option<string>)
      requires Faithful()
      modifies this
      ensures var r := Descended(repo, root, parts, old(State()));
              && oid == (if r.None? then None else Some(r.value.0))
              && (r.Some? ==> State() == r.value.1 && Faithful())
    {
      var at := root;
      for i := 0 to |parts|
        invariant Faithful()
        invariant Descended(repo, at, parts[i..], State())
               == Descended(repo, root, parts, old(State()))
      {
        assert parts[i..][0] == parts[i] && parts[i..][1..] == parts[i + 1..];
        var entries := Tree(at);
        if entries.None? {
          return None;
        }
        var candidates := Candidates(entries.value, parts[i]);
        if |candidates| != 1 {
          return None;
        }
        at := candidates[0].sha;
      }
      return Some(at);
    }
  }

  method Capture(repo: Repo, commit: string, subdir: string)
    returns (ok: bool, raw: Bytes, files: seq<File>, trees: map<string, Bytes>, objects: map<string, Bytes>)
    ensures var r := Captured(repo, commit, subdir);
            && ok == r.Some?
            && (ok ==>
                  && raw == r.value.0 && files == r.value.1.files
                  && trees == r.value.1.trees && objects == r.value.1.objects)
  {
    ok, raw, files, trees, objects := false, "", [], map[], map[];
    if !IsSha1(commit) || !(subdir == "" || SafeRecipePath(subdir)) {
      return;
    }
    var commitBytes := ObjectBytes(repo, "commit", commit, MAX_COMMIT);
    if commitBytes.None? || !RootLine(FirstLine(commitBytes.value)) {
      return;
    }
    raw := commitBytes.value;
    var capturer := new Capturer(repo, raw);
    var root := capturer.Descend(FirstLine(raw)[5..], Parts(subdir));
    if root.None? {
      return;
    }
    var walked := capturer.Walk(root.value, "");
    if !walked || !SomePkgbuild(capturer.files) {
      return;
    }
    capturer.Retain(raw);
    return true, raw, capturer.files, capturer.trees, capturer.objects;
  }
}
