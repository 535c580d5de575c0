/** `extractRecipeSource` of worker/recipe_sources.go: a plain tar archive unpacked below a fresh
    directory, links last. */
module RecipeSources {
  import opened Text
  import opened Resolution
  import opened ContainedLinks
  import opened DiskTree
  import opened Sums

  const MAX_ENTRIES := 200000
  const MAX_EXPANDED := 0x8_0000_0000

  datatype TypeFlag = TypeReg | TypeDir | TypeSymlink | TypeOther

  /** A tar header; `copied` says whether its content could be read and written in full. */
  datatype Header = Header(name: string, typeflag: TypeFlag, mode: int, size: int, linkname: string, copied: bool)

  predicate SafeSourceArchivePath(value: string) {
    && value != "" && |value| <= 512 && ValidUtf8(value) && '\\' !in value
    && (forall c :: c in value ==> c as int >= 32 && c as int != 127)
    && (forall part :: part in Split(value, '/') ==> part != "" && part != "." && part != "..")
  }

  function Name(header: Header): string {
    if HasSuffix(header.name, "/") then header.name[..|header.name| - 1] else header.name
  }

  function Path(header: Header): seq<string> {
    Split(Name(header), '/')
  }

  predicate HeaderOk(header: Header) {
    && SafeSourceArchivePath(Name(header)) && header.size >= 0
    && (header.mode == 0x1A4 || header.mode == 0x1ED)
    && header.typeflag != TypeOther
    && (header.typeflag != TypeReg ==> header.size == 0)
  }

  /** `q` names a proper ancestor of `p`. */
  predicate Above(q: seq<string>, p: seq<string>) {
    q != [] && q < p
  }

  function HeaderSize(header: Header): int {
    header.size
  }

  function LinksOf(headers: seq<Header>): map<string, string> {
    if headers == [] then map[]
    else
      var last := headers[|headers| - 1];
      var before := LinksOf(headers[..|headers| - 1]);
      if last.typeflag == TypeSymlink then before[Name(last) := last.linkname] else before
  }

  /** What an archive must be, independently of the order of its entries. */
  ghost predicate Extractable(headers: seq<Header>, entries: int, expanded: int) {
    && entries <= MAX_ENTRIES && expanded <= MAX_EXPANDED
    && |headers| == entries && Sum(HeaderSize, headers) == expanded
    && (forall i :: 0 <= i < |headers| ==> HeaderOk(headers[i]))
    && (forall i :: 0 <= i < |headers| && headers[i].typeflag == TypeReg ==> headers[i].copied)
    && (forall i, j :: 0 <= i < j < |headers| ==> Name(headers[i]) != Name(headers[j]))
    && NoEntryBelowNonDirectory(headers)
    && LinksAccepted(LinksOf(headers), SafeSourceArchivePath)
  }

  ghost predicate NoEntryBelowNonDirectory(headers: seq<Header>) {
    forall i, j :: 0 <= i < |headers| && 0 <= j < |headers| && headers[i].typeflag != TypeDir ==>
      !Above(Path(headers[i]), Path(headers[j]))
  }

  // ----- the directory being filled -----

  predicate MakesDirectory(header: Header, q: seq<string>) {
    Above(q, Path(header)) || (q == Path(header) && header.typeflag == TypeDir)
  }

  predicate MakesFile(header: Header, q: seq<string>) {
    q == Path(header) && header.typeflag == TypeReg
  }

  ghost predicate DirectoryAt(headers: seq<Header>, q: seq<string>) {
    exists h :: h in headers && MakesDirectory(h, q)
  }

  ghost predicate FileAt(headers: seq<Header>, q: seq<string>) {
    exists h :: h in headers && MakesFile(h, q)
  }

  /** `made` holds the links created so far. */
  predicate LinkAt(links: map<string, string>, made: set<string>, q: seq<string>) {
    IsPath(q) && Join(q, '/') in made && Join(q, '/') in links
  }

  ghost predicate NodeAt(nodes: Tree, headers: seq<Header>, links: map<string, string>, made: set<string>,
                         q: seq<string>) {
    && (q in nodes <==> DirectoryAt(headers, q) || FileAt(headers, q) || LinkAt(links, made, q))
    && (DirectoryAt(headers, q) ==> nodes[q] == Directory)
    && (FileAt(headers, q) ==> nodes[q] == Regular)
    && (LinkAt(links, made, q) ==> nodes[q] == Symlink(links[Join(q, '/')]))
  }

  /** The tree holds the entries' nodes, their ancestors as directories, and nothing else. */
  ghost predicate Unpacked(nodes: Tree, headers: seq<Header>, links: map<string, string>, made: set<string>) {
    forall q {:trigger NodeAt(nodes, headers, links, made, q)} :: NodeAt(nodes, headers, links, made, q)
  }

  // ----- facts about the specification -----

  ghost predicate LinkNamed(headers: seq<Header>, name: string, h: Header) {
    h in headers && Name(h) == name && h.typeflag == TypeSymlink
  }

  lemma {:induction false} LinksOfListed(headers: seq<Header>, name: string) returns (h: Header)
    requires name in LinksOf(headers)
    ensures LinkNamed(headers, name, h) && LinksOf(headers)[name] == h.linkname
  {
    var before, last := headers[..|headers| - 1], headers[|headers| - 1];
    if last.typeflag == TypeSymlink && Name(last) == name {
      h := last;
    } else {
      h := LinksOfListed(before, name);
    }
  }

  lemma {:induction false} ListedLinks(headers: seq<Header>, h: Header)
    requires forall i, j :: 0 <= i < j < |headers| ==> Name(headers[i]) != Name(headers[j])
    requires h in headers && h.typeflag == TypeSymlink
    ensures Name(h) in LinksOf(headers) && LinksOf(headers)[Name(h)] == h.linkname
  {
    var before, last := headers[..|headers| - 1], headers[|headers| - 1];
    assert headers == before + [last];
    if h != last {
      ListedLinks(before, h);
      var i :| 0 <= i < |before| && before[i] == h;
      assert headers[i] == h;
    }
  }

  lemma PathOfName(header: Header)
    requires HeaderOk(header)
    ensures IsPath(Path(header)) && Join(Path(header), '/') == Name(header)
  {
    var parts := Path(header);
    forall i | 0 <= i < |parts| ensures IsName(parts[i]) {
      assert parts[i] in Split(Name(header), '/');
    }
  }

  lemma AncestorsOfPath(p: seq<string>, q: seq<string>)
    requires IsPath(p) && OnTheWay(q, p)
    ensures IsPath(q) && Split(Join(q, '/'), '/') == q
    ensures q == p || Above(q, p)
  {
    assert forall i :: 0 <= i < |q| ==> q[i] == p[i];
    SplitJoin(q, '/');
  }

  /** One more entry changes the specification of a node as follows. */
  lemma OneMoreEntry(headers: seq<Header>, h: Header, q: seq<string>)
    ensures DirectoryAt(headers + [h], q) <==> DirectoryAt(headers, q) || MakesDirectory(h, q)
    ensures FileAt(headers + [h], q) <==> FileAt(headers, q) || MakesFile(h, q)
  {
    assert forall other :: other in headers + [h] <==> other in headers || other == h;
  }

  // ----- the extraction loop -----

  /** Some earlier entry stands in the way of `h`. */
  ghost predicate Clashes(done: seq<Header>, h: Header) {
    || (exists q :: Above(q, Path(h)) && FileAt(done, q))
    || (h.typeflag == TypeReg && DirectoryAt(done, Path(h)))
  }

  ghost predicate FreshName(done: seq<Header>, h: Header) {
    forall other :: other in done ==> HeaderOk(other) && Name(other) != Name(h)
  }

  lemma FreshPath(done: seq<Header>, h: Header)
    requires FreshName(done, h)
    ensures !FileAt(done, Path(h))
    ensures forall other :: other in done ==> Path(other) != Path(h)
  {
    forall other | other in done ensures Path(other) != Path(h) {
      assert Join(Path(other), '/') == Name(other);
      assert Join(Path(h), '/') == Name(h);
    }
  }

  method UnpackEntry(disk: Disk, ghost done: seq<Header>, h: Header) returns (ok: bool)
    requires WellFormed(disk.nodes) && Unpacked(disk.nodes, done, map[], {})
    requires HeaderOk(h) && FreshName(done, h)
    modifies disk
    ensures WellFormed(disk.nodes) && forall q :: q in disk.nodes ==> !disk.nodes[q].Symlink?
    ensures ok ==> Unpacked(disk.nodes, done + [h], map[], {})
    ensures ok <==> !Clashes(done, h) && (h.typeflag == TypeReg ==> h.copied)
  {
    var p := Path(h);
    var parent := p[..|p| - 1];
    PathOfName(h);
    FreshPath(done, h);
    ghost var before := disk.nodes;
    UnpackedHasNoLinks(before, done);
    forall q | OnTheWay(q, parent) ensures Above(q, p) {
      assert parent < p;
    }
    forall q | Above(q, p) ensures OnTheWay(q, parent) && q == parent[..|q|] {
    }
    ok := disk.MkdirAll(parent);
    assert forall q :: NodeAt(before, done, map[], {}, q);
    if !ok {
      ghost var k :| 1 <= k <= |parent| && parent[..k] in before && before[parent[..k]] != Directory;
      assert NodeAt(before, done, map[], {}, parent[..k]);
      assert Above(parent[..k], p) && FileAt(done, parent[..k]);
      return;
    }
    forall q | Above(q, p) ensures !FileAt(done, q) {
      assert NodeAt(before, done, map[], {}, q);
      assert parent[..|q|] == q;
    }
    assert NodeAt(before, done, map[], {}, p);
    assert parent != [] ==> OnTheWay(parent, parent);
    assert Placed(disk.nodes, p);
    if h.typeflag == TypeDir && p !in disk.nodes {
      var made := disk.Create(p, Directory);
    } else if h.typeflag == TypeReg {
      ok := disk.Create(p, Regular);
      if !ok || !h.copied {
        return false;
      }
    }
    forall q ensures NodeAt(disk.nodes, done + [h], map[], {}, q) {
      assert NodeAt(before, done, map[], {}, q);
      OneMoreEntry(done, h, q);
    }
  }

  lemma UnpackedHasNoLinks(nodes: Tree, done: seq<Header>)
    requires Unpacked(nodes, done, map[], {})
    ensures forall q :: q in nodes ==> !nodes[q].Symlink?
  {
    forall q | q in nodes ensures !nodes[q].Symlink? {
      assert NodeAt(nodes, done, map[], {}, q);
    }
  }

  ghost predicate DistinctNames(headers: seq<Header>) {
    forall i, j :: 0 <= i < j < |headers| ==> Name(headers[i]) != Name(headers[j])
  }

  ghost predicate AllOk(headers: seq<Header>) {
    forall h :: h in headers ==> HeaderOk(h)
  }

  lemma SameName(headers: seq<Header>, h: Header, other: Header)
    requires AllOk(headers) && DistinctNames(headers) && h in headers && other in headers && Path(h) == Path(other)
    ensures h == other
  {
    PathOfName(h);
    PathOfName(other);
    var i, j :| 0 <= i < |headers| && headers[i] == h && 0 <= j < |headers| && headers[j] == other;
  }

  /** A listed link's path is a path, its parents are directories, and no file is there. */
  lemma LinkPlace(headers: seq<Header>, name: string)
    requires AllOk(headers) && DistinctNames(headers) && name in LinksOf(headers)
    ensures var p := Split(name, '/');
            && IsPath(p) && Join(p, '/') == name && !FileAt(headers, p)
            && (|p| > 1 ==> DirectoryAt(headers, p[..|p| - 1]))
  {
    var h := LinksOfListed(headers, name);
    PathOfName(h);
    var p := Path(h);
    if |p| > 1 {
      assert MakesDirectory(h, p[..|p| - 1]);
    }
    if other :| other in headers && MakesFile(other, p) {
      SameName(headers, h, other);
    }
  }

  /** `os.Symlink` for every collected link, in no particular order. */
  method CreateLinks(disk: Disk, ghost headers: seq<Header>, links: map<string, string>, ghost valid: string -> bool)
    returns (ok: bool)
    requires WellFormed(disk.nodes) && Unpacked(disk.nodes, headers, map[], {})
    requires AllOk(headers) && DistinctNames(headers) && NoEarlierNonDirectory(headers)
    requires links == LinksOf(headers) && LinksAccepted(links, valid) && forall s :: valid(s) ==> s != ""
    modifies disk
    ensures WellFormed(disk.nodes)
    ensures ok <==> NoEntryBelowNonDirectory(headers)
    ensures ok ==> Unpacked(disk.nodes, headers, links, links.Keys) && AllContained(disk.nodes)
  {
    ghost var made: set<string> := {};
    NoneMade(disk.nodes, headers, links);
    var pending := links.Keys;
    while pending != {}
      invariant pending <= links.Keys && made == links.Keys - pending
      invariant WellFormed(disk.nodes) && Unpacked(disk.nodes, headers, links, made)
      invariant forall name :: name in made ==> !DirectoryAt(headers, Split(name, '/'))
    {
      var name :| name in pending;
      var p := Split(name, '/');
      LinkPlace(headers, name);
      assert NodeAt(disk.nodes, headers, links, made, p[..|p| - 1]);
      assert NodeAt(disk.nodes, headers, links, made, p);
      ghost var before := disk.nodes;
      var created := disk.Create(p, Symlink(links[name]));
      if !created {
        LinksNotFree(headers, name);
        return false;
      }
      LinkMade(before, headers, links, made, name);
      made := made + {name};
      pending := pending - {name};
    }
    assert made == links.Keys;
    LinksFree(headers);
    UnpackedListsLinks(disk.nodes, headers);
    AcceptedLinksContainAll(disk.nodes, links, valid);
    return true;
  }

  lemma LinkMade(nodes: Tree, headers: seq<Header>, links: map<string, string>, made: set<string>, name: string)
    requires Unpacked(nodes, headers, links, made) && name in links
    requires var p := Split(name, '/'); IsPath(p) && p !in nodes
    ensures Unpacked(nodes[Split(name, '/') := Symlink(links[name])], headers, links, made + {name})
  {
    var p := Split(name, '/');
    var nodes' := nodes[p := Symlink(links[name])];
    assert NodeAt(nodes, headers, links, made, p);
    forall q ensures NodeAt(nodes', headers, links, made + {name}, q) {
      assert NodeAt(nodes, headers, links, made, q);
      if LinkAt(links, made + {name}, q) && Join(q, '/') == name {
        SplitJoin(q, '/');
      }
    }
  }

  lemma NoneMade(nodes: Tree, headers: seq<Header>, links: map<string, string>)
    requires Unpacked(nodes, headers, map[], {})
    ensures Unpacked(nodes, headers, links, {})
  {
    forall q ensures NodeAt(nodes, headers, links, {}, q) {
      assert NodeAt(nodes, headers, map[], {}, q);
    }
  }

  /** The ancestor loop: every ancestor already seen must be a directory. */
  method ParentsAllowed(seen: map<string, TypeFlag>, p: seq<string>) returns (ok: bool)
    requires p != []
    ensures ok <==> forall k :: 1 <= k < |p| && Join(p[..k], '/') in seen ==> seen[Join(p[..k], '/')] == TypeDir
  {
    var k := |p| - 1;
    while k > 0
      invariant 0 <= k < |p|
      invariant forall j :: k < j < |p| && Join(p[..j], '/') in seen ==> seen[Join(p[..j], '/')] == TypeDir
    {
      var parent := Join(p[..k], '/');
      if parent in seen && seen[parent] != TypeDir {
        return false;
      }
      k := k - 1;
    }
    return true;
  }

  /** What `seen` records of the entries handled so far. */
  ghost predicate Records(seen: map<string, TypeFlag>, done: seq<Header>) {
    && (forall h :: h in done ==> Name(h) in seen && seen[Name(h)] == h.typeflag)
    && (forall name :: name in seen ==> exists h :: h in done && Name(h) == name)
  }

  /** The order-dependent half of `NoEntryBelowNonDirectory` that the loop itself enforces. */
  ghost predicate NoEarlierNonDirectory(headers: seq<Header>) {
    forall i, j | 0 <= i < |headers| && 0 <= j < |headers| ::
      headers[i].typeflag == TypeReg || (headers[i].typeflag == TypeSymlink && i < j)
      ==> !Above(Path(headers[i]), Path(headers[j]))
  }

  lemma ParentsForbidden(seen: map<string, TypeFlag>, done: seq<Header>, h: Header, k: nat)
    returns (other: Header)
    requires Records(seen, done) && AllOk(done) && HeaderOk(h)
    requires 1 <= k < |Path(h)| && Join(Path(h)[..k], '/') in seen && seen[Join(Path(h)[..k], '/')] != TypeDir
    ensures other in done && other.typeflag != TypeDir && Above(Path(other), Path(h))
  {
    var name := Join(Path(h)[..k], '/');
    other :| other in done && Name(other) == name;
    PathOfName(h);
    AncestorsOfPath(Path(h), Path(h)[..k]);
  }

  lemma PrefixJoins(q: seq<string>, p: seq<string>)
    ensures Above(q, p) ==> 1 <= |q| < |p| && Join(p[..|q|], '/') == Join(q, '/')
  {
    assert Above(q, p) ==> p[..|q|] == q;
  }

  lemma ParentsAllow(seen: map<string, TypeFlag>, done: seq<Header>, h: Header, other: Header)
    requires Records(seen, done) && AllOk(done) && HeaderOk(h)
    requires other in done && other.typeflag != TypeDir
    requires forall k :: 1 <= k < |Path(h)| && Join(Path(h)[..k], '/') in seen ==>
               seen[Join(Path(h)[..k], '/')] == TypeDir
    ensures !Above(Path(other), Path(h))
  {
    PathOfName(other);
    assert Name(other) in seen;
    PrefixJoins(Path(other), Path(h));
  }

  lemma NoClashAllows(done: seq<Header>, h: Header, other: Header)
    requires !Clashes(done, h) && h.typeflag == TypeReg && other in done
    ensures !Above(Path(h), Path(other))
  {
    assert !MakesDirectory(other, Path(h));
  }

  /** An entry that passes the loop body keeps the enforced half. */
  lemma NoEarlierNonDirectoryGrows(seen: map<string, TypeFlag>, done: seq<Header>, h: Header)
    requires Records(seen, done) && AllOk(done) && HeaderOk(h)
    requires NoEarlierNonDirectory(done) && !Clashes(done, h)
    requires forall k :: 1 <= k < |Path(h)| && Join(Path(h)[..k], '/') in seen ==>
               seen[Join(Path(h)[..k], '/')] == TypeDir
    ensures NoEarlierNonDirectory(done + [h])
  {
    var more := done + [h];
    forall i, j | 0 <= i < |more| && 0 <= j < |more| &&
      (more[i].typeflag == TypeReg || (more[i].typeflag == TypeSymlink && i < j))
      ensures !Above(Path(more[i]), Path(more[j]))
    {
      if i < |done| && j == |done| {
        assert more[i] in done;
        ParentsAllow(seen, done, h, more[i]);
      } else if i == |done| && j < |done| {
        assert more[j] in done;
        NoClashAllows(done, h, more[j]);
      }
    }
  }

  /** A clash with an earlier entry already refutes the order-free condition. */
  lemma ClashRefutes(headers: seq<Header>, done: seq<Header>, h: Header)
    requires done <= headers && h in headers && AllOk(headers) && FreshName(done, h)
    requires Clashes(done, h)
    ensures !NoEntryBelowNonDirectory(headers)
  {
    FreshPath(done, h);
    var i :| 0 <= i < |headers| && headers[i] == h;
    if q :| Above(q, Path(h)) && FileAt(done, q) {
      var other :| other in done && MakesFile(other, q);
      var j :| 0 <= j < |done| && done[j] == other;
      assert headers[j] == other && Above(Path(headers[j]), Path(headers[i]));
    } else {
      var other :| other in done && MakesDirectory(other, Path(h));
      var j :| 0 <= j < |done| && done[j] == other;
      assert headers[j] == other && Above(Path(headers[i]), Path(headers[j]));
    }
  }

  /** After the loop, links with an entry below them are all that is left to rule out. */
  lemma LinksFree(headers: seq<Header>)
    requires AllOk(headers) && DistinctNames(headers) && NoEarlierNonDirectory(headers)
    requires forall name :: name in LinksOf(headers) ==> !DirectoryAt(headers, Split(name, '/'))
    ensures NoEntryBelowNonDirectory(headers)
  {
    forall i, j | 0 <= i < |headers| && 0 <= j < |headers| && headers[i].typeflag != TypeDir
      ensures !Above(Path(headers[i]), Path(headers[j]))
    {
      assert headers[i] in headers && HeaderOk(headers[i]);
      if headers[i].typeflag == TypeSymlink {
        ListedLinks(headers, headers[i]);
        assert !DirectoryAt(headers, Path(headers[i]));
        assert !MakesDirectory(headers[j], Path(headers[i]));
      }
    }
  }

  lemma LinksNotFree(headers: seq<Header>, name: string)
    requires AllOk(headers) && DistinctNames(headers)
    requires name in LinksOf(headers) && DirectoryAt(headers, Split(name, '/'))
    ensures !NoEntryBelowNonDirectory(headers)
  {
    var link := LinksOfListed(headers, name);
    var i :| 0 <= i < |headers| && headers[i] == link;
    var h :| h in headers && MakesDirectory(h, Path(headers[i]));
    var j :| 0 <= j < |headers| && headers[j] == h;
    PathOfName(headers[i]);
    PathOfName(h);
    assert Above(Path(headers[i]), Path(headers[j]));
  }

  lemma UnpackedListsLinks(nodes: Tree, headers: seq<Header>)
    requires Unpacked(nodes, headers, LinksOf(headers), LinksOf(headers).Keys)
    ensures ListsLinks(LinksOf(headers), nodes)
  {
    forall p | IsPath(p) ensures AgreeAt(LinksOf(headers), nodes, p) {
      assert NodeAt(nodes, headers, LinksOf(headers), LinksOf(headers).Keys, p);
    }
  }

  /** Each refusal of the loop's first test contradicts the order-free condition. */
  lemma RefusedEntry(headers: seq<Header>, i: nat, seen: map<string, TypeFlag>, entries: int, expanded: int)
    requires i < |headers| && Records(seen, headers[..i]) && i <= entries
    requires !HeaderOk(headers[i]) || Name(headers[i]) in seen || i >= entries ||
             headers[i].size > expanded - Sum(HeaderSize, headers[..i])
    ensures !Extractable(headers, entries, expanded)
  {
    assert headers[..i + 1][..i] == headers[..i];
    if Extractable(headers, entries, expanded) {
      SumPrefix(HeaderSize, headers, i + 1);
    }
  }

  lemma RefusedParent(headers: seq<Header>, done: seq<Header>, h: Header, other: Header)
    requires done <= headers && h in headers && other in done
    requires other.typeflag != TypeDir && Above(Path(other), Path(h))
    ensures !NoEntryBelowNonDirectory(headers)
  {
    var i :| 0 <= i < |done| && done[i] == other;
    var j :| 0 <= j < |headers| && headers[j] == h;
    assert headers[i] == other;
  }

  lemma RefusedParents(seen: map<string, TypeFlag>, headers: seq<Header>, done: seq<Header>, h: Header)
    requires Records(seen, done) && AllOk(done) && HeaderOk(h) && done <= headers && h in headers
    requires var p := Path(h);
             exists k :: 1 <= k < |p| && Join(p[..k], '/') in seen && seen[Join(p[..k], '/')] != TypeDir
    ensures !NoEntryBelowNonDirectory(headers)
  {
    var p := Path(h);
    var k :| 1 <= k < |p| && Join(p[..k], '/') in seen && seen[Join(p[..k], '/')] != TypeDir;
    var other := ParentsForbidden(seen, done, h, k);
    RefusedParent(headers, done, h, other);
  }

  /** What holds after `done` has been read: budgets, records, and the tree so far. */
  ghost predicate Progress(nodes: Tree, done: seq<Header>, entries: int, expanded: int,
                           seen: map<string, TypeFlag>, links: map<string, string>, total: int) {
    && AllOk(done) && DistinctNames(done) && NoEarlierNonDirectory(done)
    && (forall h :: h in done && h.typeflag == TypeReg ==> h.copied)
    && Records(seen, done) && |seen| == |done| <= entries
    && total == Sum(HeaderSize, done) <= expanded && links == LinksOf(done)
    && WellFormed(nodes) && Unpacked(nodes, done, map[], {})
  }

  /** The body of the reading loop for one header. */
  method ExtractEntry(disk: Disk, ghost headers: seq<Header>, ghost done: seq<Header>, header: Header,
                      entries: int, expanded: int,
                      seen: map<string, TypeFlag>, links: map<string, string>, total: int)
    returns (ok: bool, seen': map<string, TypeFlag>, links': map<string, string>, total': int)
    requires Progress(disk.nodes, done, entries, expanded, seen, links, total)
    requires done + [header] <= headers
    modifies disk
    ensures WellFormed(disk.nodes) && forall q :: q in disk.nodes ==> !disk.nodes[q].Symlink?
    ensures ok ==> Progress(disk.nodes, done + [header], entries, expanded, seen', links', total')
    ensures !ok ==> !Extractable(headers, entries, expanded)
  {
    ok, seen', links', total' := false, seen, links, total;
    assert header == headers[|done|] && headers[..|done|] == done;
    var name := Name(header);
    UnpackedHasNoLinks(disk.nodes, done);
    if !HeaderOk(header) || name in seen || |seen| >= entries || header.size > expanded - total {
      RefusedEntry(headers, |done|, seen, entries, expanded);
      return;
    }
    var p := Path(header);
    var allowed := ParentsAllowed(seen, p);
    if !allowed {
      RefusedParents(seen, headers, done, header);
      return;
    }
    seen', total' := seen[name := header.typeflag], total + header.size;
    ok := UnpackEntry(disk, done, header);
    if !ok {
      if Clashes(done, header) && AllOk(headers) {
        ClashRefutes(headers, done, header);
      }
      return;
    }
    if header.typeflag == TypeSymlink {
      links' := links[name := header.linkname];
    }
    EntryRecorded(seen, done, header);
    EntryProgress(disk.nodes, done, header, entries, expanded, seen, links, total);
  }

  lemma EntryProgress(nodes: Tree, done: seq<Header>, h: Header, entries: int, expanded: int,
                      seen: map<string, TypeFlag>, links: map<string, string>, total: int)
    requires Records(seen[Name(h) := h.typeflag], done + [h]) && Name(h) !in seen
    requires AllOk(done + [h]) && DistinctNames(done + [h]) && NoEarlierNonDirectory(done + [h])
    requires (forall other :: other in done && other.typeflag == TypeReg ==>
          other.copied) && (h.typeflag == TypeReg ==> h.copied)
    requires |seen| == |done| < entries && h.size <= expanded - total
    requires total == Sum(HeaderSize, done) && Sum(HeaderSize, done + [h]) == total + h.size && links == LinksOf(done)
    requires LinksOf(done + [h]) == if h.typeflag == TypeSymlink then links[Name(h) := h.linkname] else links
    requires WellFormed(nodes) && Unpacked(nodes, done + [h], map[], {})
    ensures Progress(nodes, done + [h], entries, expanded, seen[Name(h) := h.typeflag],
                     if h.typeflag == TypeSymlink then links[Name(h) := h.linkname] else links, total + h.size)
  {
  }

  lemma EntryRecorded(seen: map<string, TypeFlag>, done: seq<Header>, h: Header)
    requires Records(seen, done) && Name(h) !in seen && !Clashes(done, h)
    requires AllOk(done) && DistinctNames(done) && NoEarlierNonDirectory(done) && HeaderOk(h)
    requires forall k :: 1 <= k < |Path(h)| && Join(Path(h)[..k], '/') in seen ==>
               seen[Join(Path(h)[..k], '/')] == TypeDir
    ensures NoEarlierNonDirectory(done + [h]) && Records(seen[Name(h) := h.typeflag], done + [h])
    ensures AllOk(done + [h]) && DistinctNames(done + [h])
    ensures Sum(HeaderSize, done + [h]) == Sum(HeaderSize, done) + h.size
    ensures LinksOf(done + [h]) ==
              if h.typeflag == TypeSymlink then LinksOf(done)[Name(h) := h.linkname] else LinksOf(done)
  {
    NoEarlierNonDirectoryGrows(seen, done, h);
    RecordsGrow(seen, done, h);
    SpecificationGrows(seen, done, h);
  }

  lemma SpecificationGrows(seen: map<string, TypeFlag>, done: seq<Header>, h: Header)
    requires Records(seen, done) && Name(h) !in seen
    requires AllOk(done) && DistinctNames(done) && HeaderOk(h)
    ensures AllOk(done + [h]) && DistinctNames(done + [h])
    ensures Sum(HeaderSize, done + [h]) == Sum(HeaderSize, done) + h.size
    ensures LinksOf(done + [h]) ==
              if h.typeflag == TypeSymlink then LinksOf(done)[Name(h) := h.linkname] else LinksOf(done)
  {
    assert (done + [h])[..|done|] == done;
    forall i | 0 <= i < |done| ensures Name(done[i]) != Name(h) {
      assert done[i] in done;
    }
  }

  lemma RecordsGrow(seen: map<string, TypeFlag>, done: seq<Header>, h: Header)
    requires Records(seen, done) && Name(h) !in seen
    ensures Records(seen[Name(h) := h.typeflag], done + [h])
  {
    var seen' := seen[Name(h) := h.typeflag];
    forall name | name in seen' ensures exists other :: other in done + [h] && Name(other) == name {
      if name != Name(h) {
        var other :| other in done && Name(other) == name;
        assert other in done + [h];
      } else {
        assert h in done + [h];
      }
    }
  }

  lemma TakeOneMore(headers: seq<Header>, i: nat)
    requires i < |headers|
    ensures headers[..i + 1] == headers[..i] + [headers[i]]
    ensures headers[..i] + [headers[i]] <= headers
  {
  }

  /** Once every header is read, only these questions are left. */
  lemma ReadToTheEnd(nodes: Tree, headers: seq<Header>, entries: int, expanded: int,
                     seen: map<string, TypeFlag>, links: map<string, string>, total: int)
    requires Progress(nodes, headers, entries, expanded, seen, links, total)
    requires entries <= MAX_ENTRIES && expanded <= MAX_EXPANDED
    ensures Extractable(headers, entries, expanded) <==>
            && |seen| == entries && total == expanded
            && LinksAccepted(links, SafeSourceArchivePath) && NoEntryBelowNonDirectory(headers)
  {
    assert forall i :: 0 <= i < |headers| ==> headers[i] in headers;
  }

  lemma NothingRead(entries: int, expanded: int)
    requires entries >= 0 && expanded >= 0
    ensures Progress(map[], [], entries, expanded, map[], map[], 0)
  {
    forall q ensures NodeAt(map[], [], map[], {}, q) {
    }
  }

  /** The loop over the headers. */
  method ReadEntries(disk: Disk, headers: seq<Header>, entries: int, expanded: int)
    returns (ok: bool, seen: map<string, TypeFlag>, links: map<string, string>, total: int)
    requires disk.nodes == map[] && entries >= 0 && expanded >= 0
    modifies disk
    ensures WellFormed(disk.nodes) && forall q :: q in disk.nodes ==> !disk.nodes[q].Symlink?
    ensures ok ==> Progress(disk.nodes, headers, entries, expanded, seen, links, total)
    ensures !ok ==> !Extractable(headers, entries, expanded)
  {
    seen, links, total, ok := map[], map[], 0, true;
    NothingRead(entries, expanded);
    assert headers[..0] == [];
    for i := 0 to |headers|
      invariant Progress(disk.nodes, headers[..i], entries, expanded, seen, links, total)
    {
      TakeOneMore(headers, i);
      ok, seen, links, total :=
        ExtractEntry(disk, headers, headers[..i], headers[i], entries, expanded, seen, links, total);
      if !ok {
        return;
      }
    }
    assert headers[..|headers|] == headers;
    ok := true;
    UnpackedHasNoLinks(disk.nodes, headers);
  }

  /** The whole extraction; `broken` says that the reader failed after the last header. */
  method ExtractRecipeSource(headers: seq<Header>, broken: bool, entries: int, expanded: int)
    returns (ok: bool, disk: Disk)
    ensures ok <==> !broken && expanded >= 0 && Extractable(headers, entries, expanded)
    ensures WellFormed(disk.nodes)
    ensures ok ==> Unpacked(disk.nodes, headers, LinksOf(headers), LinksOf(headers).Keys)
    ensures ok ==> AllContained(disk.nodes)
    // No link exists before every other condition has been checked.
    ensures (exists q :: q in disk.nodes && disk.nodes[q].Symlink?) ==>
              LinksAccepted(LinksOf(headers), SafeSourceArchivePath) && |headers| == entries
                    && Sum(HeaderSize, headers) == expanded
  {
    disk := new Disk();
    if entries < 0 || entries > MAX_ENTRIES || expanded < 0 || expanded > MAX_EXPANDED {
      return false, disk;
    }
    var read, seen, links, total := ReadEntries(disk, headers, entries, expanded);
    if !read {
      return false, disk;
    }
    ReadToTheEnd(disk.nodes, headers, entries, expanded, seen, links, total);
    if broken || |seen| != entries || total != expanded {
      return false, disk;
    }
    var accepted := ValidateContainedLinks(links, SafeSourceArchivePath);
    if !accepted {
      return false, disk;
    }
    ok := CreateLinks(disk, headers, links, SafeSourceArchivePath);
  }
}
