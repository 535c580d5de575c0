/** The second half of `materializeRecipeCapture` (worker/recipe_capture.go): the files against the
    proof, and then onto disk, links last; and what acceptance says about the files. */
module CapturedFiles {
  import opened Hexadecimal
  import opened Values
  import opened Text
  import opened GitTree
  import opened RecipeLoader
  import opened RecipeProof
  import opened RecipeCapture
  import opened ContainedLinks
  import opened Resolution
  import opened DiskTree
  import opened RecipeSources
  import opened Sums

  lemma LinksInGrow(env: Env, files: seq<CaptureFile>, i: nat)
    requires i < |files|
    ensures LinksIn(env, files[..i + 1]) ==
            if files[i].mode == LINK_MODE
            then LinksIn(env, files[..i])[files[i].path := Data(env.store, files[i].content)]
            else LinksIn(env, files[..i])
  {
    assert files[..i + 1][..i] == files[..i];
  }

  ghost predicate AllHeld(loader: Loader, files: seq<CaptureFile>)
    reads loader
  {
    forall f :: f in files ==> loader.Held(f.content)
  }

  /** One file: within `room` the transfer budget is never exceeded. */
  method CheckContent(loader: Loader, env: Env, expected: map<string, Entry>, file: CaptureFile, ghost room: int)
    returns (ok: bool, data: Bytes)
    requires loader.Valid() && loader.store == env.store
    requires loader.transferred <= room && room + file.content.size <= BUDGET
    modifies loader
    ensures ok <==> ContentOk(env, expected, file)
    ensures ok ==> data == Data(env.store, file.content) && loader.Valid() && loader.Held(file.content)
    ensures ok ==> loader.transferred <= room + file.content.size
    ensures ok ==> forall ref :: old(loader.Held(ref)) ==> loader.Held(ref)
  {
    var loaded := loader.Load(file.content, MAX_RECIPE_TREE);
    if loaded.OverBudget? {
      assert false;
    }
    if loaded.Refused? {
      return false, "";
    }
    data := loaded.data;
    ok := file.path in expected && file.mode == expected[file.path].mode
          && expected[file.path].sha == env.gitHash("blob", data);
  }

  /** Within the byte budget of the directory the transfer budget is never exceeded. */
  method CheckContents(loader: Loader, env: Env, expected: map<string, Entry>, files: seq<CaptureFile>)
    returns (ok: bool, links: map<string, string>)
    requires loader.Valid() && loader.store == env.store && FilesOk(files)
    requires loader.transferred <= MAX_MANIFEST + MAX_PROOF
    modifies loader
    ensures ok <==> forall f :: f in files ==> ContentOk(env, expected, f)
    ensures ok ==> links == LinksIn(env, files) && loader.Valid() && AllHeld(loader, files)
  {
    links := map[];
    for i := 0 to |files|
      invariant loader.Valid() && loader.transferred <= MAX_MANIFEST + MAX_PROOF + Sum(FileSize, files[..i])
      invariant forall f :: f in files[..i] ==> ContentOk(env, expected, f)
      invariant links == LinksIn(env, files[..i]) && AllHeld(loader, files[..i])
    {
      var file := files[i];
      TakeOneMoreFile(files, i);
      LinksInGrow(env, files, i);
      SumPrefix(FileSize, files, i + 1);
      var ok', data := CheckContent(loader, env, expected, file, MAX_MANIFEST + MAX_PROOF + Sum(FileSize, files[..i]));
      if !ok' {
        return false, map[];
      }
      if file.mode == LINK_MODE {
        links := links[file.path := data];
      }
    }
    assert files[..|files|] == files;
    ok := true;
  }

  lemma TakeOneMoreFile(files: seq<CaptureFile>, i: nat)
    requires i < |files|
    ensures files[i] in files && files[..i + 1] == files[..i] + [files[i]]
    ensures Sum(FileSize, files[..i + 1]) == Sum(FileSize, files[..i]) + files[i].content.size
  {
    assert files[..i + 1][..i] == files[..i];
  }

  // ----- onto disk -----

  /** A captured file as the entry of a plain archive. */
  function HeaderOf(env: Env, f: CaptureFile): Header {
    var data := Data(env.store, f.content);
    if f.mode == LINK_MODE then Header(f.path, TypeSymlink, 0x1A4, 0, data, true)
    else Header(f.path, TypeReg, if f.mode == "100755" then 0x1ED else 0x1A4, |data|, "", true)
  }

  function Headers(env: Env, files: seq<CaptureFile>): seq<Header> {
    seq(|files|, i requires 0 <= i < |files| => HeaderOf(env, files[i]))
  }

  datatype Content = Content(mode: string, bytes: Bytes)

  /** The captured files: regular ones with their bytes, links with their targets. */
  function ContentsOf(env: Env, files: seq<CaptureFile>): map<string, Content> {
    if files == [] then map[]
    else
      var last := files[|files| - 1];
      ContentsOf(env, files[..|files| - 1])[last.path := Content(last.mode, Data(env.store, last.content))]
  }

  lemma SafeForBoth(path: string)
    requires SafeRecipePath(path)
    ensures SafeSourceArchivePath(path) && !HasSuffix(path, "/") && path != ""
  {
    assert Split("", '/') == [""] && "" in Split("", '/');
    if HasSuffix(path, "/") {
      EndsEmpty(path);
    }
  }

  lemma {:induction false} EndsEmpty(s: string)
    requires s != "" && s[|s| - 1] == '/'
    ensures |Split(s, '/')| >= 2 && Split(s, '/')[|Split(s, '/')| - 1] == "" && "" in Split(s, '/')
  {
    if |s| == 1 {
      assert s[1..] == "" && Split("", '/') == [""];
    } else {
      EndsEmpty(s[1..]);
    }
  }

  lemma HeaderFacts(env: Env, f: CaptureFile)
    requires FileOk(f)
    ensures HeaderOk(HeaderOf(env, f)) && Name(HeaderOf(env, f)) == f.path && HeaderOf(env, f).typeflag != TypeDir
  {
    SafeForBoth(f.path);
  }

  lemma HeadersFacts(env: Env, files: seq<CaptureFile>)
    requires FilesOk(files) && forall path :: path in ByPath(files) ==> ParentsFree(ByPath(files).Keys, path)
    ensures var headers := Headers(env, files);
            AllOk(headers) && RecipeSources.DistinctNames(headers) && NoEntryBelowNonDirectory(headers)
                  && NoEarlierNonDirectory(headers)
  {
    var headers := Headers(env, files);
    forall i | 0 <= i < |files| ensures HeaderOk(headers[i]) && Name(headers[i]) == files[i].path {
      assert files[i] in files;
      HeaderFacts(env, files[i]);
    }
    ByPathKeys(files);
    forall i, j | 0 <= i < |headers| && 0 <= j < |headers| ensures !Above(Path(headers[i]), Path(headers[j])) {
      assert files[i] in files && files[j] in files;
      FreeOfAncestor(ByPath(files).Keys, files[i].path, files[j].path);
    }
  }

  lemma FreeOfAncestor(paths: set<string>, ancestor: string, path: string)
    requires ParentsFree(paths, path) && ancestor in paths
    ensures !Above(Split(ancestor, '/'), Split(path, '/'))
  {
    var p, q := Split(path, '/'), Split(ancestor, '/');
    assert q <= p ==> p[..|q|] == q;
  }

  lemma HeadersGrow(env: Env, files: seq<CaptureFile>, i: nat)
    requires i < |files|
    ensures Headers(env, files)[..i + 1] == Headers(env, files)[..i] + [HeaderOf(env, files[i])]
    ensures HeaderOf(env, files[i]) in Headers(env, files)
  {
    assert Headers(env, files)[i] == HeaderOf(env, files[i]);
  }

  /** With no file below another, nothing stands in the way. */
  lemma NothingClashes(headers: seq<Header>, i: nat)
    requires i < |headers| && AllOk(headers) && RecipeSources.DistinctNames(headers)
    requires NoEntryBelowNonDirectory(headers)
    requires forall h :: h in headers ==> h.typeflag != TypeDir
    ensures FreshName(headers[..i], headers[i]) && !Clashes(headers[..i], headers[i])
  {
    var h := headers[i];
    forall other | other in headers[..i] ensures Name(other) != Name(h) && HeaderOk(other) && other in headers {
      var j :| 0 <= j < i && headers[j] == other;
      assert Name(headers[j]) != Name(headers[i]);
    }
    NeitherAbove(headers, h);
  }

  lemma NeitherAbove(headers: seq<Header>, h: Header)
    requires NoEntryBelowNonDirectory(headers) && h in headers
    ensures forall other :: other in headers && other.typeflag != TypeDir ==> !Above(Path(other), Path(h))
    ensures h.typeflag != TypeDir ==> forall other :: other in headers ==> !Above(Path(h), Path(other))
  {
    var i :| 0 <= i < |headers| && headers[i] == h;
    forall other | other in headers
      ensures other.typeflag != TypeDir ==> !Above(Path(other), Path(h))
      ensures h.typeflag != TypeDir ==> !Above(Path(h), Path(other))
    {
      var j :| 0 <= j < |headers| && headers[j] == other;
    }
  }

  lemma {:induction false} LinksOfHeaders(env: Env, files: seq<CaptureFile>)
    requires forall f :: f in files ==> FileOk(f)
    ensures LinksOf(Headers(env, files)) == LinksIn(env, files)
  {
    if files != [] {
      var before, last := files[..|files| - 1], files[|files| - 1];
      assert files == before + [last];
      LinksOfHeaders(env, before);
      assert Headers(env, files)[..|before|] == Headers(env, before);
      HeaderFacts(env, last);
    }
  }

  /** Regular files with their bytes and permissions; directories and links are in the tree. */
  function Regulars(env: Env, files: seq<CaptureFile>): map<string, Content> {
    if files == [] then map[]
    else
      var before, last := Regulars(env, files[..|files| - 1]), files[|files| - 1];
      if last.mode == LINK_MODE then before else before[last.path := Content(last.mode, Data(env.store, last.content))]
  }

  /** An object already at hand is read again and not transferred again. */
  method LoadAgain(loader: Loader, ref: Ref) returns (data: Bytes)
    requires loader.Valid() && loader.Held(ref) && Loads(loader.store, ref, MAX_RECIPE_TREE)
    modifies loader
    ensures loader.Valid() && data == Data(loader.store, ref) && loader.transferred == old(loader.transferred)
    ensures forall other :: old(loader.Held(other)) ==> loader.Held(other)
  {
    var loaded := loader.Load(ref, MAX_RECIPE_TREE);
    if !loaded.Loaded? {
      assert false;
    }
    data := loaded.data;
  }

  method WriteFile(disk: Disk, loader: Loader, env: Env, ghost headers: seq<Header>, file: CaptureFile)
    returns (data: Bytes)
    requires loader.Valid() && loader.store == env.store && loader.Held(file.content)
    requires FileOk(file) && Loads(env.store, file.content, MAX_RECIPE_TREE)
    requires WellFormed(disk.nodes) && Unpacked(disk.nodes, headers, map[], {})
    requires FreshName(headers, HeaderOf(env, file)) && !Clashes(headers, HeaderOf(env, file))
    modifies loader, disk
    ensures loader.Valid() && forall other :: old(loader.Held(other)) ==> loader.Held(other)
    ensures WellFormed(disk.nodes) && Unpacked(disk.nodes, headers + [HeaderOf(env, file)], map[], {})
    ensures file.mode != LINK_MODE ==> data == Data(env.store, file.content)
  {
    HeaderFacts(env, file);
    data := "";
    var header := Header(file.path, TypeSymlink, 0x1A4, 0, Data(env.store, file.content), true);
    if file.mode != LINK_MODE {
      data := LoadAgain(loader, file.content);
      header := Header(file.path, TypeReg, if file.mode == "100755" then 0x1ED else 0x1A4, |data|, "", true);
    }
    var made := UnpackEntry(disk, headers, header);
  }

  ghost predicate Writable(env: Env, files: seq<CaptureFile>) {
    && FilesOk(files) && (forall path :: path in ByPath(files) ==> ParentsFree(ByPath(files).Keys, path))
    && (forall f :: f in files ==> Loads(env.store, f.content, MAX_RECIPE_TREE))
  }

  lemma NextFile(env: Env, files: seq<CaptureFile>, i: nat)
    requires Writable(env, files) && i < |files|
    ensures files[i] in files && FileOk(files[i]) && Loads(env.store, files[i].content, MAX_RECIPE_TREE)
    ensures var headers, h := Headers(env, files), HeaderOf(env, files[i]);
            headers[..i + 1] == headers[..i] + [h] && FreshName(headers[..i], h) && !Clashes(headers[..i], h)
  {
    assert files[i] in files;
    HeadersGrow(env, files, i);
    NextIsFresh(env, files, i);
  }

  lemma NextIsFresh(env: Env, files: seq<CaptureFile>, i: nat)
    requires Writable(env, files) && i < |files|
    ensures |Headers(env, files)| == |files|
    ensures var headers := Headers(env, files);
            FreshName(headers[..i], headers[i]) && !Clashes(headers[..i], headers[i])
  {
    HeadersFacts(env, files);
    NothingClashes(Headers(env, files), i);
  }

  method WriteFiles(loader: Loader, env: Env, files: seq<CaptureFile>, links: map<string, string>)
    returns (disk: Disk, written: map<string, Content>)
    requires loader.Valid() && loader.store == env.store && AllHeld(loader, files)
    requires Writable(env, files)
    requires links == LinksIn(env, files) && LinksAccepted(links, SafeRecipePath)
    modifies loader
    ensures WellFormed(disk.nodes) && AllContained(disk.nodes)
    ensures Unpacked(disk.nodes, Headers(env, files), LinksIn(env, files), LinksIn(env, files).Keys)
    ensures written == Regulars(env, files)
  {
    disk, written := WriteRegulars(loader, env, files);
    HeadersFacts(env, files);
    LinksOfHeaders(env, files);
    NonEmptyPaths();
    var ok := CreateLinks(disk, Headers(env, files), links, SafeRecipePath);
  }

  /** Everything but the links. */
  method WriteRegulars(loader: Loader, env: Env, files: seq<CaptureFile>)
    returns (disk: Disk, written: map<string, Content>)
    requires loader.Valid() && loader.store == env.store && AllHeld(loader, files)
    requires Writable(env, files)
    modifies loader
    ensures fresh(disk) && WellFormed(disk.nodes) && Unpacked(disk.nodes, Headers(env, files), map[], {})
    ensures written == Regulars(env, files)
  {
    ghost var headers := Headers(env, files);
    disk := new Disk();
    written := map[];
    NothingUnpacked();
    assert headers[..0] == [];
    for i := 0 to |files|
      invariant loader.Valid() && AllHeld(loader, files)
      invariant WellFormed(disk.nodes) && Unpacked(disk.nodes, headers[..i], map[], {})
      invariant written == Regulars(env, files[..i])
    {
      NextFile(env, files, i);
      RegularsGrow(env, files, i);
      var data := WriteFile(disk, loader, env, headers[..i], files[i]);
      if files[i].mode != LINK_MODE {
        written := written[files[i].path := Content(files[i].mode, data)];
      }
    }
    assert files[..|files|] == files && headers[..|files|] == headers;
  }

  lemma NothingUnpacked()
    ensures WellFormed(map[]) && Unpacked(map[], [], map[], {})
  {
    forall q ensures NodeAt(map[], [], map[], {}, q) {
    }
  }

  lemma NonEmptyPaths()
    ensures forall s :: SafeRecipePath(s) ==> s != ""
  {
    assert Split("", '/') == [""] && "" in Split("", '/');
  }

  lemma RegularsGrow(env: Env, files: seq<CaptureFile>, i: nat)
    requires i < |files|
    ensures files[i] in files
    ensures Regulars(env, files[..i + 1]) ==
            if files[i].mode == LINK_MODE then Regulars(env, files[..i])
            else Regulars(env, files[..i])[files[i].path := Content(files[i].mode, Data(env.store, files[i].content))]
  {
    assert files[..i + 1][..i] == files[..i];
  }

  // ----- the whole check -----

  lemma {:induction false} TreesWellParsed(env: Env, trees: seq<Ref>)
    requires forall ref :: ref in trees ==> TreeOk(env, ref)
    ensures WellParsed(TreesOf(env, trees))
  {
    if trees != [] {
      var before, last := trees[..|trees| - 1], trees[|trees| - 1];
      assert last in trees && TreeOk(env, last);
      TreesWellParsed(env, before);
      ParsedNames(Data(env.store, last), {});
    }
  }

  /** The directory's files as the proof has them, and whether the proof is used up. */
  method WalkProof(trees: Trees, root: string, m: Manifest) returns (ok: bool, expected: map<string, Entry>)
    requires WellParsed(trees)
    ensures ok <==> ProofOk(trees, root, m)
    ensures ok ==> expected == Walked(trees, root, m.directory).value.expected
  {
    var sha, used := FindDirectory(trees, root, if m.directory == "" then [] else Split(m.directory, '/'));
    if sha.None? {
      return false, map[];
    }
    var walker := new Walker(trees, used);
    ok := walker.Run(sha.value, "");
    if !ok {
      return false, map[];
    }
    expected := walker.expected;
    ok := |walker.used| == |trees| && |expected| == |m.files|;
  }

  method CheckInventory(env: Env, m: Manifest, pkgbase: string) returns (ok: bool)
    ensures ok <==> InventoryOk(env, m, pkgbase)
  {
    ok := CheckIdentity(env, m, pkgbase);
    if !ok {
      return;
    }
    var checked, files := CheckFiles(m.files);
    if !checked {
      return false;
    }
    ok := CheckParents(files);
    if !ok {
      return;
    }
    ok := CheckPkgbuild(files, m.files);
  }

  method CheckIdentity(env: Env, m: Manifest, pkgbase: string) returns (ok: bool)
    ensures ok == IdentityOk(env, m, pkgbase)
  {
    if m.schemaVersion != 1 || m.kind != "recipe-capture" || m.pkgbase != pkgbase || !env.nameOk(pkgbase) ||
       !(m.directory == "" || SafeRecipePath(m.directory)) || |m.files| == 0 || |m.files| > MAX_FILES ||
       |m.trees| == 0 || |m.trees| > MAX_TREES || |m.commit| != 40 || !env.urlOk(m.repository) {
      return false;
    }
    return true;
  }

  method CheckPkgbuild(files: map<string, CaptureFile>, ghost inventory: seq<CaptureFile>) returns (ok: bool)
    requires FilesOk(inventory) && files == ByPath(inventory)
    ensures ok == RecipeOk(files)
  {
    ok := "PKGBUILD" in files && files["PKGBUILD"].mode != LINK_MODE &&
          files["PKGBUILD"].content.size != 0 && files["PKGBUILD"].content.size <= MAX_PKGBUILD;
    if "PKGBUILD" in files {
      KeyHolds(inventory, "PKGBUILD");
    }
  }

  lemma {:induction false} KeyHolds(files: seq<CaptureFile>, path: string)
    requires path in ByPath(files)
    ensures ByPath(files)[path] in files
  {
    if files[|files| - 1].path != path {
      KeyHolds(files[..|files| - 1], path);
    }
  }

  method CheckProof(loader: Loader, env: Env, m: Manifest) returns (ok: bool, expected: map<string, Entry>)
    requires loader.Valid() && loader.store == env.store && loader.transferred <= MAX_MANIFEST
    modifies loader
    ensures ok <==> ProvenOk(env, m)
    ensures ok ==> expected == Expected(env, m) && loader.Valid() && loader.transferred <= MAX_MANIFEST + MAX_PROOF
  {
    expected := map[];
    var commit := loader.Load(m.commitObject, MAX_COMMIT);
    if commit.OverBudget? {
      assert false;
    }
    if commit.Refused? {
      return false, expected;
    }
    var line := commit.data[..IndexOf(commit.data, '\n')];
    if env.gitHash("commit", commit.data) != m.commit || !HasPrefix(line, "tree ") || |line| != 45 {
      return false, expected;
    }
    var loaded, trees := LoadTrees(loader, env, m);
    if !loaded {
      return false, expected;
    }
    TreesWellParsed(env, m.trees);
    ok, expected := WalkProof(trees, line[5..], m);
  }

  method CheckManifest(loader: Loader, env: Env, m: Manifest, pkgbase: string)
    returns (ok: bool, links: map<string, string>)
    requires loader.Valid() && loader.store == env.store && loader.transferred <= MAX_MANIFEST
    modifies loader
    ensures ok <==> ManifestOk(env, m, pkgbase)
    ensures ok ==> loader.Valid() && AllHeld(loader, m.files) && links == LinksIn(env, m.files)
  {
    links := map[];
    ok := CheckInventory(env, m, pkgbase);
    if !ok {
      return;
    }
    var expected;
    ok, expected := CheckProof(loader, env, m);
    if !ok {
      return;
    }
    ok, links := CheckContents(loader, env, expected, m.files);
    if !ok {
      return;
    }
    ok := ValidateContainedLinks(links, SafeRecipePath);
  }

  /** The whole materialization: it succeeds exactly on what is acceptable, never for want of budget,
      and only then writes anything; no path in what it writes leads out. */
  method Materialize(env: Env, ref: Ref, pkgbase: string)
    returns (ok: bool, manifest: Option<Manifest>, disk: Disk, written: map<string, Content>)
    ensures ok <==> Acceptable(env, ref, pkgbase)
    ensures ok ==> manifest == env.decode(Data(env.store, ref)) && manifest.Some?
    ensures ok ==> AllContained(disk.nodes) && written == Regulars(env, manifest.value.files)
    ensures ok ==> var files := manifest.value.files;
                   Unpacked(disk.nodes, Headers(env, files), LinksIn(env, files), LinksIn(env, files).Keys)
    ensures !ok ==> disk.nodes == map[] && written == map[]
  {
    disk := new Disk();
    manifest, written := None, map[];
    if !IsSha256(ref.sha256) || ref.size <= 0 || ref.size > MAX_MANIFEST {
      return false, manifest, disk, written;
    }
    var loader := new Loader(env.store);
    var root := loader.Load(ref, MAX_MANIFEST);
    if root.OverBudget? {
      assert false;
    }
    if root.Refused? {
      return false, manifest, disk, written;
    }
    manifest := env.decode(root.data);
    if manifest.None? {
      return false, manifest, disk, written;
    }
    var links;
    ok, links := CheckManifest(loader, env, manifest.value, pkgbase);
    if !ok {
      return;
    }
    AcceptedIsWritable(env, manifest.value, pkgbase);
    disk, written := WriteFiles(loader, env, manifest.value.files, links);
  }

  lemma AcceptedIsWritable(env: Env, m: Manifest, pkgbase: string)
    requires ManifestOk(env, m, pkgbase)
    ensures Writable(env, m.files)
  {
    assert forall f :: f in m.files ==> ContentOk(env, Expected(env, m), f);
  }
}
