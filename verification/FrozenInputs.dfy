/** The transfer accounting of `materializeFrozenInputs` (worker/frozen-inputs.go): every object is
    counted against the reviewed budget before it is downloaded. */
module FrozenInputs {
  import opened Hexadecimal
  import opened Values
  import opened RecipeLoader
  import opened Sums

  const GIB := 1024 * 1024 * 1024
  const MAX_TRANSFER := 256 * GIB
  const MAX_LOCK := 128 * 1024
  const MAX_PAGE := 1024 * 1024
  const MAX_HELPER := 32 * GIB
  const MAX_CONFIG := 64 * 1024
  const MAX_PACKAGE := 4 * GIB
  const PAGE_BYTES := 64 * MAX_PACKAGE
  const MAX_KEY := 1024 * 1024
  const MAX_PAGES := 1024
  const MAX_UNIQUE := 4096
  const INT64_MAX := 0x7FFF_FFFF_FFFF_FFFF

  datatype Item = Item(name: string, package: Ref, signature: Ref, publicKey: Ref)

  datatype Environment = Environment(packageCount: int, totalBytes: int, chunks: seq<Ref>)

  datatype Manifest = Manifest(transferLimit: int, helperArchive: Ref, makepkgConfig: Ref,
                               environments: seq<Environment>)

  /** The decoders, and the checks that do not concern sizes. */
  datatype Checks = Checks(manifest: Bytes -> Option<Manifest>, page: Bytes -> Option<seq<Item>>,
                           environmentOk: (Manifest, int) -> bool, itemOk: (Manifest, Item) -> bool,
                           inventoryOk: (Environment, seq<Item>) -> bool)

  predicate InputOk(ref: Ref, max: int) {
    IsSha256(ref.sha256) && 0 < ref.size <= max
  }

  // ----- totals under digests -----

  type Sizes = map<string, int>

  ghost function Total(sizes: Sizes): int
    decreases sizes.Keys
  {
    if sizes.Keys == {} then 0
    else
      var sha :| sha in sizes.Keys;
      sizes[sha] + Total(sizes - {sha})
  }

  lemma {:induction false} TotalWithout(sizes: Sizes, sha: string)
    requires sha in sizes
    ensures Total(sizes) == sizes[sha] + Total(sizes - {sha})
    decreases sizes.Keys
  {
    var first :| first in sizes.Keys && Total(sizes) == sizes[first] + Total(sizes - {first});
    if first != sha {
      TotalWithout(sizes - {first}, sha);
      TotalWithout(sizes - {sha}, first);
      assert sizes - {first} - {sha} == sizes - {sha} - {first};
    }
  }

  lemma TotalWith(sizes: Sizes, sha: string, size: int)
    requires sha !in sizes
    ensures Total(sizes[sha := size]) == Total(sizes) + size
  {
    TotalWithout(sizes[sha := size], sha);
    assert sizes[sha := size] - {sha} == sizes;
  }

  predicate Within(a: Sizes, b: Sizes) {
    forall sha :: sha in a ==> sha in b && b[sha] == a[sha]
  }

  predicate Positive(sizes: Sizes) {
    forall sha :: sha in sizes ==> sizes[sha] > 0
  }

  lemma {:induction false} TotalWithin(a: Sizes, b: Sizes)
    requires Within(a, b) && Positive(b)
    ensures 0 <= Total(a) <= Total(b)
    decreases b.Keys
  {
    if sha :| sha in b {
      TotalWithout(b, sha);
      if sha in a {
        TotalWithout(a, sha);
        TotalWithin(a - {sha}, b - {sha});
      } else {
        TotalWithin(a, b - {sha});
      }
    } else {
      assert a.Keys == {};
    }
  }

  // ----- the accounts -----

  /** The bytes under the digest have this size, and this digest. */
  predicate Verified(store: Store, sha: string, size: int) {
    var data := store.fetch(sha);
    data.Some? && |data.value| == size && store.sha256(data.value) == sha
  }

  ghost predicate AllVerified(store: Store, sizes: Sizes) {
    forall sha :: sha in sizes ==> Verified(store, sha, sizes[sha])
  }

  /** Each download is of another object. */
  ghost predicate EachOnce(downloads: seq<string>, started: Sizes) {
    && (forall sha :: sha in started <==> sha in downloads)
    && (forall i, j :: 0 <= i < j < |downloads| ==> downloads[i] != downloads[j])
  }

  /** Nothing but the lock and counted objects was started, each once and all of it within the limit. */
  ghost predicate IsOrderly(downloads: seq<string>, started: Sizes, objects: Sizes, lock: Ref, limit: int) {
    && EachOnce(downloads, started) && Positive(started) && Within(started - {lock.sha256}, objects)
    && (lock.sha256 in started ==> started[lock.sha256] == lock.size)
    && (started.Keys <= {lock.sha256} || Total(started) <= limit <= MAX_TRANSFER)
  }

  /** At most this object was started, and only if it was not there. */
  ghost predicate MayStart(downloads: seq<string>, started: Sizes, downloads': seq<string>, started': Sizes, ref: Ref,
                           max: int) {
    || (downloads' == downloads && started' == started)
    || (InputOk(ref, max) && ref.sha256 !in started && downloads' == downloads + [ref.sha256]
        && started' == started[ref.sha256 := ref.size])
  }

  lemma OneMoreDownload(downloads: seq<string>, started: Sizes, ref: Ref)
    requires EachOnce(downloads, started) && ref.sha256 !in started
    ensures EachOnce(downloads + [ref.sha256], started[ref.sha256 := ref.size])
  {
  }

  /** A counted object for which there is room may be started. */
  lemma StillOrderly(downloads: seq<string>, started: Sizes, downloads': seq<string>, started': Sizes,
                     objects: Sizes, lock: Ref, limit: int, ref: Ref, max: int)
    requires IsOrderly(downloads, started, objects, lock, limit)
    requires MayStart(downloads, started, downloads', started', ref, max)
    requires ref.sha256 in objects && objects[ref.sha256] == ref.size && lock.sha256 in started
    requires ref.sha256 !in started ==> Total(started) + ref.size <= limit <= MAX_TRANSFER
    ensures IsOrderly(downloads', started', objects, lock, limit)
  {
    if started' != started {
      OneMoreDownload(downloads, started, ref);
      TotalWith(started, ref.sha256, ref.size);
    }
  }

  datatype Got = Object(data: Bytes) | NotObject | OverCap

  /** The variables that the closures share. */
  class Accounts {
    const store: Store
    const lock: Ref
    var transferred: int
    var seen: Sizes
    var limit: int
    var budget: int
    var objects: Sizes
    /** Every download that was started, in order, and with its size. */
    ghost var downloads: seq<string>
    ghost var started: Sizes

    constructor (store: Store, lock: Ref)
      ensures this.store == store && this.lock == lock && Transferred()
      ensures transferred == 0 && seen == map[] && objects == map[] && Orderly()
    {
      this.store, this.lock := store, lock;
      transferred, seen, limit, budget, objects, downloads, started := 0, map[], 0, 0, map[], [], map[];
    }

    /** Every download was completed, and `transferred` is their sum. */
    ghost predicate Transferred()
      reads this
    {
      && transferred == Total(seen) && Positive(seen) && AllVerified(store, seen)
      && started == seen && EachOnce(downloads, started)
    }

    ghost predicate Orderly()
      reads this
    {
      IsOrderly(downloads, started, objects, lock, limit)
    }

    /** The budget holds the lock and every listed object once. */
    ghost predicate Budgeted()
      reads this
    {
      && 0 < lock.size <= MAX_LOCK && 1 <= limit <= MAX_TRANSFER && Positive(objects)
      && budget == lock.size + Total(objects) && (objects != map[] ==> budget <= limit)
      && lock.sha256 in seen && seen[lock.sha256] == lock.size
      && Within(seen - {lock.sha256}, objects)
    }

    ghost predicate Valid()
      reads this
    {
      Transferred() && Budgeted() && Orderly()
    }

    /** `getObject` up to the worker-wide limit. */
    method Fetch(ref: Ref, max: int) returns (r: Got)
      requires Transferred()
      modifies `transferred, `seen, `downloads, `started
      ensures MayStart(old(downloads), old(started), downloads, started, ref, max)
      ensures r.Object? ==> Transferred() && InputOk(ref, max) && ref.sha256 in seen && seen[ref.sha256] == ref.size
      ensures r.Object? ==> r.data == Data(store, ref)
      ensures r.Object? ==> seen == if ref.sha256 in old(seen) then old(seen) else old(seen)[ref.sha256 := ref.size]
      ensures r.OverCap? ==>
                InputOk(ref, max) && ref.sha256 !in seen && seen == old(seen)
                      && old(transferred) + ref.size > MAX_TRANSFER
    {
      if !InputOk(ref, max) {
        return NotObject;
      }
      if ref.sha256 in seen {
        if seen[ref.sha256] != ref.size {
          return NotObject;
        }
        return Object(Data(store, ref));
      }
      if transferred > MAX_TRANSFER - ref.size {
        return OverCap;
      }
      OneMoreDownload(downloads, started, ref);
      downloads, started := downloads + [ref.sha256], started[ref.sha256 := ref.size];
      var fetched := store.fetch(ref.sha256);
      if fetched.None? || |fetched.value| != ref.size || store.sha256(fetched.value) != ref.sha256 {
        return NotObject;
      }
      TotalWith(seen, ref.sha256, ref.size);
      transferred := transferred + ref.size;
      seen := seen[ref.sha256 := ref.size];
      return Object(fetched.value);
    }

    /** What has been transferred is within what has been counted, with room for any counted object. */
    lemma CountedFirst(ref: Ref)
      requires Valid() && ref.sha256 in objects && objects[ref.sha256] == ref.size
      ensures transferred <= budget && (ref.sha256 !in seen ==> transferred + ref.size <= budget)
      ensures budget <= limit
    {
      var rest := seen - {lock.sha256};
      TotalWithout(seen, lock.sha256);
      TotalWithin(rest, objects);
      if ref.sha256 !in seen {
        TotalWith(rest, ref.sha256, ref.size);
        TotalWithin(rest[ref.sha256 := ref.size], objects);
      }
    }

    /** A counted object; the worker-wide limit cannot be what stops it. */
    method GetObject(ref: Ref, max: int) returns (data: Option<Bytes>)
      requires Valid() && ref.sha256 in objects && objects[ref.sha256] == ref.size
      modifies `transferred, `seen, `downloads, `started
      ensures Orderly()
      ensures data.Some? ==> Valid() && IsCounted(seen, ref) && Within(old(seen), seen)
      ensures data.Some? ==> data.value == Data(store, ref) && transferred <= budget <= limit
    {
      CountedFirst(ref);
      ghost var was, before := downloads, started;
      var got := Fetch(ref, max);
      StillOrderly(was, before, downloads, started, objects, lock, limit, ref, max);
      if got.OverCap? {
        assert false;
      }
      if got.NotObject? {
        return None;
      }
      assert Budgeted() by {
        assert forall sha :: sha in seen - {lock.sha256} ==> sha in old(seen) - {lock.sha256} || sha == ref.sha256;
      }
      CountedFirst(ref);
      return Some(got.data);
    }

    /** `addObject`: each digest once, always with the same size. */
    method AddObject(ref: Ref, max: int) returns (ok: bool)
      requires Valid() && max <= MAX_TRANSFER
      modifies `budget, `objects
      ensures Orderly()
      ensures ok ==> Valid() && ref.sha256 in objects && objects[ref.sha256] == ref.size
      ensures ok ==> Within(old(objects), objects)
      ensures ok ==> objects.Keys == old(objects).Keys + {ref.sha256} && 0 < ref.size <= max
      ensures !ok ==> !InputOk(ref, max) || (ref.sha256 in old(objects) && old(objects)[ref.sha256] != ref.size)
                      || lock.size + Total(old(objects)[ref.sha256 := ref.size]) > limit
    {
      if !InputOk(ref, max) {
        return false;
      }
      if ref.sha256 in objects {
        return objects[ref.sha256] == ref.size;
      }
      TotalWith(objects, ref.sha256, ref.size);
      objects := objects[ref.sha256 := ref.size];
      assert 0 <= budget + ref.size <= INT64_MAX by {
        TotalWithin(map[], old(objects));
      }
      budget := budget + ref.size;
      return budget <= limit;
    }
  }

  // ----- the inventory -----

  ghost predicate Counted(accounts: Accounts, ref: Ref)
    reads accounts
  {
    IsCounted(accounts.objects, ref)
  }

  /** The three objects of a package. */
  method AddItem(accounts: Accounts, item: Item) returns (ok: bool)
    requires accounts.Valid()
    modifies accounts`budget, accounts`objects
    ensures accounts.Orderly()
    ensures ok ==> accounts.Valid() && Within(old(accounts.objects), accounts.objects)
    ensures ok ==> 0 < item.package.size <= MAX_PACKAGE
    ensures ok ==> Counted(accounts, item.package) && Counted(accounts, item.signature)
    ensures ok ==> Counted(accounts, item.publicKey)
  {
    ok := accounts.AddObject(item.package, MAX_PACKAGE);
    if ok {
      ok := accounts.AddObject(item.signature, MAX_KEY);
    }
    if ok {
      ok := accounts.AddObject(item.publicKey, MAX_KEY);
    }
  }

  predicate IsCounted(objects: Sizes, ref: Ref) {
    ref.sha256 in objects && objects[ref.sha256] == ref.size
  }

  predicate ItemCounted(objects: Sizes, item: Item) {
    IsCounted(objects, item.package) && IsCounted(objects, item.signature) && IsCounted(objects, item.publicKey)
  }

  ghost predicate ItemsCounted(objects: Sizes, items: seq<Item>) {
    forall i :: 0 <= i < |items| ==> ItemCounted(objects, items[i])
  }

  lemma StillCounted(before: Sizes, objects: Sizes, refs: seq<Ref>, items: seq<Item>)
    requires Within(before, objects)
    ensures AllCounted(before, refs) ==> AllCounted(objects, refs)
    ensures ItemsCounted(before, items) ==> ItemsCounted(objects, items)
  {
    if AllCounted(before, refs) {
      forall j | 0 <= j < |refs| ensures IsCounted(objects, refs[j]) {
        assert IsCounted(before, refs[j]);
      }
    }
    if ItemsCounted(before, items) {
      forall j | 0 <= j < |items| ensures ItemCounted(objects, items[j]) {
        assert ItemCounted(before, items[j]);
      }
    }
  }

  lemma CountMore(objects: Sizes, refs: seq<Ref>, ref: Ref, items: seq<Item>, more: seq<Item>)
    ensures AllCounted(objects, refs) && IsCounted(objects, ref) ==> AllCounted(objects, refs + [ref])
    ensures ItemsCounted(objects, items) && ItemsCounted(objects, more) ==> ItemsCounted(objects, items + more)
  {
  }

  function PackageSize(item: Item): int {
    item.package.size
  }

  datatype Page = Page(names: set<string>, unique: set<string>, total: int)

  /** The page so far records these packages: each of them is good, and no name occurs twice. */
  ghost predicate Records(checks: Checks, manifest: Manifest, page: Page, items: seq<Item>) {
    && page.total == Sum(PackageSize, items)
    && (forall name :: name in page.names <==> exists item :: item in items && item.name == name)
    && (forall i, j :: 0 <= i < j < |items| ==> items[i].name != items[j].name)
    && (forall item :: item in items ==> checks.itemOk(manifest, item))
  }

  lemma RecordsMore(checks: Checks, manifest: Manifest, page: Page, items: seq<Item>, item: Item, page': Page)
    requires Records(checks, manifest, page, items) && item.name !in page.names && checks.itemOk(manifest, item)
    requires page'.names == page.names + {item.name} && page'.total == page.total + item.package.size
    ensures Records(checks, manifest, page', items + [item])
  {
    var more := items + [item];
    assert more[..|items|] == items;
    assert forall other :: other in more <==> other in items || other == item;
    forall i | 0 <= i < |items| ensures items[i].name != item.name {
      assert items[i] in items;
    }
  }

  /** One package: its name and archive, its objects, its size. */
  method AddPackage(accounts: Accounts, checks: Checks, manifest: Manifest, item: Item, page: Page,
                    ghost before: seq<Item>)
    returns (ok: bool, page': Page)
    requires accounts.Valid() && Records(checks, manifest, page, before)
    modifies accounts`budget, accounts`objects
    ensures accounts.Orderly()
    ensures ok ==> accounts.Valid() && Within(old(accounts.objects), accounts.objects)
    ensures ok ==> ItemCounted(accounts.objects, item) && Records(checks, manifest, page', before + [item])
    ensures ok ==> |page'.unique| <= MAX_UNIQUE && page'.unique == page.unique + {item.package.sha256}
    ensures ok ==> page'.total == page.total + item.package.size && 0 < item.package.size <= MAX_PACKAGE
  {
    page' := page;
    if item.name in page.names || !checks.itemOk(manifest, item) {
      return false, page';
    }
    page' := page'.(names := page.names + {item.name}, unique := page.unique + {item.package.sha256});
    if |page'.unique| > MAX_UNIQUE {
      return false, page';
    }
    ok := AddItem(accounts, item);
    page' := page'.(total := page.total + item.package.size);
    RecordsMore(checks, manifest, page, before, item, page');
  }

  /** At most `n` times `most`. */
  ghost predicate Bounded(from: int, total: int, n: int, most: int) {
    from <= total <= from + n * most
  }

  lemma OneMoreBounded(from: int, total: int, n: int, most: int, more: int)
    requires Bounded(from, total, n, most) && 0 <= more <= most
    ensures Bounded(from, total + more, n + 1, most)
  {
    assert (n + 1) * most == n * most + most;
  }

  lemma PageFits(from: int, total: int, n: nat)
    requires Bounded(from, total, n, MAX_PACKAGE) && n <= 64 && from <= 63 * PAGE_BYTES
    ensures from <= total <= from + PAGE_BYTES <= INT64_MAX
  {
    assert n * MAX_PACKAGE <= 64 * MAX_PACKAGE;
  }

  lemma PagesFit(total: int, n: nat)
    requires Bounded(0, total, n, PAGE_BYTES) && n < 64
    ensures 0 <= total <= 63 * PAGE_BYTES
  {
    assert n * PAGE_BYTES <= 63 * PAGE_BYTES;
  }

  lemma NoneYet(before: seq<Item>, items: seq<Item>)
    ensures before + items[..0] == before && items[..|items|] == items
  {
  }

  lemma OneFurther(before: seq<Item>, items: seq<Item>, i: nat)
    requires i < |items|
    ensures before + items[..i + 1] == before + items[..i] + [items[i]]
  {
    assert items[..i + 1] == items[..i] + [items[i]];
  }

  lemma CountOneMore(before: Sizes, objects: Sizes, items: seq<Item>, i: nat)
    requires i < |items| && Within(before, objects) && ItemsCounted(before, items[..i])
    requires ItemCounted(objects, items[i])
    ensures ItemsCounted(objects, items[..i + 1])
  {
    StillCounted(before, objects, [], items[..i]);
    CountMore(objects, [], items[i].package, items[..i], [items[i]]);
    assert items[..i + 1] == items[..i] + [items[i]];
  }

  /** One page of an environment; the total cannot overflow. */
  method AddPage(accounts: Accounts, checks: Checks, manifest: Manifest, items: seq<Item>, page: Page,
                 ghost before: seq<Item>)
    returns (ok: bool, page': Page)
    requires accounts.Valid() && |items| <= 64 && 0 <= page.total <= 63 * PAGE_BYTES
    requires Records(checks, manifest, page, before)
    modifies accounts`budget, accounts`objects
    ensures accounts.Orderly()
    ensures ok ==> accounts.Valid() && Within(old(accounts.objects), accounts.objects)
    ensures ok ==> ItemsCounted(accounts.objects, items) && Records(checks, manifest, page', before + items)
    ensures ok ==> page.total <= page'.total <= page.total + PAGE_BYTES <= INT64_MAX
  {
    page' := page;
    NoneYet(before, items);
    for i := 0 to |items|
      invariant accounts.Valid() && Within(old(accounts.objects), accounts.objects)
      invariant ItemsCounted(accounts.objects, items[..i]) && Records(checks, manifest, page', before + items[..i])
      invariant Bounded(page.total, page'.total, i, MAX_PACKAGE)
    {
      ghost var was := accounts.objects;
      ok, page' := AddPackage(accounts, checks, manifest, items[i], page', before + items[..i]);
      if !ok {
        return;
      }
      OneMoreBounded(page.total, page'.total - items[i].package.size, i, MAX_PACKAGE, items[i].package.size);
      CountOneMore(was, accounts.objects, items, i);
      OneFurther(before, items, i);
    }
    PageFits(page.total, page'.total, |items|);
    ok := true;
  }

  /** What the page under a reference lists. */
  function PageItems(store: Store, checks: Checks, ref: Ref): seq<Item> {
    var page := checks.page(Data(store, ref));
    if page.Some? then page.value else []
  }

  /** The packages of an environment, page by page. */
  function Packages(store: Store, checks: Checks, chunks: seq<Ref>): seq<Item> {
    if chunks == [] then []
    else Packages(store, checks, chunks[..|chunks| - 1]) + PageItems(store, checks, chunks[|chunks| - 1])
  }

  method ReadPage(accounts: Accounts, checks: Checks, ref: Ref) returns (page: Option<seq<Item>>)
    requires accounts.Valid() && Counted(accounts, ref)
    modifies accounts`transferred, accounts`seen, accounts`downloads, accounts`started
    ensures accounts.Orderly()
    ensures page.Some? ==> accounts.Valid() && 1 <= |page.value| <= 64
    ensures page.Some? ==> page.value == PageItems(accounts.store, checks, ref)
  {
    var data := accounts.GetObject(ref, MAX_PAGE);
    if data.None? {
      return None;
    }
    page := checks.page(data.value);
    if page.Some? && (|page.value| < 1 || |page.value| > 64) {
      page := None;
    }
  }

  ghost predicate AllCounted(objects: Sizes, refs: seq<Ref>) {
    forall i :: 0 <= i < |refs| ==> IsCounted(objects, refs[i])
  }

  /** A page is counted, then read, then its packages are counted. */
  method AddChunk(accounts: Accounts, checks: Checks, manifest: Manifest, ref: Ref, page: Page,
                  ghost before: seq<Item>)
    returns (ok: bool, page': Page, items: seq<Item>)
    requires accounts.Valid() && 0 <= page.total <= 63 * PAGE_BYTES && Records(checks, manifest, page, before)
    modifies accounts`budget, accounts`objects, accounts`transferred, accounts`seen, accounts`downloads,
             accounts`started
    ensures accounts.Orderly()
    ensures ok ==> accounts.Valid() && Within(old(accounts.objects), accounts.objects) && Counted(accounts, ref)
    ensures ok ==> items == PageItems(accounts.store, checks, ref) && ItemsCounted(accounts.objects, items)
    ensures ok ==> Records(checks, manifest, page', before + items)
    ensures ok ==> page.total <= page'.total <= page.total + PAGE_BYTES
  {
    page', items := page, [];
    ok := accounts.AddObject(ref, MAX_PAGE);
    if !ok {
      return;
    }
    var read := ReadPage(accounts, checks, ref);
    if read.None? {
      return false, page', items;
    }
    items := read.value;
    ok, page' := AddPage(accounts, checks, manifest, items, page, before);
  }

  /** The pages and all that they list are counted. */
  ghost predicate ChunksCounted(objects: Sizes, store: Store, checks: Checks, chunks: seq<Ref>) {
    AllCounted(objects, chunks) && ItemsCounted(objects, Packages(store, checks, chunks))
  }

  lemma MoreChunks(before: Sizes, objects: Sizes, store: Store, checks: Checks, chunks: seq<Ref>, i: nat)
    requires i < |chunks| && Within(before, objects) && ChunksCounted(before, store, checks, chunks[..i])
    requires IsCounted(objects, chunks[i]) && ItemsCounted(objects, PageItems(store, checks, chunks[i]))
    ensures ChunksCounted(objects, store, checks, chunks[..i + 1])
    ensures Packages(store, checks, chunks[..i + 1])
         == Packages(store, checks, chunks[..i]) + PageItems(store, checks, chunks[i])
  {
    var packages := Packages(store, checks, chunks[..i]);
    StillCounted(before, objects, chunks[..i], packages);
    CountMore(objects, chunks[..i], chunks[i], packages, PageItems(store, checks, chunks[i]));
    assert chunks[..i + 1] == chunks[..i] + [chunks[i]] && chunks[..i + 1][..i] == chunks[..i];
  }

  method AddChunks(accounts: Accounts, checks: Checks, manifest: Manifest, chunks: seq<Ref>, unique: set<string>)
    returns (ok: bool, page: Page, packages: seq<Item>)
    requires accounts.Valid() && |chunks| <= 64
    modifies accounts`budget, accounts`objects, accounts`transferred, accounts`seen, accounts`downloads,
             accounts`started
    ensures accounts.Orderly()
    ensures ok ==> accounts.Valid() && Within(old(accounts.objects), accounts.objects)
    ensures ok ==> packages == Packages(accounts.store, checks, chunks) && Records(checks, manifest, page, packages)
    ensures ok ==> ChunksCounted(accounts.objects, accounts.store, checks, chunks)
  {
    page, packages := Page({}, unique, 0), [];
    for i := 0 to |chunks|
      invariant accounts.Valid() && Within(old(accounts.objects), accounts.objects)
      invariant packages == Packages(accounts.store, checks, chunks[..i])
      invariant Records(checks, manifest, page, packages)
      invariant ChunksCounted(accounts.objects, accounts.store, checks, chunks[..i])
      invariant Bounded(0, page.total, i, PAGE_BYTES)
    {
      ghost var before, total := accounts.objects, page.total;
      PagesFit(page.total, i);
      var items;
      ok, page, items := AddChunk(accounts, checks, manifest, chunks[i], page, packages);
      if !ok {
        return;
      }
      OneMoreBounded(0, total, i, PAGE_BYTES, page.total - total);
      MoreChunks(before, accounts.objects, accounts.store, checks, chunks, i);
      packages := packages + items;
    }
    assert chunks[..|chunks|] == chunks;
    ok := true;
  }

  /** The packages are as many and as large as the environment says, each good, no name twice. */
  ghost predicate Inventoried(checks: Checks, manifest: Manifest, environment: Environment, packages: seq<Item>) {
    && |packages| == environment.packageCount && Sum(PackageSize, packages) == environment.totalBytes
    && (forall i, j :: 0 <= i < j < |packages| ==> packages[i].name != packages[j].name)
    && (forall item :: item in packages ==> checks.itemOk(manifest, item))
    && checks.inventoryOk(environment, packages)
  }

  /** An accepted environment: its pages list what it says, and all of it is counted. */
  ghost predicate EnvironmentCounted(objects: Sizes, store: Store, checks: Checks, manifest: Manifest,
                                     environment: Environment) {
    && ChunksCounted(objects, store, checks, environment.chunks)
    && Inventoried(checks, manifest, environment, Packages(store, checks, environment.chunks))
  }

  method AddEnvironment(accounts: Accounts, checks: Checks, manifest: Manifest, environment: Environment,
                        unique: set<string>)
    returns (ok: bool, unique': set<string>)
    requires accounts.Valid()
    modifies accounts`budget, accounts`objects, accounts`transferred, accounts`seen, accounts`downloads,
             accounts`started
    ensures accounts.Orderly()
    ensures ok ==> accounts.Valid() && Within(old(accounts.objects), accounts.objects)
    ensures ok ==> EnvironmentCounted(accounts.objects, accounts.store, checks, manifest, environment)
  {
    unique' := unique;
    if environment.packageCount < 1 || environment.packageCount > 4096 || environment.totalBytes < 1 ||
       environment.totalBytes > accounts.limit || |environment.chunks| < 1 || |environment.chunks| > 64 {
      return false, unique';
    }
    var page, packages;
    ok, page, packages := AddChunks(accounts, checks, manifest, environment.chunks, unique);
    unique' := page.unique;
    ok := ok && |packages| == environment.packageCount && page.total == environment.totalBytes
          && checks.inventoryOk(environment, packages);
  }

  /** The environments counted so far stay so. */
  ghost predicate FirstCounted(objects: Sizes, store: Store, checks: Checks, manifest: Manifest, n: int)
    requires 0 <= n <= |manifest.environments|
  {
    forall i :: 0 <= i < n ==> EnvironmentCounted(objects, store, checks, manifest, manifest.environments[i])
  }

  lemma OneMoreEnvironment(before: Sizes, objects: Sizes, store: Store, checks: Checks, manifest: Manifest, n: nat)
    requires n < |manifest.environments| && Within(before, objects)
    requires FirstCounted(before, store, checks, manifest, n)
    requires EnvironmentCounted(objects, store, checks, manifest, manifest.environments[n])
    ensures FirstCounted(objects, store, checks, manifest, n + 1)
  {
    forall i | 0 <= i < n ensures EnvironmentCounted(objects, store, checks, manifest, manifest.environments[i]) {
      var chunks := manifest.environments[i].chunks;
      assert EnvironmentCounted(before, store, checks, manifest, manifest.environments[i]);
      StillCounted(before, objects, chunks, Packages(store, checks, chunks));
    }
  }

  method AddEnvironments(accounts: Accounts, checks: Checks, manifest: Manifest) returns (ok: bool)
    requires accounts.Valid()
    modifies accounts`budget, accounts`objects, accounts`transferred, accounts`seen, accounts`downloads,
             accounts`started
    ensures accounts.Orderly()
    ensures ok ==> accounts.Valid() && Within(old(accounts.objects), accounts.objects)
    ensures ok ==> FirstCounted(accounts.objects, accounts.store, checks, manifest, |manifest.environments|)
  {
    var unique: set<string>, pages := {}, 0;
    for i := 0 to |manifest.environments|
      invariant accounts.Valid() && Within(old(accounts.objects), accounts.objects)
      invariant FirstCounted(accounts.objects, accounts.store, checks, manifest, i)
    {
      if !checks.environmentOk(manifest, i) {
        return false;
      }
      pages := pages + |manifest.environments[i].chunks|;
      if pages > MAX_PAGES {
        return false;
      }
      ghost var before := accounts.objects;
      ok, unique := AddEnvironment(accounts, checks, manifest, manifest.environments[i], unique);
      if !ok {
        return;
      }
      OneMoreEnvironment(before, accounts.objects, accounts.store, checks, manifest, i);
    }
    ok := true;
  }

  /** Whatever is counted and not yet there is downloaded last. */
  method GetRest(accounts: Accounts) returns (ok: bool)
    requires accounts.Valid()
    modifies accounts`transferred, accounts`seen, accounts`downloads,
             accounts`started
    ensures accounts.Orderly()
    ensures ok ==> accounts.Valid() && Within(accounts.objects, accounts.seen)
  {
    var pending := accounts.objects.Keys;
    while pending != {}
      invariant accounts.Valid() && pending <= accounts.objects.Keys
      invariant Within(accounts.objects - pending, accounts.seen)
    {
      var sha :| sha in pending;
      var data := accounts.GetObject(Ref(sha, accounts.objects[sha]), MAX_TRANSFER);
      if data.None? {
        return false;
      }
      pending := pending - {sha};
    }
    ok := true;
  }

  /** The downloads were exactly the lock and the counted objects, each of them once. */
  ghost predicate AllOnce(accounts: Accounts)
    reads accounts
  {
    && (forall sha :: sha in accounts.downloads <==> sha in accounts.objects || sha == accounts.lock.sha256)
    && (forall i, j :: 0 <= i < j < |accounts.downloads| ==> accounts.downloads[i] != accounts.downloads[j])
    && accounts.transferred == Total(accounts.seen)
    && Within(accounts.objects, accounts.seen) && AllVerified(accounts.store, accounts.seen)
  }

  lemma Finished(accounts: Accounts, ref: Ref)
    requires accounts.Valid() && Within(accounts.objects, accounts.seen) && Counted(accounts, ref)
    ensures AllOnce(accounts) && accounts.transferred <= accounts.budget <= accounts.limit
  {
    accounts.CountedFirst(ref);
    forall sha ensures sha in accounts.downloads <==> sha in accounts.objects || sha == accounts.lock.sha256 {
      assert sha in accounts.seen && sha != accounts.lock.sha256 ==> sha in accounts.seen - {accounts.lock.sha256};
    }
  }

  /** Everything the manifest names is counted, the pages being downloaded on the way. */
  method CountAll(accounts: Accounts, checks: Checks, manifest: Manifest) returns (ok: bool)
    requires accounts.Valid()
    modifies accounts`budget, accounts`objects, accounts`transferred, accounts`seen, accounts`downloads,
             accounts`started
    ensures accounts.Orderly()
    ensures ok ==> accounts.Valid()
    ensures ok ==> Counted(accounts, manifest.helperArchive) && Counted(accounts, manifest.makepkgConfig)
    ensures ok ==> FirstCounted(accounts.objects, accounts.store, checks, manifest, |manifest.environments|)
  {
    ok := accounts.AddObject(manifest.helperArchive, MAX_HELPER);
    if ok {
      ok := accounts.AddObject(manifest.makepkgConfig, MAX_CONFIG);
    }
    if ok {
      ok := AddEnvironments(accounts, checks, manifest);
    }
  }

  /** On success the accepted environments' pages, packages, signatures and keys are counted, each counted
      object, and nothing but the lock besides, was downloaded exactly once and verified, and all of it fits
      the reviewed budget. Failing or not, nothing else is ever started, and nothing beyond that budget. */
  method MaterializeFrozenInputs(store: Store, checks: Checks, lock: Ref)
    returns (ok: bool, accounts: Accounts, manifest: Option<Manifest>)
    ensures fresh(accounts) && accounts.lock == lock && accounts.store == store && accounts.Orderly()
    ensures accounts.started.Keys <= {lock.sha256} ||
            (manifest.Some? && Total(accounts.started) <= manifest.value.transferLimit <= MAX_TRANSFER)
    ensures ok ==> manifest == checks.manifest(Data(store, lock)) && manifest.Some?
    ensures ok ==> Counted(accounts, manifest.value.helperArchive) && Counted(accounts, manifest.value.makepkgConfig)
    ensures ok ==> FirstCounted(accounts.objects, store, checks, manifest.value, |manifest.value.environments|)
    ensures ok ==> AllOnce(accounts)
    ensures ok ==> accounts.transferred <= accounts.budget <= manifest.value.transferLimit <= MAX_TRANSFER
  {
    accounts := new Accounts(store, lock);
    manifest := None;
    if !InputOk(lock, MAX_LOCK) {
      return false, accounts, manifest;
    }
    ok, manifest := ReadLock(accounts, checks);
    if !ok {
      return;
    }
    ok := CountAll(accounts, checks, manifest.value);
    if ok {
      ok := GetRest(accounts);
    }
    if ok {
      Finished(accounts, manifest.value.helperArchive);
    }
  }

  /** The manifest; only now is there a budget. */
  method ReadLock(accounts: Accounts, checks: Checks) returns (ok: bool, manifest: Option<Manifest>)
    requires accounts.Transferred() && accounts.Orderly()
    requires accounts.seen == map[] && accounts.objects == map[] && accounts.transferred == 0
    requires InputOk(accounts.lock, MAX_LOCK)
    modifies accounts
    ensures accounts.Orderly() && accounts.started.Keys <= {accounts.lock.sha256}
    ensures ok ==> manifest == checks.manifest(Data(accounts.store, accounts.lock)) && manifest.Some?
    ensures ok ==> accounts.Valid() && accounts.limit == manifest.value.transferLimit && accounts.objects == map[]
  {
    manifest := None;
    var got := accounts.Fetch(accounts.lock, MAX_LOCK);
    if got.OverCap? {
      assert false;
    }
    if got.NotObject? {
      return false, None;
    }
    manifest := checks.manifest(got.data);
    if manifest.None? || manifest.value.transferLimit < 1 || manifest.value.transferLimit > MAX_TRANSFER {
      return false, manifest;
    }
    accounts.limit := manifest.value.transferLimit;
    accounts.budget := accounts.transferred;
    accounts.objects := map[];
    TotalWith(map[], accounts.lock.sha256, accounts.lock.size);
    assert accounts.seen == map[accounts.lock.sha256 := accounts.lock.size];
    ok := true;
  }
}
