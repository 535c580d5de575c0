/** The chunked ABI inventory of worker/abi_inventory.go. A record is its encoded JSON. */
module AbiInventory {
  import opened Sums
  import opened Text

  const MAX_DOCUMENT := 512 * 1024
  const MAX_RECORD := 64 * 1024
  const MAX_CHUNKS := 2048
  const MAX_CHUNK_RECORDS := 2048
  const MAX_FILES := 100000
  const MAX_SYMBOLS := 2000000
  const MAX_RECORDS := 2100000
  /** What the index leaves for the text of the tool's version. */
  const VERSION_ROOM := 200000

  datatype Record = Record(data: string, isFile: bool)

  datatype ChunkRef = ChunkRef(sha256: string, size: nat, start: nat, count: nat, files: nat, symbols: nat)

  // ----- the documents -----

  function Digits(n: nat): (s: string)
    ensures s != ""
  {
    if n < 10 then [(n + '0' as int) as char] else Digits(n / 10) + [(n % 10 + '0' as int) as char]
  }

  lemma {:induction false} DigitsShort(n: nat, k: nat)
    requires k > 0 && n < Power(k)
    ensures |Digits(n)| <= k
  {
    if n >= 10 {
      assert k > 1;
      DigitsShort(n / 10, k - 1);
    }
  }

  function Power(k: nat): nat {
    if k == 0 then 1 else 10 * Power(k - 1)
  }

  function Datas(records: seq<Record>): (datas: seq<string>)
    ensures |datas| == |records| && forall i :: 0 <= i < |records| ==> datas[i] == records[i].data
  {
    seq(|records|, i requires 0 <= i < |records| => records[i].data)
  }

  function RecordsDocument(artifact: string, start: nat, records: seq<Record>): string {
    "{\"artifactSha256\":\"" + artifact + "\",\"kind\":\"abi-records\",\"records\":[" + Join(Datas(records), ',')
    + "],\"schemaVersion\":1,\"start\":" + Digits(start) + "}"
  }

  function Taken(r: Record): int {
    |r.data| + 1
  }

  lemma {:induction false} JoinedLength(records: seq<Record>)
    ensures |Join(Datas(records), ',')| == if records == [] then 0 else Sum(Taken, records) - 1
    decreases |records|
  {
    if |records| > 1 {
      assert Datas(records)[1..] == Datas(records[1..]);
      JoinedLength(records[1..]);
      SumFromFront(records);
    }
  }

  lemma {:induction false} SumFromFront(records: seq<Record>)
    requires records != []
    ensures Sum(Taken, records) == Taken(records[0]) + Sum(Taken, records[1..])
  {
    if |records| > 1 {
      SumFromFront(records[..|records| - 1]);
      assert records[..|records| - 1][1..] == records[1..][..|records[1..]| - 1];
    }
  }

  /** What a chunk may hold while it is being filled. */
  predicate ChunkFits(records: seq<Record>) {
    && |records| <= MAX_CHUNK_RECORDS
    && (|records| <= 1 ==> Sum(Taken, records) <= MAX_RECORD + 1)
    && (|records| > 1 ==> Sum(Taken, records) <= MAX_DOCUMENT - 1024 + 1)
  }

  /** Such a chunk makes a document within the limit. */
  lemma DocumentFits(artifact: string, start: nat, records: seq<Record>)
    requires |artifact| == 64 && start <= MAX_RECORDS && ChunkFits(records)
    ensures |RecordsDocument(artifact, start, records)| <= MAX_DOCUMENT
  {
    JoinedLength(records);
    assert Power(7) == 10000000;
    DigitsShort(start, 7);
  }

  // ----- the chunks -----

  function IsFile(r: Record): (n: int)
    ensures 0 <= n <= 1
  {
    if r.isFile then 1 else 0
  }

  function Flat(chunks: seq<seq<Record>>): seq<Record> {
    if chunks == [] then [] else Flat(chunks[..|chunks| - 1]) + chunks[|chunks| - 1]
  }

  lemma {:induction false} SumAppend<T>(size: T -> int, a: seq<T>, b: seq<T>)
    ensures Sum(size, a + b) == Sum(size, a) + Sum(size, b)
  {
    if b == [] {
      assert a + b == a;
    } else {
      assert (a + b)[..|a + b| - 1] == a + b[..|b| - 1];
      SumAppend(size, a, b[..|b| - 1]);
    }
  }

  lemma {:induction false} FilesAtMost(records: seq<Record>)
    ensures 0 <= Sum(IsFile, records) <= |records|
  {
    if records != [] {
      FilesAtMost(records[..|records| - 1]);
    }
  }

  /** The reference of the chunk that starts after `before`. */
  function RefOf(sha: string -> string, artifact: string, before: seq<Record>, records: seq<Record>): ChunkRef {
    FilesAtMost(records);
    var document := RecordsDocument(artifact, |before|, records);
    var files := Sum(IsFile, records);
    ChunkRef(sha(document), |document|, |before|, |records|, files, |records| - files)
  }

  /** The counters and lists of a writer. */
  datatype State = State(records: seq<Record>, chunks: seq<ChunkRef>, files: nat, symbols: nat, start: nat,
                         bytes: nat, chunkFiles: nat)

  predicate ReferencedAt(sha: string -> string, artifact: string, chunks: seq<ChunkRef>, flushed: seq<seq<Record>>,
                         i: nat)
    requires i < |chunks| && i < |flushed|
  {
    && chunks[i] == RefOf(sha, artifact, Flat(flushed[..i]), flushed[i])
    && chunks[i].size <= MAX_DOCUMENT && chunks[i].start <= MAX_RECORDS && 0 < chunks[i].count <= MAX_CHUNK_RECORDS
  }

  /** Each reference is that of its chunk: it starts where the chunks before it end. */
  ghost predicate Referenced(sha: string -> string, artifact: string, chunks: seq<ChunkRef>,
                             flushed: seq<seq<Record>>) {
    && |chunks| == |flushed| <= MAX_CHUNKS
    && forall i :: 0 <= i < |chunks| ==> ReferencedAt(sha, artifact, chunks, flushed, i)
  }

  ghost predicate Counted(s: State, flushed: seq<seq<Record>>) {
    var all := Flat(flushed) + s.records;
    && s.start == |Flat(flushed)| && s.bytes == Sum(Taken, s.records) && s.chunkFiles == Sum(IsFile, s.records)
    && s.files == Sum(IsFile, all) && s.symbols == |all| - s.files && s.files + s.symbols <= MAX_RECORDS
  }

  ghost predicate Sound(sha: string -> string, artifact: string, s: State, flushed: seq<seq<Record>>) {
    |artifact| == 64 && Referenced(sha, artifact, s.chunks, flushed) && Counted(s, flushed) && ChunkFits(s.records)
  }

  /** The reference that is appended for the pending records. */
  function ChunkOf(sha: string -> string, artifact: string, s: State): ChunkRef
    requires s.chunkFiles <= |s.records|
  {
    var document := RecordsDocument(artifact, s.start, s.records);
    ChunkRef(sha(document), |document|, s.start, |s.records|, s.chunkFiles, |s.records| - s.chunkFiles)
  }

  /** The state after the pending records were written. */
  function Flushed(sha: string -> string, artifact: string, s: State): State
    requires s.chunkFiles <= |s.records|
  {
    State([], s.chunks + [ChunkOf(sha, artifact, s)], s.files, s.symbols, s.start + |s.records|, 0, 0)
  }

  lemma FlushKeepsSound(sha: string -> string, artifact: string, s: State, flushed: seq<seq<Record>>)
    requires Sound(sha, artifact, s, flushed) && |s.chunks| < MAX_CHUNKS && s.records != []
    ensures s.chunkFiles <= |s.records|
    ensures |RecordsDocument(artifact, s.start, s.records)| <= MAX_DOCUMENT
    ensures Sound(sha, artifact, Flushed(sha, artifact, s), flushed + [s.records])
    ensures Flat(flushed + [s.records]) + [] == Flat(flushed) + s.records
  {
    FilesAtMost(s.records);
    DocumentFits(artifact, s.start, s.records);
    var after, t := flushed + [s.records], Flushed(sha, artifact, s);
    assert after[..|flushed|] == flushed;
    assert Flat(after) + [] == Flat(flushed) + s.records;
    forall i | 0 <= i < |t.chunks| ensures ReferencedAt(sha, artifact, t.chunks, after, i) {
      assert after[..i] == flushed[..i];
      assert i < |flushed| ==> ReferencedAt(sha, artifact, s.chunks, flushed, i);
    }
  }

  /** The state with one more pending record. */
  function Grown(s: State, record: Record): State {
    State(s.records + [record], s.chunks, s.files + IsFile(record), s.symbols + 1 - IsFile(record), s.start,
          s.bytes + |record.data| + 1, s.chunkFiles + IsFile(record))
  }

  /** A record may join the pending ones. */
  predicate HasRoom(s: State, record: Record) {
    s.records == [] || (s.bytes + |record.data| <= MAX_DOCUMENT - 1024 && |s.records| < MAX_CHUNK_RECORDS)
  }

  lemma SoundAgain(sha: string -> string, artifact: string, s: State, t: State, flushed: seq<seq<Record>>)
    requires Sound(sha, artifact, s, flushed) && t.chunks == s.chunks && Counted(t, flushed) && ChunkFits(t.records)
    ensures Sound(sha, artifact, t, flushed)
  {
  }

  lemma GrowKeepsSound(sha: string -> string, artifact: string, s: State, flushed: seq<seq<Record>>, record: Record)
    requires Sound(sha, artifact, s, flushed) && |record.data| <= MAX_RECORD && s.files + s.symbols < MAX_RECORDS
    requires HasRoom(s, record)
    ensures Sound(sha, artifact, Grown(s, record), flushed)
    ensures Flat(flushed) + Grown(s, record).records == Flat(flushed) + s.records + [record]
  {
    GrowFits(s, record);
    GrownCounted(s, flushed, record);
    SoundAgain(sha, artifact, s, Grown(s, record), flushed);
  }

  lemma GrownCounted(s: State, flushed: seq<seq<Record>>, record: Record)
    requires Counted(s, flushed) && s.files + s.symbols < MAX_RECORDS
    requires ChunkFits(s.records) && |record.data| <= MAX_RECORD && HasRoom(s, record)
    ensures Counted(Grown(s, record), flushed)
    ensures Flat(flushed) + Grown(s, record).records == Flat(flushed) + s.records + [record]
  {
    GrowFits(s, record);
    GrowCounts(s, flushed, record);
  }

  lemma AllFlushed(sha: string -> string, artifact: string, s: State, flushed: seq<seq<Record>>)
    requires Sound(sha, artifact, s, flushed) && s.records == []
    ensures Flat(flushed) + s.records == Flat(flushed) && s.files == Sum(IsFile, Flat(flushed))
    ensures s.symbols == |Flat(flushed)| - s.files
  {
    assert Flat(flushed) + [] == Flat(flushed);
    FilesAtMost(Flat(flushed));
  }

  lemma IsFlushed(sha: string -> string, artifact: string, s: State, reference: ChunkRef, after: State)
    requires s.chunkFiles <= |s.records| && reference == ChunkOf(sha, artifact, s)
    requires after.records == [] && after.bytes == after.chunkFiles == 0 && after.chunks == s.chunks + [reference]
    requires after.files == s.files && after.symbols == s.symbols && after.start == s.start + |s.records|
    ensures after == Flushed(sha, artifact, s)
  {
  }

  lemma IsGrown(s: State, after: State, record: Record)
    requires after.records == s.records + [record] && after.bytes == s.bytes + |record.data| + 1
    requires after.files == s.files + IsFile(record) && after.chunkFiles == s.chunkFiles + IsFile(record)
    requires after.symbols == s.symbols + 1 - IsFile(record) && after.chunks == s.chunks && after.start == s.start
    ensures after == Grown(s, record)
  {
  }

  lemma GrowFits(s: State, record: Record)
    requires ChunkFits(s.records) && s.bytes == Sum(Taken, s.records) && |record.data| <= MAX_RECORD
    requires HasRoom(s, record)
    ensures ChunkFits(s.records + [record]) && Sum(Taken, s.records + [record]) == s.bytes + |record.data| + 1
  {
    SumAppend(Taken, s.records, [record]);
    assert Sum(Taken, [record]) == Taken(record);
  }

  lemma GrowCounts(s: State, flushed: seq<seq<Record>>, record: Record)
    requires Counted(s, flushed) && s.files + s.symbols < MAX_RECORDS
    ensures Sum(IsFile, s.records + [record]) == s.chunkFiles + IsFile(record)
    ensures Flat(flushed) + (s.records + [record]) == Flat(flushed) + s.records + [record]
    ensures Sum(IsFile, Flat(flushed) + (s.records + [record])) == s.files + IsFile(record)
  {
    var all := Flat(flushed) + s.records;
    assert Flat(flushed) + (s.records + [record]) == all + [record];
    assert Sum(IsFile, [record]) == IsFile(record);
    SumAppend(IsFile, s.records, [record]);
    SumAppend(IsFile, all, [record]);
  }

  class Writer {
    const sha: string -> string
    const artifact: string
    var records: seq<Record>
    var chunks: seq<ChunkRef>
    var files: nat
    var symbols: nat
    var start: nat
    var bytes: nat
    var chunkFiles: nat
    /** The documents written, under the names of their digests. */
    var stored: map<string, string>
    ghost var flushed: seq<seq<Record>>

    constructor (sha: string -> string, artifact: string)
      requires |artifact| == 64
      ensures Valid() && Contents() == [] && this.sha == sha && this.artifact == artifact
    {
      this.sha, this.artifact := sha, artifact;
      records, chunks, files, symbols, start, bytes, chunkFiles, stored, flushed := [], [], 0, 0, 0, 0, 0, map[], [];
    }

    function Now(): State
      reads `records, `chunks, `files, `symbols, `start, `bytes, `chunkFiles
    {
      State(records, chunks, files, symbols, start, bytes, chunkFiles)
    }

    /** Everything appended, in order. */
    ghost function Contents(): seq<Record>
      reads `flushed, `records
    {
      Flat(flushed) + records
    }

    ghost predicate Valid()
      reads `records, `chunks, `files, `symbols, `start, `bytes, `chunkFiles, `flushed
    {
      Sound(sha, artifact, Now(), flushed)
    }

    /** Writes what is pending as a chunk; only the number of chunks can stop it. */
    method Flush() returns (ok: bool)
      requires Valid()
      modifies this
      ensures ok <==> old(records) == [] || |old(chunks)| < MAX_CHUNKS
      ensures Valid() && Contents() == old(Contents()) && files == old(files) && symbols == old(symbols)
      ensures ok ==> records == []
      ensures ok && old(records) != [] ==>
                var document := RecordsDocument(artifact, old(start), old(records));
                flushed == old(flushed) + [old(records)] && stored == old(stored)[sha(document) := document]
      ensures !ok || old(records) == [] ==> unchanged(this)
    {
      if |records| == 0 {
        return true;
      }
      if |chunks| >= MAX_CHUNKS {
        return false;
      }
      Write();
      return true;
    }

    method Write()
      requires Valid() && records != [] && |chunks| < MAX_CHUNKS
      modifies this
      ensures Valid() && Contents() == old(Contents()) && records == [] && files == old(files)
      ensures symbols == old(symbols)
      ensures flushed == old(flushed) + [old(records)]
      ensures var document := RecordsDocument(artifact, old(start), old(records));
              stored == old(stored)[sha(document) := document]
    {
      ghost var before, was := Now(), flushed;
      FlushKeepsSound(sha, artifact, before, was);
      var document := RecordsDocument(artifact, start, records);
      if |document| > MAX_DOCUMENT {
        assert false;
      }
      stored := stored[sha(document) := document];
      var reference := ChunkRef(sha(document), |document|, start, |records|, chunkFiles, |records| - chunkFiles);
      assert reference == ChunkOf(sha, artifact, before);
      ghost var after := State([], chunks + [reference], files, symbols, start + |records|, 0, 0);
      IsFlushed(sha, artifact, before, reference, after);
      chunks := chunks + [reference];
      start := start + |records|;
      records, bytes, chunkFiles, flushed := [], 0, 0, flushed + [records];
      assert Now() == after;
    }

    /** Makes room for the record if need be. */
    method MakeRoom(record: Record) returns (ok: bool)
      requires Valid()
      modifies this
      ensures Valid() && Contents() == old(Contents()) && files == old(files) && symbols == old(symbols)
      ensures ok <==> HasRoom(old(Now()), record) || |old(chunks)| < MAX_CHUNKS
      ensures ok ==> HasRoom(Now(), record)
    {
      if |records| > 0 && (bytes + |record.data| > MAX_DOCUMENT - 1024 || |records| >= MAX_CHUNK_RECORDS) {
        ok := Flush();
      } else {
        ok := true;
      }
    }

    method Tally(record: Record)
      modifies `files, `chunkFiles, `symbols
      ensures files == old(files) + IsFile(record) && chunkFiles == old(chunkFiles) + IsFile(record)
      ensures symbols == old(symbols) + 1 - IsFile(record)
    {
      if record.isFile {
        files, chunkFiles := files + 1, chunkFiles + 1;
      } else {
        symbols := symbols + 1;
      }
    }

    method Add(record: Record)
      requires Valid() && HasRoom(Now(), record) && |record.data| <= MAX_RECORD && files + symbols < MAX_RECORDS
      modifies this
      ensures Valid() && Contents() == old(Contents()) + [record]
      ensures files == old(files) + IsFile(record) && symbols == old(symbols) + 1 - IsFile(record)
    {
      ghost var before := Now();
      records := records + [record];
      bytes := bytes + |record.data| + 1;
      Tally(record);
      IsGrown(before, Now(), record);
      GrowKeepsSound(sha, artifact, before, flushed, record);
    }

    /** Every successful append adds the record at the end. */
    method Append(record: Record) returns (ok: bool)
      requires Valid()
      modifies this
      ensures ok ==> Valid() && Contents() == old(Contents()) + [record]
      ensures ok <==>
              && |record.data| <= MAX_RECORD && old(files) + old(symbols) < MAX_RECORDS
              && (HasRoom(old(Now()), record) || |old(chunks)| < MAX_CHUNKS)
              && old(files) + IsFile(record) <= MAX_FILES && old(symbols) + 1 - IsFile(record) <= MAX_SYMBOLS
    {
      if |record.data| > MAX_RECORD || files + symbols >= MAX_RECORDS {
        return false;
      }
      ok := MakeRoom(record);
      if ok {
        Add(record);
        ok := files <= MAX_FILES && symbols <= MAX_SYMBOLS;
      }
    }

    /** The index of everything appended: it fits as well, and its chunks are all the records. */
    method Finish(toolVersion: string) returns (ok: bool)
      requires Valid() && forall document :: |sha(document)| == 64
      modifies this
      ensures ok ==> old(records) == [] || |old(chunks)| < MAX_CHUNKS
      ensures (old(records) == [] || |old(chunks)| < MAX_CHUNKS) && |toolVersion| <= VERSION_ROOM ==> ok
      ensures Valid() && Contents() == old(Contents())
      ensures ok ==> Flat(flushed) == old(Contents()) && files == Sum(IsFile, Flat(flushed))
      ensures ok ==> symbols == |Flat(flushed)| - files
      ensures ok ==> var document := InventoryDocument(artifact, toolVersion, files, symbols, chunks);
                     |document| <= MAX_DOCUMENT && sha(document) in stored && stored[sha(document)] == document
    {
      ok := FlushLast();
      ghost var settled := Now();
      if ok {
        ok := StoreIndex(toolVersion);
      }
      assert Now() == settled;
    }

    /** After the last flush the chunks hold everything. */
    method FlushLast() returns (ok: bool)
      requires Valid()
      modifies this
      ensures ok <==> old(records) == [] || |old(chunks)| < MAX_CHUNKS
      ensures Valid() && Contents() == old(Contents())
      ensures ok ==> Flat(flushed) == Contents() && files == Sum(IsFile, Flat(flushed))
      ensures ok ==> symbols == |Flat(flushed)| - files
    {
      ok := Flush();
      if ok {
        AllFlushed(sha, artifact, Now(), flushed);
      }
    }

    method StoreIndex(toolVersion: string) returns (ok: bool)
      requires Valid() && forall document :: |sha(document)| == 64
      modifies `stored
      ensures |toolVersion| <= VERSION_ROOM ==> ok
      ensures ok ==> var document := InventoryDocument(artifact, toolVersion, files, symbols, chunks);
                     |document| <= MAX_DOCUMENT && sha(document) in stored && stored[sha(document)] == document
    {
      var document := InventoryDocument(artifact, toolVersion, files, symbols, chunks);
      if |toolVersion| <= VERSION_ROOM {
        InventoryFits(sha, artifact, toolVersion, Now(), flushed);
      }
      if |document| > MAX_DOCUMENT {
        return false;
      }
      stored := stored[sha(document) := document];
      ok := true;
    }
  }

  // ----- the index -----

  function ChunkJson(c: ChunkRef): string {
    "{\"sha256\":\"" + c.sha256 + "\",\"size\":" + Digits(c.size) + ",\"start\":" + Digits(c.start)
    + ",\"count\":" + Digits(c.count)
    + ",\"files\":" + Digits(c.files) + ",\"symbols\":" + Digits(c.symbols) + "}"
  }

  function ChunksJson(chunks: seq<ChunkRef>): (jsons: seq<string>)
    ensures |jsons| == |chunks| && forall i :: 0 <= i < |chunks| ==> jsons[i] == ChunkJson(chunks[i])
  {
    seq(|chunks|, i requires 0 <= i < |chunks| => ChunkJson(chunks[i]))
  }

  /** A list that was never appended to is null. */
  function ChunkList(chunks: seq<ChunkRef>): string {
    if chunks == [] then "null" else "[" + Join(ChunksJson(chunks), ',') + "]"
  }

  function InventoryDocument(artifact: string, toolVersion: string, files: nat, symbols: nat,
                             chunks: seq<ChunkRef>): string {
    "{\"artifactSha256\":\"" + artifact + "\",\"chunks\":" + ChunkList(chunks) + ",\"files\":" + Digits(files)
    + ",\"kind\":\"abi-inventory\",\"schemaVersion\":1,\"symbols\":" + Digits(symbols)
    + ",\"tool\":\"go-debug-elf\",\"toolVersion\":\"" + toolVersion + "\",\"typeAbi\":\"not-checked\"}"
  }

  predicate Small(c: ChunkRef) {
    |c.sha256| == 64 && c.size <= MAX_DOCUMENT && c.start <= MAX_RECORDS && c.count <= MAX_CHUNK_RECORDS
          && c.files <= c.count && c.symbols <= c.count
  }

  lemma ChunkJsonShort(c: ChunkRef)
    requires Small(c)
    ensures |ChunkJson(c)| <= 148
  {
    assert Power(4) == 10000 && Power(6) == 1000000 && Power(7) == 10000000;
    DigitsShort(c.size, 6);
    DigitsShort(c.start, 7);
    DigitsShort(c.count, 4);
    DigitsShort(c.files, 4);
    DigitsShort(c.symbols, 4);
  }

  lemma {:induction false} JoinShort(parts: seq<string>, k: nat)
    requires forall i :: 0 <= i < |parts| ==> |parts[i]| <= k
    ensures |Join(parts, ',')| <= (k + 1) * |parts|
  {
    if |parts| > 1 {
      JoinShort(parts[1..], k);
      assert (k + 1) * |parts| == (k + 1) * |parts[1..]| + (k + 1);
    }
  }

  /** The index of at most 2048 chunks fits too. */
  lemma InventoryFits(sha: string -> string, artifact: string, toolVersion: string, s: State,
                      flushed: seq<seq<Record>>)
    requires Sound(sha, artifact, s, flushed) && |toolVersion| <= VERSION_ROOM
    requires forall document :: |sha(document)| == 64
    ensures |InventoryDocument(artifact, toolVersion, s.files, s.symbols, s.chunks)| <= MAX_DOCUMENT
  {
    forall i | 0 <= i < |s.chunks| ensures |ChunksJson(s.chunks)[i]| <= 148 {
      assert ReferencedAt(sha, artifact, s.chunks, flushed, i);
      FilesAtMost(flushed[i]);
      ChunkJsonShort(s.chunks[i]);
    }
    JoinShort(ChunksJson(s.chunks), 148);
    assert |ChunkList(s.chunks)| <= 149 * 2048 + 4;
    assert Power(7) == 10000000;
    DigitsShort(s.files, 7);
    DigitsShort(s.symbols, 7);
    InventoryLength(artifact, toolVersion, s.files, s.symbols, s.chunks);
  }

  lemma InventoryLength(artifact: string, toolVersion: string, files: nat, symbols: nat, chunks: seq<ChunkRef>)
    ensures |InventoryDocument(artifact, toolVersion, files, symbols, chunks)|
         <= |artifact| + |ChunkList(chunks)| + |Digits(files)| + |Digits(symbols)| + |toolVersion| + 256
  {
  }
}
