/** `uploadArtifact` of worker/client.go: a file goes up in parts, and an interrupted upload is resumed.
    Requests may fail or be answered wrongly; only what the server holds and reports is its own. */
module ArtifactUpload {
  import opened Values
  import opened Hexadecimal

  type Bytes = seq<bv8>

  const MAX_PART := 8 * 1024 * 1024

  // ----- the tiling -----

  function TotalParts(size: nat, partSize: nat): (n: nat)
    requires partSize > 0
    ensures size == 0 ==> n == 0
    ensures size > 0 ==> n > 0 && (n - 1) * partSize < size
    ensures size <= n * partSize
  {
    (size + partSize - 1) / partSize
  }

  /** The last part is what remains. */
  function PartLength(size: nat, partSize: nat, index: nat): nat {
    var remaining := size - index * partSize;
    if remaining < 0 then 0 else if remaining < partSize then remaining else partSize
  }

  lemma IndexWithin(size: nat, partSize: nat, index: nat)
    requires partSize > 0 && index < TotalParts(size, partSize)
    ensures index * partSize < size
  {
    MulMonotone(index, TotalParts(size, partSize) - 1, partSize);
  }

  lemma MulMonotone(a: nat, b: nat, k: nat)
    requires a <= b
    ensures a * k <= b * k
  {
    assert (b - a) * k >= 0;
  }

  /** The part of the file with this index, counted from 0. */
  function PartOf(file: Bytes, partSize: nat, index: nat): (part: Bytes)
    requires partSize > 0 && index < TotalParts(|file|, partSize)
    ensures 0 < |part| <= partSize && |part| == PartLength(|file|, partSize, index)
  {
    IndexWithin(|file|, partSize, index);
    file[index * partSize..index * partSize + PartLength(|file|, partSize, index)]
  }

  function Assembled(file: Bytes, partSize: nat, n: nat): Bytes
    requires partSize > 0 && n <= TotalParts(|file|, partSize)
  {
    if n == 0 then [] else Assembled(file, partSize, n - 1) + PartOf(file, partSize, n - 1)
  }

  /** Where the first `n` parts end. */
  function End(size: nat, partSize: nat, n: nat): (end: nat)
    ensures end <= size
  {
    if n * partSize < size then n * partSize else size
  }

  lemma NextEnd(size: nat, partSize: nat, n: nat)
    requires partSize > 0 && 0 < n <= TotalParts(size, partSize)
    ensures End(size, partSize, n - 1) == (n - 1) * partSize
    ensures End(size, partSize, n) == (n - 1) * partSize + PartLength(size, partSize, n - 1)
  {
    IndexWithin(size, partSize, n - 1);
    assert n * partSize == (n - 1) * partSize + partSize;
  }

  lemma {:induction false} PartsTileUpTo(file: Bytes, partSize: nat, n: nat)
    requires partSize > 0 && n <= TotalParts(|file|, partSize)
    ensures Assembled(file, partSize, n) == file[..End(|file|, partSize, n)]
  {
    if n > 0 {
      PartsTileUpTo(file, partSize, n - 1);
      NextEnd(|file|, partSize, n);
      Adjoin(file, (n - 1) * partSize, End(|file|, partSize, n));
    }
  }

  lemma Adjoin(file: Bytes, start: nat, end: nat)
    requires start <= end <= |file|
    ensures file[..start] + file[start..end] == file[..end]
  {
  }

  /** The parts in order are the file: no gap, no overlap, whatever the sizes. */
  lemma PartsTile(file: Bytes, partSize: nat)
    requires partSize > 0
    ensures Assembled(file, partSize, TotalParts(|file|, partSize)) == file
  {
    PartsTileUpTo(file, partSize, TotalParts(|file|, partSize));
    assert file[..|file|] == file;
  }

  // ----- the server -----

  datatype Part = Part(partNumber: int, size: int, sha256: string, etag: string)

  datatype Completed = Completed(filename: string, size: int, sha256: string, key: string)

  datatype Start = Start(completed: Option<Completed>, uploadId: string, partSize: int, maxSize: int,
                         filename: string, size: int, sha256: string, parts: seq<Part>)

  /** What a request comes to: it is carried out and answered, carried out and the answer lost, not
      carried out, carried out on other bytes than those sent, or answered with something else. */
  datatype Outcome = Done | Lost | Failed | Garbled(stored: Bytes) | Misanswered(answer: Part)

  /** One upload session; parts are kept by their number, whoever sent them. */
  class Server {
    const sha: Bytes -> string
    const outcome: nat -> Outcome
    var calls: nat
    var parts: map<int, Bytes>

    constructor (sha: Bytes -> string, outcome: nat -> Outcome, parts: map<int, Bytes>)
      ensures this.sha == sha && this.outcome == outcome && this.parts == parts
    {
      this.sha, this.outcome, this.parts, calls := sha, outcome, parts, 0;
    }

    /** A truthful entry of the session's part list. */
    predicate Reports(part: Part)
      reads this
    {
      part.partNumber in parts && part.size == |parts[part.partNumber]| && part.sha256 == sha(parts[part.partNumber])
    }

    ghost predicate ReportsAll(listed: seq<Part>)
      reads this
    {
      && (forall part :: part in listed ==> Reports(part))
      && (forall n :: n in parts ==> exists part :: part in listed && part.partNumber == n)
    }

    method PutPart(number: int, body: Bytes) returns (answer: Option<Part>)
      modifies this
      ensures || parts == old(parts)[number := body]
              || (parts == old(parts) && answer.None?)
              || (IsGarbled(old(calls)) && parts == old(parts)[number := outcome(old(calls)).stored]
                  && answer.Some? && Reports(answer.value) && answer.value.partNumber == number)
      ensures Smooth(outcome) ==>
                answer.Some? && answer.value.etag != "" && Reports(answer.value) && answer.value.partNumber == number
    {
      var o := outcome(calls);
      calls := calls + 1;
      if o.Failed? {
        return None;
      }
      var stored := if o.Garbled? then o.stored else body;
      parts := parts[number := stored];
      match o
      case Lost => return None;
      case Misanswered(other) => return Some(other);
      case _ => return Some(Part(number, |stored|, sha(stored), "etag"));
    }

    predicate IsGarbled(call: nat) {
      outcome(call).Garbled?
    }

    method Abort()
      modifies this
      ensures parts == old(parts) || parts == map[]
    {
      var o := outcome(calls);
      calls := calls + 1;
      if !o.Failed? {
        parts := map[];
      }
    }

    /** Completion puts together what is there. */
    method Complete(filename: string, total: nat) returns (answer: Option<Completed>)
      modifies this`calls
      ensures answer.Some? ==> forall i :: 1 <= i <= total ==> i in parts
      ensures Smooth(outcome) && (forall i :: 1 <= i <= total ==> i in parts) ==>
                answer == Some(Completed(filename, |Put(parts, total)|, sha(Put(parts, total)), "key"))
    {
      var o := outcome(calls);
      calls := calls + 1;
      if !o.Done? || !(forall i :: 1 <= i <= total ==> i in parts) {
        return None;
      }
      return Some(Completed(filename, |Put(parts, total)|, sha(Put(parts, total)), "key"));
    }
  }

  function Put(parts: map<int, Bytes>, total: nat): Bytes {
    if total == 0 then [] else Put(parts, total - 1) + if total in parts then parts[total] else []
  }

  /** No request fails. */
  ghost predicate Smooth(outcome: nat -> Outcome) {
    forall n: nat :: outcome(n).Done?
  }

  /** What is stored is what was sent. */
  ghost predicate Faithful(outcome: nat -> Outcome) {
    forall n: nat :: !outcome(n).Garbled?
  }

  /** Bytes garbled on the way do not collide with a part of the file. */
  ghost predicate GarbledApart(sha: Bytes -> string, outcome: nat -> Outcome, file: Bytes, partSize: nat)
    requires partSize > 0
  {
    forall n: nat, i :: outcome(n).Garbled? && 0 <= i < TotalParts(|file|, partSize) ==>
      (sha(outcome(n).stored) == sha(PartOf(file, partSize, i)) ==> outcome(n).stored == PartOf(file, partSize, i))
  }

  // ----- one attempt -----

  /** The server's parts are the file's, exactly. */
  ghost predicate Holds(parts: map<int, Bytes>, file: Bytes, partSize: nat)
    requires partSize > 0
  {
    && (forall n :: n in parts ==> 1 <= n <= TotalParts(|file|, partSize))
    && HoldsUpTo(parts, file, partSize, TotalParts(|file|, partSize))
  }

  ghost predicate HoldsUpTo(parts: map<int, Bytes>, file: Bytes, partSize: nat, n: nat)
    requires partSize > 0 && n <= TotalParts(|file|, partSize)
  {
    forall i :: 0 <= i < n ==> HeldAt(parts, file, partSize, i)
  }

  predicate HeldAt(parts: map<int, Bytes>, file: Bytes, partSize: nat, i: nat)
    requires partSize > 0 && i < TotalParts(|file|, partSize)
  {
    i + 1 in parts && parts[i + 1] == PartOf(file, partSize, i)
  }

  /** Whatever parts there are, they are the file's: what interrupted attempts leave. */
  predicate Partial(parts: map<int, Bytes>, file: Bytes, partSize: nat)
    requires partSize > 0
  {
    forall n :: n in parts ==> 1 <= n <= TotalParts(|file|, partSize) && parts[n] == PartOf(file, partSize, n - 1)
  }

  function ExistingParts(listed: seq<Part>): map<int, Part> {
    if listed == [] then map[]
    else ExistingParts(listed[..|listed| - 1])[listed[|listed| - 1].partNumber := listed[|listed| - 1]]
  }

  lemma {:induction false} ExistingMember(listed: seq<Part>, n: int)
    ensures n in ExistingParts(listed) <==> exists part :: part in listed && part.partNumber == n
    ensures n in ExistingParts(listed) ==>
              ExistingParts(listed)[n] in listed && ExistingParts(listed)[n].partNumber == n
  {
    if listed != [] {
      ExistingMember(listed[..|listed| - 1], n);
      assert listed == listed[..|listed| - 1] + [listed[|listed| - 1]];
    }
  }

  predicate IsPart(part: Part, total: nat) {
    1 <= part.partNumber <= total && part.size > 0 && IsSha256(part.sha256) && part.etag != ""
  }

  predicate DistinctNumbers(listed: seq<Part>) {
    forall i, j :: 0 <= i < j < |listed| ==> listed[i].partNumber != listed[j].partNumber
  }

  /** What is known between two parts: done ones are the file's, later ones are as listed. */
  ghost predicate Progress(server: Server, file: Bytes, partSize: nat, existing: map<int, Part>, done: nat)
    reads server
    requires partSize > 0 && done <= TotalParts(|file|, partSize)
  {
    && HoldsUpTo(server.parts, file, partSize, done)
    && (forall n :: n in server.parts ==> 1 <= n <= TotalParts(|file|, partSize))
    && (forall n :: n in server.parts && n > done ==> n in existing)
    && (forall n :: n in existing && n > done ==> existing[n].partNumber == n && server.Reports(existing[n]))
  }

  /** The stored parts do not collide with the file's. */
  ghost predicate Apart(server: Server, file: Bytes, partSize: nat)
    reads server
    requires partSize > 0
  {
    forall n, i :: n in server.parts && 0 <= i < TotalParts(|file|, partSize) ==>
      (server.sha(server.parts[n]) == server.sha(PartOf(file, partSize, i)) ==>
            server.parts[n] == PartOf(file, partSize, i))
  }

  /** The part with this index: kept if it matches, sent if it is missing. */
  method UploadPart(server: Server, file: Bytes, partSize: nat, existing: map<int, Part>, index: nat) returns (ok: bool)
    requires partSize > 0 && index < TotalParts(|file|, partSize)
    requires Progress(server, file, partSize, existing, index)
    requires forall n ::
               n in existing && n > index &&
                server.sha(server.parts[n]) == server.sha(PartOf(file, partSize, index)) ==>
                 server.parts[n] == PartOf(file, partSize, index)
    requires GarbledApart(server.sha, server.outcome, file, partSize)
    modifies server
    ensures ok ==> Progress(server, file, partSize, existing, index + 1)
    ensures Partial(old(server.parts), file, partSize) && Faithful(server.outcome) ==>
              Partial(server.parts, file, partSize)
    ensures Partial(old(server.parts), file, partSize) && Smooth(server.outcome) ==> ok
    ensures ok ==> forall n :: n > index + 1 && n in existing ==>
              n in old(server.parts) && server.parts[n] == old(server.parts)[n]
  {
    var partNumber := index + 1;
    var body := PartOf(file, partSize, index);
    if partNumber in existing {
      if existing[partNumber].sha256 != server.sha(body) || existing[partNumber].size != |body| {
        server.Abort();
        return false;
      }
      assert server.Reports(existing[partNumber]) && HeldAt(server.parts, file, partSize, index);
      return true;
    }
    var answer := server.PutPart(partNumber, body);
    if answer.None? || answer.value.partNumber != partNumber || answer.value.sha256 != server.sha(body) ||
       answer.value.size != |body| || answer.value.etag == "" {
      server.Abort();
      return false;
    }
    assert HeldAt(server.parts, file, partSize, index);
    forall i | 0 <= i < index ensures HeldAt(server.parts, file, partSize, i) {
      assert HeldAt(old(server.parts), file, partSize, i);
    }
    return true;
  }

  method CheckListed(listed: seq<Part>, total: nat) returns (ok: bool, existing: map<int, Part>)
    ensures ok <==> DistinctNumbers(listed) && forall part :: part in listed ==> IsPart(part, total)
    ensures ok ==> existing == ExistingParts(listed)
  {
    existing := map[];
    for i := 0 to |listed|
      invariant existing == ExistingParts(listed[..i]) && DistinctNumbers(listed[..i])
      invariant forall part :: part in listed[..i] ==> IsPart(part, total)
    {
      var part := listed[i];
      assert listed[..i + 1] == listed[..i] + [part] && listed[..i + 1][..i] == listed[..i];
      if part.partNumber < 1 || part.partNumber > total || part.size <= 0 || !IsSha256(part.sha256) || part.etag == "" {
        assert part in listed && !IsPart(part, total);
        return false, map[];
      }
      ExistingMember(listed[..i], part.partNumber);
      if part.partNumber in existing {
        var k :| 0 <= k < i && listed[k].partNumber == part.partNumber;
        return false, map[];
      }
      existing := existing[part.partNumber := part];
    }
    assert listed[..|listed|] == listed;
    ok := true;
  }

  lemma ListedProgress(server: Server, file: Bytes, partSize: nat, listed: seq<Part>)
    requires partSize > 0 && server.ReportsAll(listed)
    requires forall part :: part in listed ==> IsPart(part, TotalParts(|file|, partSize))
    ensures Progress(server, file, partSize, ExistingParts(listed), 0)
  {
    forall n | n in server.parts || n in ExistingParts(listed)
      ensures n in ExistingParts(listed) && ExistingParts(listed)[n].partNumber == n
      ensures server.Reports(ExistingParts(listed)[n])
      ensures 1 <= n <= TotalParts(|file|, partSize)
    {
      ExistingMember(listed, n);
      assert IsPart(ExistingParts(listed)[n], TotalParts(|file|, partSize));
    }
  }

  /** The session is open for this file, its list is well formed, and its parts are the file's. */
  predicate Resumable(session: Start, parts: map<int, Bytes>, file: Bytes, filename: string, bodyHash: string) {
    && file != [] && IsSha256(bodyHash) && session.completed.None?
    && 0 < session.partSize <= MAX_PART && (session.maxSize > 0 ==> |file| <= session.maxSize)
    && session.filename == filename && session.size == |file| && session.sha256 == bodyHash
    && DistinctNumbers(session.parts) && (forall part :: part in session.parts ==>
          IsPart(part, TotalParts(|file|, session.partSize)))
    && Partial(parts, file, session.partSize)
  }

  /** A successful attempt, whatever parts earlier ones left: the server's parts are the file's, and put
      together they are the file. */
  method UploadArtifact(server: Server, start: Option<Start>, file: Bytes, filename: string, bodyHash: string)
    returns (r: Option<Completed>)
    requires start.Some? && start.value.completed.None? ==> server.ReportsAll(start.value.parts)
    requires start.Some? && start.value.partSize > 0 ==>
               Apart(server, file, start.value.partSize)
                     && GarbledApart(server.sha, server.outcome, file, start.value.partSize)
    modifies server
    ensures r.Some? ==> start.Some? && r.value.sha256 == bodyHash && r.value.size == |file|
    ensures r.Some? ==> r.value.filename == filename
    ensures r.Some? && start.value.completed.None? ==>
              start.value.partSize > 0 && Holds(server.parts, file, start.value.partSize)
    ensures r.Some? && start.value.completed.None? ==>
              Put(server.parts, TotalParts(|file|, start.value.partSize)) == file
    ensures start.Some? && start.value.partSize > 0 && Partial(old(server.parts), file, start.value.partSize) ==>
              (Faithful(server.outcome) ==> Partial(server.parts, file, start.value.partSize))
    // What such attempts leave is completed by the next one, if none of its requests fails.
    ensures start.Some? && Resumable(start.value, old(server.parts), file, filename, bodyHash) ==>
              (bodyHash == server.sha(file) && Smooth(server.outcome) ==> r.Some?)
  {
    if |file| == 0 || !IsSha256(bodyHash) || start.None? {
      return None;
    }
    var session := start.value;
    if session.completed.Some? {
      var done := session.completed.value;
      if done.sha256 != bodyHash || done.size != |file| || done.filename != filename || done.key == "" {
        return None;
      }
      return session.completed;
    }
    if session.partSize <= 0 || session.partSize > MAX_PART || session.filename != filename || session.size != |file| ||
       session.sha256 != bodyHash {
      return None;
    }
    if session.maxSize > 0 && |file| > session.maxSize {
      server.Abort();
      return None;
    }
    var total := TotalParts(|file|, session.partSize);
    var fine, existing := CheckListed(session.parts, total);
    if !fine {
      server.Abort();
      return None;
    }
    var uploaded := UploadParts(server, file, session.partSize, session.parts, existing);
    if !uploaded {
      return None;
    }
    HeldIsFile(server.parts, file, session.partSize, total);
    PartsTile(file, session.partSize);
    AllThere(server.parts, file, session.partSize);
    var answer := server.Complete(filename, total);
    if answer.None? {
      server.Abort();
      return None;
    }
    if answer.value.sha256 != bodyHash || answer.value.size != |file| || answer.value.filename != filename
          || answer.value.key == "" {
      return None;
    }
    return answer;
  }

  method UploadParts(server: Server, file: Bytes, partSize: nat, ghost listed: seq<Part>, existing: map<int, Part>)
    returns (ok: bool)
    requires partSize > 0 && server.ReportsAll(listed) && existing == ExistingParts(listed)
    requires Apart(server, file, partSize)
    requires GarbledApart(server.sha, server.outcome, file, partSize)
    requires forall part :: part in listed ==> IsPart(part, TotalParts(|file|, partSize))
    modifies server
    ensures ok ==> Holds(server.parts, file, partSize)
    ensures Partial(old(server.parts), file, partSize) && Faithful(server.outcome) ==>
              Partial(server.parts, file, partSize)
    ensures Partial(old(server.parts), file, partSize) && Smooth(server.outcome) ==> ok
  {
    var total := TotalParts(|file|, partSize);
    ListedProgress(server, file, partSize, listed);
    for index := 0 to total
      invariant Progress(server, file, partSize, existing, index)
      invariant Partial(old(server.parts), file, partSize) && Faithful(server.outcome) ==>
                Partial(server.parts, file, partSize)
      invariant forall n :: n in existing && n > index ==>
                n in old(server.parts) && server.parts[n] == old(server.parts)[n]
    {
      ok := UploadPart(server, file, partSize, existing, index);
      if !ok {
        return;
      }
    }
    ok := true;
  }

  lemma AllThere(parts: map<int, Bytes>, file: Bytes, partSize: nat)
    requires partSize > 0 && Holds(parts, file, partSize)
    ensures forall i :: 1 <= i <= TotalParts(|file|, partSize) ==> i in parts
  {
    forall i | 1 <= i <= TotalParts(|file|, partSize) ensures i in parts {
      assert HeldAt(parts, file, partSize, i - 1);
    }
  }

  lemma {:induction false} HeldIsFile(parts: map<int, Bytes>, file: Bytes, partSize: nat, n: nat)
    requires partSize > 0 && n <= TotalParts(|file|, partSize) && HoldsUpTo(parts, file, partSize, n)
    ensures Put(parts, n) == Assembled(file, partSize, n)
  {
    if n > 0 {
      HeldIsFile(parts, file, partSize, n - 1);
      assert HeldAt(parts, file, partSize, n - 1);
    }
  }
}
