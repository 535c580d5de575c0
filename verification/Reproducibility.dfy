/** The output comparison of worker/reproducibility.go. Files are sequences of bytes; reading them does
    not fail. */
module Reproducibility {
  import opened Values

  type File = seq<bv8>

  // ----- the first different byte, chunk by chunk -----

  /** The least offset at which the files differ; the length of the shorter one if it is a prefix. */
  predicate DiffersFirstAt(a: File, b: File, offset: nat) {
    && offset <= |a| && offset <= |b| && a[..offset] == b[..offset] && a != b
    && (offset < |a| && offset < |b| ==> a[offset] != b[offset])
    && (offset == |a| || offset == |b| ==> |a| != |b|)
  }

  /** It is unique, */
  lemma FirstOnce(a: File, b: File, i: nat, j: nat)
    requires DiffersFirstAt(a, b, i) && DiffersFirstAt(a, b, j)
    ensures i == j
  {
    if i < j {
      AgreeBefore(a, b, j, i);
    } else if j < i {
      AgreeBefore(a, b, i, j);
    }
  }

  lemma AgreeBefore(a: File, b: File, offset: nat, k: nat)
    requires k < offset <= |a| && offset <= |b| && a[..offset] == b[..offset]
    ensures a[k] == b[k]
  {
    assert a[..offset][k] == b[..offset][k];
  }

  /** and no earlier offset shows a difference. */
  lemma LeastOffset(a: File, b: File, offset: nat, k: nat)
    requires DiffersFirstAt(a, b, offset) && k < |a| && k < |b| && a[k] != b[k]
    ensures offset <= k
  {
    if k < offset {
      AgreeBefore(a, b, offset, k);
    }
  }

  function Min(a: nat, b: nat): nat {
    if a <= b then a else b
  }

  /** `io.ReadFull` of up to `chunk` bytes from `offset`; it falls short only at the end. */
  function ReadFull(f: File, offset: nat, chunk: nat): File
    requires offset <= |f|
  {
    f[offset..offset + Min(chunk, |f| - offset)]
  }

  method CompareChunks(left: File, right: File) returns (index: nat)
    ensures index <= |left| && index <= |right| && left[..index] == right[..index]
    ensures index < |left| && index < |right| ==> left[index] != right[index]
    ensures index == |left| || index == |right| || left[index] != right[index]
  {
    var limit := Min(|left|, |right|);
    for i := 0 to limit
      invariant left[..i] == right[..i]
    {
      if left[i] != right[i] {
        return i;
      }
      assert left[..i + 1] == left[..i] + [left[i]] && right[..i + 1] == right[..i] + [right[i]];
    }
    return limit;
  }

  method FirstDifferentByte(primary: File, secondary: File, chunk: nat) returns (offset: nat, different: bool)
    requires chunk > 0
    ensures different <==> primary != secondary
    ensures different ==> DiffersFirstAt(primary, secondary, offset)
  {
    offset := 0;
    while true
      invariant offset <= |primary| && offset <= |secondary| && primary[..offset] == secondary[..offset]
      decreases |primary| - offset
    {
      var left, right := ReadFull(primary, offset, chunk), ReadFull(secondary, offset, chunk);
      var index := CompareChunks(left, right);
      ChunksExtend(primary, secondary, offset, chunk, index);
      if index < |left| && index < |right| {
        return offset + index, true;
      }
      if |left| != |right| {
        return offset + index, true;
      }
      offset := offset + |left|;
      // Either read fell short: both are at their ends.
      if |left| < chunk {
        assert primary[..offset] == primary && secondary[..offset] == secondary;
        return offset, false;
      }
    }
  }

  lemma ChunksExtend(a: File, b: File, offset: nat, chunk: nat, index: nat)
    requires offset <= |a| && offset <= |b| && a[..offset] == b[..offset]
    requires var left, right := ReadFull(a, offset, chunk), ReadFull(b, offset, chunk);
             index <= |left| && index <= |right| && left[..index] == right[..index]
    ensures a[..offset + index] == b[..offset + index]
  {
    var left, right := ReadFull(a, offset, chunk), ReadFull(b, offset, chunk);
    assert a[..offset + index] == a[..offset] + left[..index];
    assert b[..offset + index] == b[..offset] + right[..index];
  }

  // ----- the order of names -----

  predicate Less(a: string, b: string) {
    b != "" && (a == "" || a[0] < b[0] || (a[0] == b[0] && Less(a[1..], b[1..])))
  }

  lemma {:induction false} LessTotal(a: string, b: string)
    ensures Less(a, b) || Less(b, a) || a == b
    ensures !(Less(a, b) && Less(b, a)) && !Less(a, a)
  {
    if a != "" && b != "" {
      LessTotal(a[1..], b[1..]);
      assert a == [a[0]] + a[1..] && b == [b[0]] + b[1..];
    }
    if a != "" {
      LessTotal(a[1..], a[1..]);
    }
  }

  lemma {:induction false} LessTransitive(a: string, b: string, c: string)
    requires Less(a, b) && Less(b, c)
    ensures Less(a, c)
  {
    if a != "" && a[0] == b[0] == c[0] {
      LessTransitive(a[1..], b[1..], c[1..]);
    }
  }

  predicate IsLeast(name: string, names: set<string>) {
    name in names && forall other :: other in names && other != name ==> Less(name, other)
  }

  lemma {:induction false} LeastExists(names: set<string>) returns (least: string)
    requires names != {}
    ensures IsLeast(least, names)
    decreases names
  {
    var name :| name in names;
    if names == {name} {
      least := name;
    } else {
      least := LeastExists(names - {name});
      LessTotal(name, least);
      if Less(name, least) {
        forall other | other in names && other != name ensures Less(name, other) {
          if other != least {
            LessTransitive(name, least, other);
          }
        }
        least := name;
      }
    }
  }

  lemma LeastFirst(sorted: seq<string>, pending: set<string>, least: string)
    requires IsLeast(least, pending) && forall a, b :: a in sorted && b in pending ==> Less(a, b)
    ensures forall a, b :: a in sorted + [least] && b in pending - {least} ==> Less(a, b)
  {
    forall a, b | a in sorted + [least] && b in pending - {least} ensures Less(a, b) {
      if a == least {
        assert b in pending && b != least;
        assert Less(least, b);
      } else {
        assert a in sorted;
      }
    }
  }

  predicate Increasing(names: seq<string>) {
    forall i, j :: 0 <= i < j < |names| ==> Less(names[i], names[j])
  }

  /** `sort.Strings` of distinct names. */
  method Sorted(names: set<string>) returns (sorted: seq<string>)
    ensures Increasing(sorted) && forall name :: name in sorted <==> name in names
  {
    sorted := [];
    var pending := names;
    while pending != {}
      invariant pending <= names && Increasing(sorted)
      invariant forall name :: name in sorted <==> name in names && name !in pending
      invariant forall a, b :: a in sorted && b in pending ==> Less(a, b)
    {
      ghost var witness_ := LeastExists(pending);
      var least :| least in pending && IsLeast(least, pending);
      LeastFirst(sorted, pending, least);
      pending := pending - {least};
      sorted := sorted + [least];
    }
  }

  // ----- the comparison -----

  /** `content` is what the file at its path holds. */
  datatype Output = Output(filename: string, size: int, sha256: string, content: File)

  datatype Reason = MissingPrimary | MissingSecondary | SizeMismatch | ByteMismatch | HashMismatch

  datatype Difference = Difference(filename: string, reason: Reason, primarySize: int, secondarySize: int,
                                   primarySha256: string, secondarySha256: string, firstByte: nat)

  predicate DistinctNames(outputs: seq<Output>) {
    forall i, j :: 0 <= i < j < |outputs| ==> outputs[i].filename != outputs[j].filename
  }

  function ByName(outputs: seq<Output>): map<string, Output> {
    if outputs == [] then map[]
    else ByName(outputs[..|outputs| - 1])[outputs[|outputs| - 1].filename := outputs[|outputs| - 1]]
  }

  /** How the outputs of one name differ, if they do. */
  ghost predicate Differ(left: map<string, Output>, right: map<string, Output>, d: Difference) {
    var name := d.filename;
    (name in left || name in right) &&
    if name !in left then d == Difference(name, MissingPrimary, 0, right[name].size, "", right[name].sha256, 0)
    else if name !in right then d == Difference(name, MissingSecondary, left[name].size, 0, left[name].sha256, "", 0)
    else
      var a, b := left[name], right[name];
      && d.primarySize == a.size && d.secondarySize == b.size && d.primarySha256 == a.sha256
            && d.secondarySha256 == b.sha256
      && if a.size != b.size then d.reason == SizeMismatch && d.firstByte == 0
         else if a.content != b.content then d.reason == ByteMismatch &&
                                            DiffersFirstAt(a.content, b.content, d.firstByte)
         else d.reason == HashMismatch && d.firstByte == 0 && a.sha256 != b.sha256
  }

  /** There is at most one way to report a name. */
  lemma DifferOnce(left: map<string, Output>, right: map<string, Output>, d: Difference, e: Difference)
    requires Differ(left, right, d) && Differ(left, right, e) && d.filename == e.filename
    ensures d == e
  {
    if d.reason == ByteMismatch {
      FirstOnce(left[d.filename].content, right[d.filename].content, d.firstByte, e.firstByte);
    }
  }

  method IndexOutputs(outputs: seq<Output>) returns (ok: bool, index: map<string, Output>)
    ensures ok == DistinctNames(outputs)
    ensures ok ==> index == ByName(outputs)
  {
    index := map[];
    for i := 0 to |outputs|
      invariant DistinctNames(outputs[..i]) && index == ByName(outputs[..i])
    {
      var output := outputs[i];
      NamesGrow(outputs, i);
      if output.filename in index {
        return false, map[];
      }
      index := index[output.filename := output];
    }
    assert outputs[..|outputs|] == outputs;
    ok := true;
  }

  lemma {:induction false} NamesOf(outputs: seq<Output>)
    ensures forall name :: name in ByName(outputs) <==> exists o :: o in outputs && o.filename == name
  {
    if outputs != [] {
      NamesOf(outputs[..|outputs| - 1]);
      assert outputs == outputs[..|outputs| - 1] + [outputs[|outputs| - 1]];
    }
  }

  lemma NamesGrow(outputs: seq<Output>, i: nat)
    requires i < |outputs| && DistinctNames(outputs[..i])
    ensures ByName(outputs[..i + 1]) == ByName(outputs[..i])[outputs[i].filename := outputs[i]]
    ensures DistinctNames(outputs[..i + 1]) <==> outputs[i].filename !in ByName(outputs[..i])
    ensures outputs[i].filename in ByName(outputs[..i]) ==> !DistinctNames(outputs)
  {
    assert outputs[..i + 1][..i] == outputs[..i];
    NamesOf(outputs[..i]);
    if outputs[i].filename in ByName(outputs[..i]) {
      var o :| o in outputs[..i] && o.filename == outputs[i].filename;
      var k :| 0 <= k < i && outputs[k] == o;
      assert outputs[..i + 1][k].filename == outputs[..i + 1][i].filename;
    } else {
      forall j, k | 0 <= j < k < i + 1 ensures outputs[j].filename != outputs[k].filename {
        assert outputs[j] in outputs[..i];
        assert k < i ==> outputs[..i][j].filename != outputs[..i][k].filename;
      }
    }
  }

  const CHUNK := 0x10_0000

  method CompareOne(left: map<string, Output>, right: map<string, Output>, name: string) returns (d: Option<Difference>)
    requires name in left || name in right
    ensures d.Some? ==> d.value.filename == name && Differ(left, right, d.value)
    ensures d.None? ==> forall e: Difference :: e.filename == name ==> !Differ(left, right, e)
  {
    if name !in left {
      return Some(Difference(name, MissingPrimary, 0, right[name].size, "", right[name].sha256, 0));
    }
    if name !in right {
      return Some(Difference(name, MissingSecondary, left[name].size, 0, left[name].sha256, "", 0));
    }
    var first, second := left[name], right[name];
    var difference := Difference(name, SizeMismatch, first.size, second.size, first.sha256, second.sha256, 0);
    if first.size != second.size {
      return Some(difference);
    }
    var offset, different := FirstDifferentByte(first.content, second.content, CHUNK);
    if different {
      return Some(difference.(reason := ByteMismatch, firstByte := offset));
    }
    if first.sha256 != second.sha256 {
      return Some(difference.(reason := HashMismatch));
    }
    return None;
  }

  function Names(differences: seq<Difference>): (names: seq<string>)
    ensures |names| == |differences| && forall i :: 0 <= i < |differences| ==> names[i] == differences[i].filename
  {
    seq(|differences|, i requires 0 <= i < |differences| => differences[i].filename)
  }

  /** One entry for each differing name and no other, in the order of names; duplicates are refused. */
  method CompareReproducibilityOutputs(primary: seq<Output>, secondary: seq<Output>)
    returns (r: Option<seq<Difference>>)
    ensures r.Some? <==> DistinctNames(primary) && DistinctNames(secondary)
    ensures r.Some? ==> Increasing(Names(r.value))
    ensures r.Some? ==> forall d :: d in r.value <==> Differ(ByName(primary), ByName(secondary), d)
  {
    var ok, left := IndexOutputs(primary);
    if !ok {
      return None;
    }
    var right;
    ok, right := IndexOutputs(secondary);
    if !ok {
      return None;
    }
    var names := Sorted(left.Keys + right.Keys);
    var differences: seq<Difference> := [];
    for i := 0 to |names|
      invariant Increasing(Names(differences))
      invariant forall d :: d in differences ==> Differ(left, right, d) && d.filename in names[..i]
      invariant forall d :: Differ(left, right, d) && d.filename in names[..i] ==> d in differences
    {
      var name := names[i];
      assert name in names && names[..i + 1] == names[..i] + [name];
      var d := CompareOne(left, right, name);
      forall e | Differ(left, right, e) && e.filename == name ensures d == Some(e) {
        DifferOnce(left, right, e, d.value);
      }
      if d.Some? {
        forall j | 0 <= j < |differences| ensures Less(differences[j].filename, name) {
          assert differences[j] in differences;
        }
        differences := differences + [d.value];
      }
    }
    assert names[..|names|] == names;
    return Some(differences);
  }

  // ----- when there is nothing to report -----

  ghost predicate Inspected(sha256: File -> string, outputs: seq<Output>) {
    forall o :: o in outputs ==> o.size == |o.content| && o.sha256 == sha256(o.content)
  }

  function Contents(outputs: seq<Output>): map<string, File> {
    if outputs == [] then map[]
    else Contents(outputs[..|outputs| - 1])[outputs[|outputs| - 1].filename := outputs[|outputs| - 1].content]
  }

  lemma {:induction false} ContentsOf(outputs: seq<Output>)
    ensures Contents(outputs).Keys == ByName(outputs).Keys
    ensures forall name :: name in ByName(outputs) ==>
              ByName(outputs)[name] in outputs && ByName(outputs)[name].filename == name
                    && Contents(outputs)[name] == ByName(outputs)[name].content
  {
    if outputs != [] {
      ContentsOf(outputs[..|outputs| - 1]);
      assert outputs == outputs[..|outputs| - 1] + [outputs[|outputs| - 1]];
    }
  }

  /** For inspected outputs nothing differs exactly when the two attempts hold the same names with the
      same bytes. */
  lemma NothingDiffersIff(sha256: File -> string, primary: seq<Output>, secondary: seq<Output>)
    requires Inspected(sha256, primary) && Inspected(sha256, secondary)
    ensures (forall d :: !Differ(ByName(primary), ByName(secondary), d)) <==> Contents(primary) == Contents(secondary)
  {
    var left, right := ByName(primary), ByName(secondary);
    ContentsOf(primary);
    ContentsOf(secondary);
    if Contents(primary) == Contents(secondary) {
      forall d ensures !Differ(left, right, d) {
        assert d.filename in left <==> d.filename in right;
      }
    }
    if forall d :: !Differ(left, right, d) {
      forall name: string
        ensures name in Contents(primary) <==> name in Contents(secondary)
        ensures name in Contents(primary) && name in Contents(secondary) ==>
                  Contents(primary)[name] == Contents(secondary)[name]
      {
        if name in left || name in right {
          var d := SomeDifference(left, right, name);
        }
      }
    }
  }

  /** Different outputs of one name have a difference to report. */
  lemma SomeDifference(left: map<string, Output>, right: map<string, Output>, name: string) returns (d: Difference)
    requires name in left || name in right
    ensures name !in left || name !in right || left[name].content != right[name].content ==> Differ(left, right, d)
  {
    if name !in left {
      d := Difference(name, MissingPrimary, 0, right[name].size, "", right[name].sha256, 0);
    } else if name !in right {
      d := Difference(name, MissingSecondary, left[name].size, 0, left[name].sha256, "", 0);
    } else {
      var a, b := left[name], right[name];
      d := Difference(name, SizeMismatch, a.size, b.size, a.sha256, b.sha256, 0);
      if a.size == b.size && a.content != b.content {
        var offset := SomeFirst(a.content, b.content);
        d := d.(reason := ByteMismatch, firstByte := offset);
      }
    }
  }

  lemma {:induction false} SomeFirst(a: File, b: File) returns (offset: nat)
    requires a != b
    ensures DiffersFirstAt(a, b, offset)
  {
    if a == [] || b == [] || a[0] != b[0] {
      offset := 0;
    } else {
      assert a == [a[0]] + a[1..] && b == [b[0]] + b[1..];
      var rest := SomeFirst(a[1..], b[1..]);
      offset := rest + 1;
      assert a[..offset] == [a[0]] + a[1..][..rest] && b[..offset] == [b[0]] + b[1..][..rest];
    }
  }
}
