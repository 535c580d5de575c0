/** Raw Git tree objects, as `parseRecipeGitTree` of worker/recipe_capture.go reads them. Strings are
    byte strings. */
module GitTree {
  import opened Hexadecimal
  import opened Text
  import opened Values

  datatype Entry = Entry(mode: string, name: string, sha: string)

  const NUL: char := 0 as char

  /** The first position of `c`, or the length. */
  function IndexOf(s: string, c: char): (i: nat)
    ensures i <= |s| && (i < |s| ==> s[i] == c)
  {
    if s == "" || s[0] == c then 0 else 1 + IndexOf(s[1..], c)
  }

  // ----- hexadecimal -----

  predicate IsByte(c: char) {
    c as int < 256
  }

  predicate IsBytes(s: string) {
    forall i :: 0 <= i < |s| ==> IsByte(s[i])
  }

  function HexValue(c: char): nat {
    if '0' <= c <= '9' then c as int - '0' as int else if 'a' <= c <= 'f' then c as int - 'a' as int + 10 else 0
  }

  function HexByte(c: char): string {
    [HexDigit(c as int / 16), HexDigit(c as int)]
  }

  function UnhexByte(a: char, b: char): char {
    (HexValue(a) * 16 + HexValue(b)) as char
  }

  lemma UnhexHexByte(c: char)
    requires IsByte(c)
    ensures UnhexByte(HexByte(c)[0], HexByte(c)[1]) == c
  {
    assert c as int == c as int / 16 * 16 + c as int % 16;
  }

  lemma HexUnhexByte(a: char, b: char)
    requires IsHex(a) && IsHex(b)
    ensures IsByte(UnhexByte(a, b)) && HexByte(UnhexByte(a, b)) == [a, b]
  {
    var n := HexValue(a) * 16 + HexValue(b);
    assert n / 16 == HexValue(a) && n % 16 == HexValue(b);
  }

  /** `hex.EncodeToString`. */
  function Hex(raw: string): (h: string)
    ensures |h| == 2 * |raw|
  {
    if raw == "" then "" else HexByte(raw[0]) + Hex(raw[1..])
  }

  function Unhex(h: string): string {
    if |h| < 2 then "" else [UnhexByte(h[0], h[1])] + Unhex(h[2..])
  }

  lemma {:induction false} UnhexHex(raw: string)
    requires IsBytes(raw)
    ensures Unhex(Hex(raw)) == raw
  {
    if raw != "" {
      UnhexHex(raw[1..]);
      UnhexHexByte(raw[0]);
      assert Hex(raw)[2..] == Hex(raw[1..]);
    }
  }

  lemma {:induction false} HexUnhex(h: string)
    requires |h| % 2 == 0 && forall i :: 0 <= i < |h| ==> IsHex(h[i])
    ensures IsBytes(Unhex(h)) && 2 * |Unhex(h)| == |h|
    ensures Hex(Unhex(h)) == h
  {
    if h != "" {
      HexUnhex(h[2..]);
      HexUnhexByte(h[0], h[1]);
      assert Unhex(h)[1..] == Unhex(h[2..]);
      assert h == [h[0], h[1]] + h[2..];
    }
  }

  // ----- parsing -----

  predicate GoodName(name: string) {
    ValidUtf8(name) && name != "" && '/' !in name
  }

  function Head(raw: string): Entry
    requires |raw| >= 21 && IndexOf(raw, ' ') < IndexOf(raw, NUL) <= |raw| - 21
  {
    var space, end := IndexOf(raw, ' '), IndexOf(raw, NUL);
    Entry(raw[..space], raw[space + 1..end], Hex(raw[end + 1..end + 21]))
  }

  predicate Truncated(raw: string) {
    var space, end := IndexOf(raw, ' '), IndexOf(raw, NUL);
    space == |raw| || end == |raw| || end <= space || end + 21 > |raw|
  }

  /** The entries of a raw tree, none of whose names is in `seen` or repeated. */
  function Parse(raw: string, seen: set<string>): Result<seq<Entry>>
    decreases |raw|
  {
    if raw == "" then Ok([])
    else if Truncated(raw) then Err
    else
      var entry := Head(raw);
      if !GoodName(entry.name) || entry.name in seen then Err
      else
        After([entry], Parse(raw[IndexOf(raw, NUL) + 21..], seen + {entry.name}))
  }

  function After(result: seq<Entry>, rest: Result<seq<Entry>>): Result<seq<Entry>> {
    if rest.Err? then Err else Ok(result + rest.value)
  }

  lemma NothingYet(rest: Result<seq<Entry>>)
    ensures After([], rest) == rest
  {
    assert rest.Ok? ==> [] + rest.value == rest.value;
  }

  lemma OneMore(result: seq<Entry>, entry: Entry, rest: Result<seq<Entry>>)
    ensures After(result, After([entry], rest)) == After(result + [entry], rest)
  {
    assert rest.Ok? ==> result + ([entry] + rest.value) == result + [entry] + rest.value;
  }

  method ParseRecipeGitTree(raw: string) returns (r: Result<seq<Entry>>)
    ensures r == Parse(raw, {})
  {
    var left, seen: set<string>, result: seq<Entry> := raw, {}, [];
    NothingYet(Parse(raw, {}));
    while |left| > 0
      invariant Parse(raw, {}) == After(result, Parse(left, seen))
      decreases |left|
    {
      if Truncated(left) {
        return Err;
      }
      var entry, rest := Head(left), left[IndexOf(left, NUL) + 21..];
      if !GoodName(entry.name) || entry.name in seen {
        return Err;
      }
      OneMore(result, entry, Parse(rest, seen + {entry.name}));
      seen, result, left := seen + {entry.name}, result + [entry], rest;
    }
    assert result + [] == result;
    return Ok(result);
  }

  // ----- printing gives back the raw bytes, and parsing the entries -----

  function Printed(entry: Entry): string {
    entry.mode + " " + entry.name + [NUL] + Unhex(entry.sha)
  }

  function Print(entries: seq<Entry>): string {
    if entries == [] then "" else Printed(entries[0]) + Print(entries[1..])
  }

  lemma {:induction false} PrintParse(raw: string, seen: set<string>)
    requires IsBytes(raw) && Parse(raw, seen).Ok?
    ensures Print(Parse(raw, seen).value) == raw
    decreases |raw|
  {
    if raw != "" {
      var space, end := IndexOf(raw, ' '), IndexOf(raw, NUL);
      PrintParse(raw[end + 21..], seen + {Head(raw).name});
      UnhexHex(raw[end + 1..end + 21]);
      Pieces(raw, space, end);
      PrintCons(Head(raw), Parse(raw[end + 21..], seen + {Head(raw).name}).value);
    }
  }

  lemma PrintCons(entry: Entry, entries: seq<Entry>)
    ensures Print([entry] + entries) == Printed(entry) + Print(entries)
  {
    assert ([entry] + entries)[1..] == entries;
  }

  lemma Pieces(raw: string, space: nat, end: nat)
    requires space < end <= |raw| - 21 && raw[space] == ' ' && raw[end] == NUL
    ensures raw[..space] + " " + raw[space + 1..end] + [NUL] + raw[end + 1..end + 21] + raw[end + 21..] == raw
  {
  }

  /** So different raw trees never parse to the same entries. */
  lemma ParseInjective(a: string, b: string)
    requires IsBytes(a) && IsBytes(b)
    requires Parse(a, {}).Ok? && Parse(a, {}) == Parse(b, {})
    ensures a == b
  {
    PrintParse(a, {});
    PrintParse(b, {});
  }

  predicate Printable(entry: Entry) {
    && ' ' !in entry.mode && NUL !in entry.mode && IsBytes(entry.mode)
    && GoodName(entry.name) && NUL !in entry.name && IsBytes(entry.name)
    && |entry.sha| == 40 && forall i :: 0 <= i < 40 ==> IsHex(entry.sha[i])
  }

  lemma {:induction false} IndexOfAfter(before: string, c: char, after: string)
    requires c !in before
    ensures IndexOf(before + [c] + after, c) == |before|
  {
    var s := before + [c] + after;
    if before != "" {
      assert before[0] in before && s[0] == before[0];
      assert s[1..] == before[1..] + [c] + after;
      IndexOfAfter(before[1..], c, after);
    }
  }

  lemma PrintedPositions(mode: string, name: string, sha: string, after: string)
    requires ' ' !in mode && NUL !in mode && NUL !in name
    ensures var raw := mode + " " + name + [NUL] + sha + after;
            IndexOf(raw, ' ') == |mode| && IndexOf(raw, NUL) == |mode| + 1 + |name|
  {
    var raw, named := mode + " " + name + [NUL] + sha + after, mode + " " + name;
    IndexOfAfter(mode, ' ', name + [NUL] + sha + after);
    assert raw == mode + [' '] + (name + [NUL] + sha + after);
    IndexOfAfter(named, NUL, sha + after);
    assert raw == named + [NUL] + (sha + after);
  }

  lemma PrintedPieces(mode: string, name: string, sha: string, after: string)
    requires |sha| == 20
    ensures var raw, end := mode + " " + name + [NUL] + sha + after, |mode| + 1 + |name|;
            && |raw| == end + 21 + |after| && raw[..|mode|] == mode && raw[|mode| + 1..end] == name
            && raw[end + 1..end + 21] == sha && raw[end + 21..] == after
  {
  }

  /** One printed entry, whatever follows it, is read back. */
  lemma HeadPrinted(entry: Entry, after: string)
    requires Printable(entry) && IsBytes(after)
    ensures var raw := Printed(entry) + after;
            && IsBytes(raw) && raw != "" && !Truncated(raw) && Head(raw) == entry
            && raw[IndexOf(raw, NUL) + 21..] == after
  {
    var sha := Unhex(entry.sha);
    HexUnhex(entry.sha);
    PrintedPositions(entry.mode, entry.name, sha, after);
    PrintedPieces(entry.mode, entry.name, sha, after);
  }

  ghost predicate DistinctNames(entries: seq<Entry>, seen: set<string>) {
    && (forall e :: e in entries ==> e.name !in seen)
    && (forall i, j :: 0 <= i < j < |entries| ==> entries[i].name != entries[j].name)
  }

  lemma {:induction false} ParsePrint(entries: seq<Entry>, seen: set<string>)
    requires (forall e :: e in entries ==> Printable(e)) && DistinctNames(entries, seen)
    ensures IsBytes(Print(entries)) && Parse(Print(entries), seen) == Ok(entries)
    decreases |entries|
  {
    if entries != [] {
      var entry, rest := entries[0], entries[1..];
      assert entries == [entry] + rest;
      forall e | e in rest ensures e.name !in seen + {entry.name} {
        var i :| 0 <= i < |rest| && rest[i] == e;
        assert entries[0].name != entries[i + 1].name;
      }
      forall i, j | 0 <= i < j < |rest| ensures rest[i].name != rest[j].name {
        assert entries[i + 1].name != entries[j + 1].name;
      }
      ParsePrint(rest, seen + {entry.name});
      HeadPrinted(entry, Print(rest));
    }
  }

  /** A raw tree parses to these entries exactly if it is their print. */
  lemma ParsesIff(raw: string, entries: seq<Entry>)
    requires IsBytes(raw) && (forall e :: e in entries ==> Printable(e)) && DistinctNames(entries, {})
    ensures Parse(raw, {}) == Ok(entries) <==> raw == Print(entries)
  {
    ParsePrint(entries, {});
    if Parse(raw, {}) == Ok(entries) {
      PrintParse(raw, {});
    }
  }

  /** Parsed entries have distinct names, none with a slash. */
  lemma {:induction false} ParsedNames(raw: string, seen: set<string>)
    requires Parse(raw, seen).Ok?
    ensures DistinctNames(Parse(raw, seen).value, seen)
    ensures forall e :: e in Parse(raw, seen).value ==> GoodName(e.name)
    decreases |raw|
  {
    if raw != "" {
      var entry := Head(raw);
      var more := raw[IndexOf(raw, NUL) + 21..];
      ParsedNames(more, seen + {entry.name});
      var rest := Parse(more, seen + {entry.name}).value;
      assert forall i :: 0 <= i < |rest| ==> rest[i] in rest;
    }
  }
}
