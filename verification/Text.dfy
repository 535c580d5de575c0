/** Byte-string helpers shared by the models: the separator functions the sources call. */
module Text {

  /** Splits around every `sep`; like `strings.Split`, the result is never empty. */
  function Split(s: string, sep: char): (parts: seq<string>)
    ensures |parts| >= 1
    ensures forall i :: 0 <= i < |parts| ==> sep !in parts[i]
    ensures Join(parts, sep) == s
  {
    if s == "" then [""]
    else
      var rest := Split(s[1..], sep);
      if s[0] == sep then
        assert s == [sep] + s[1..];
        [""] + rest
      else
        assert s == [s[0]] + s[1..];
        var parts := [[s[0]] + rest[0]] + rest[1..];
        assert parts[1..] == rest[1..];
        parts
  }

  function Join(parts: seq<string>, sep: char): string
  {
    if parts == [] then ""
    else if |parts| == 1 then parts[0]
    else parts[0] + [sep] + Join(parts[1..], sep)
  }

  /** Splitting undoes joining when no part contains the separator. */
  lemma {:induction false} SplitJoin(parts: seq<string>, sep: char)
    requires parts != []
    requires forall i :: 0 <= i < |parts| ==> sep !in parts[i]
    ensures Split(Join(parts, sep), sep) == parts
    decreases |parts|, |parts[0]|
  {
    var s := Join(parts, sep);
    if parts[0] == "" {
      if |parts| > 1 {
        assert s[1..] == Join(parts[1..], sep);
        SplitJoin(parts[1..], sep);
        assert parts == [""] + parts[1..];
      }
    } else {
      var shorter := [parts[0][1..]] + parts[1..];
      assert shorter[1..] == parts[1..];
      assert s[1..] == Join(shorter, sep);
      SplitJoin(shorter, sep);
      assert parts[0] == [s[0]] + shorter[0];
      assert parts == [[s[0]] + shorter[0]] + shorter[1..];
    }
  }

  predicate HasPrefix(s: string, prefix: string) {
    prefix <= s
  }

  predicate HasSuffix(s: string, suffix: string) {
    |suffix| <= |s| && s[|s| - |suffix|..] == suffix
  }

  /** `utf8.ValidString`: well-formed UTF-8, each char standing for one byte. */
  predicate ValidUtf8(s: string)
    decreases |s|
  {
    if s == "" then true
    else
      var b := s[0] as int;
      if b < 0x80 then ValidUtf8(s[1..])
      else if 0xC2 <= b < 0xE0 then
        |s| >= 2 && Continuation(s[1], 0x80, 0xBF) && ValidUtf8(s[2..])
      else if 0xE0 <= b < 0xF0 then
        && |s| >= 3
        && Continuation(s[1], if b == 0xE0 then 0xA0 else 0x80, if b == 0xED then 0x9F else 0xBF)
        && Continuation(s[2], 0x80, 0xBF)
        && ValidUtf8(s[3..])
      else if 0xF0 <= b < 0xF5 then
        && |s| >= 4
        && Continuation(s[1], if b == 0xF0 then 0x90 else 0x80, if b == 0xF4 then 0x8F else 0xBF)
        && Continuation(s[2], 0x80, 0xBF)
        && Continuation(s[3], 0x80, 0xBF)
        && ValidUtf8(s[4..])
      else false
  }

  predicate Continuation(c: char, low: int, high: int) {
    low <= c as int <= high
  }

  /** No proper ancestor of the path is among `paths`. */
  predicate ParentsFree(paths: set<string>, path: string) {
    var parts := Split(path, '/');
    forall k :: 1 <= k < |parts| ==> Join(parts[..k], '/') !in paths
  }
}
