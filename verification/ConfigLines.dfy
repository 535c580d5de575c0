/** The lines of a pacman.conf as omarchy/manifest-client/config.go tells them apart. Strings are
    sequences of code points. */
module ConfigLines {
  import opened Text
  import opened Values

  // ----- lines -----

  /** `strings.SplitAfter(s, "\n")`: the last line is the one without a newline, possibly empty. */
  function SplitAfter(s: string): (lines: seq<string>)
    ensures lines != [] && Concat(lines) == s
  {
    if s == "" then [""]
    else
      var rest := SplitAfter(s[1..]);
      if s[0] == '\n' then
        assert s == "\n" + s[1..];
        var lines := ["\n"] + rest;
        assert lines[1..] == rest;
        lines
      else
        var lines := [[s[0]] + rest[0]] + rest[1..];
        assert lines[1..] == rest[1..] && s == [s[0]] + s[1..];
        lines
  }

  function Concat(lines: seq<string>): string {
    if lines == [] then "" else lines[0] + Concat(lines[1..])
  }

  lemma {:induction false} ConcatAppend(a: seq<string>, b: seq<string>)
    ensures Concat(a + b) == Concat(a) + Concat(b)
  {
    if a == [] {
      assert a + b == b;
    } else {
      assert (a + b)[1..] == a[1..] + b;
      ConcatAppend(a[1..], b);
    }
  }

  /** A line with its newline, and no other. */
  predicate IsLine(line: string) {
    line != "" && line[|line| - 1] == '\n' && '\n' !in line[..|line| - 1]
  }

  lemma {:induction false} SplitAfterConcat(lines: seq<string>)
    requires forall i :: 0 <= i < |lines| ==> IsLine(lines[i])
    ensures SplitAfter(Concat(lines)) == lines + [""]
    decreases |lines|, if lines == [] then 0 else |lines[0]|
  {
    if lines != [] {
      SplitAfterConcat(lines[1..]);
      SplitAfterLine(lines[0], Concat(lines[1..]));
      assert lines == [lines[0]] + lines[1..];
    }
  }

  lemma {:induction false} SplitAfterLine(line: string, rest: string)
    requires IsLine(line)
    ensures SplitAfter(line + rest) == [line] + SplitAfter(rest)
  {
    var s := line + rest;
    if line[0] == '\n' {
      assert line == "\n" && s[1..] == rest;
    } else {
      assert s[1..] == line[1..] + rest;
      assert line[1..][..|line[1..]| - 1] == line[1..|line| - 1];
      SplitAfterLine(line[1..], rest);
      assert line == [line[0]] + line[1..];
    }
  }

  /** All lines but the last end in a newline. */
  lemma {:induction false} SplitAfterLines(s: string)
    ensures AreLines(SplitAfter(s), s)
  {
    if s != "" {
      var tail := s[1..];
      assert s == [s[0]] + tail;
      SplitAfterLines(tail);
      if s[0] == '\n' {
        FirstLineEnds(SplitAfter(tail), tail);
      } else {
        FirstLineGrows(s[0], SplitAfter(tail), tail);
      }
    }
  }

  /** Only the last line lacks a newline, and it is empty if the text ends in one. */
  ghost predicate AreLines(lines: seq<string>, s: string) {
    && lines != [] && (forall i :: 0 <= i < |lines| - 1 ==> IsLine(lines[i])) && '\n' !in lines[|lines| - 1]
    && Concat(lines) == s && (s == "" || s[|s| - 1] == '\n' ==> lines[|lines| - 1] == "")
  }

  lemma FirstLineEnds(rest: seq<string>, tail: string)
    requires AreLines(rest, tail)
    ensures AreLines(["\n"] + rest, "\n" + tail)
  {
    assert (["\n"] + rest)[1..] == rest;
    assert tail != "" ==> ("\n" + tail)[|tail|] == tail[|tail| - 1];
  }

  lemma FirstLineGrows(c: char, rest: seq<string>, tail: string)
    requires AreLines(rest, tail) && c != '\n'
    ensures AreLines([[c] + rest[0]] + rest[1..], [c] + tail)
  {
    LongerFirstLine(c, rest);
    assert ([[c] + rest[0]] + rest[1..])[1..] == rest[1..];
    assert [c] + tail == [c] + rest[0] + Concat(rest[1..]);
    if tail != "" {
      assert ([c] + tail)[|tail|] == tail[|tail| - 1];
    }
    if |rest| == 1 {
      assert tail == rest[0] + "";
    }
  }

  lemma LongerFirstLine(c: char, rest: seq<string>)
    requires rest != [] && c != '\n'
    requires (forall i :: 0 <= i < |rest| - 1 ==> IsLine(rest[i])) && '\n' !in rest[|rest| - 1]
    ensures var lines := [[c] + rest[0]] + rest[1..];
            (forall i :: 0 <= i < |lines| - 1 ==> IsLine(lines[i])) && '\n' !in lines[|lines| - 1]
  {
    var lines := [[c] + rest[0]] + rest[1..];
    assert forall i :: 1 <= i < |lines| ==> lines[i] == rest[i];
    if |rest| > 1 {
      assert lines[0][..|lines[0]| - 1] == [c] + rest[0][..|rest[0]| - 1];
    }
  }

  // ----- what a line is -----

  predicate IsSpace(c: char) {
    var n := c as int;
    || 9 <= n <= 13 || n == 32 || n == 0x85 || n == 0xA0 || n == 0x1680 || 0x2000 <= n <= 0x200A
    || n == 0x2028 || n == 0x2029 || n == 0x202F || n == 0x205F || n == 0x3000
  }

  /** The class `\s` of the section pattern. */
  predicate IsPatternSpace(c: char) {
    c == ' ' || c == '\t' || c == '\n' || c == '\r' || c as int == 12
  }

  function TrimLeft(s: string, space: char -> bool): string {
    if s != "" && space(s[0]) then TrimLeft(s[1..], space) else s
  }

  function TrimRight(s: string, space: char -> bool): string {
    if s != "" && space(s[|s| - 1]) then TrimRight(s[..|s| - 1], space) else s
  }

  function TrimSpace(line: string): string {
    TrimRight(TrimLeft(line, IsSpace), IsSpace)
  }

  /** `unicode.ToLower`, as far as it reaches ASCII: besides A to Z, that is U+0130 and U+212A. */
  function LowerChar(c: char): char {
    if 'A' <= c <= 'Z' then (c as int + 32) as char
    else if c as int == 0x130 then 'i'
    else if c as int == 0x212A then 'k'
    else c
  }

  function Lower(s: string): string {
    seq(|s|, i requires 0 <= i < |s| => LowerChar(s[i]))
  }

  /** A directive `word...=...`, in any letter case. */
  predicate IsDirective(line: string, word: string) {
    HasPrefix(Lower(TrimSpace(line)), word) && '=' in TrimSpace(line)
  }

  predicate IsServer(line: string) {
    IsDirective(line, "server")
  }

  predicate IsInclude(line: string) {
    IsDirective(line, "include")
  }

  predicate IsSigLevel(line: string) {
    IsDirective(line, "siglevel")
  }

  predicate IsActive(line: string) {
    var trimmed := TrimSpace(line);
    !HasPrefix(trimmed, "#") && !HasPrefix(trimmed, ";") && (IsServer(line) || IsInclude(line))
  }

  predicate Contains(s: string, sub: string) {
    exists i :: 0 <= i <= |s| && HasPrefix(s[i..], sub)
  }

  /** A signature level that does not require signatures. */
  predicate IsWeakSigLevel(line: string) {
    IsSigLevel(line) && !Contains(Lower(TrimSpace(line)), "required")
  }

  /** The section pattern `^\s*\[([^\]]+)\]\s*$` on the line without its newline. */
  function SectionName(line: string): Option<string> {
    var bare := if HasSuffix(line, "\n") then line[..|line| - 1] else line;
    var t := TrimRight(TrimLeft(bare, IsPatternSpace), IsPatternSpace);
    if |t| > 2 && t[0] == '[' && t[|t| - 1] == ']' && ']' !in t[1..|t| - 1] then Some(t[1..|t| - 1]) else None
  }
}
