/** What a rewritten pacman.conf holds when it is read again. */
module RewrittenConfig {
  import opened Text
  import opened ConfigLines
  import opened PacmanConfig
  import opened Values

  // ----- the lines a rewrite writes -----

  lemma {:induction false} TrimRightKeeps(s: string, p: string, space: char -> bool)
    requires p <= s && p != "" && !space(p[|p| - 1])
    ensures p <= TrimRight(s, space)
    decreases |s|
  {
    if space(s[|s| - 1]) {
      TrimRightKeeps(s[..|s| - 1], p, space);
    }
  }

  lemma LowerKeepsPrefix(s: string, p: string)
    requires p <= s
    ensures Lower(p) <= Lower(s)
  {
  }

  /** A line that starts with `start`, which has no space around it and ends in `=`. */
  lemma DirectiveLine(line: string, start: string)
    requires |start| > 1 && start <= line && start[|start| - 1] == '='
    requires !IsSpace(start[0]) && start[0] != '[' && !IsPatternSpace(start[0]) && line[|line| - 1] == '\n'
    ensures start <= TrimSpace(line) && Lower(start) <= Lower(TrimSpace(line)) && '=' in TrimSpace(line)
    ensures SectionName(line).None?
  {
    assert TrimLeft(line, IsSpace) == line;
    TrimRightKeeps(line, start, IsSpace);
    LowerKeepsPrefix(TrimSpace(line), start);
    assert start[|start| - 1] in TrimSpace(line);
    var bare := line[..|line| - 1];
    assert start <= bare;
    assert TrimLeft(bare, IsPatternSpace) == bare;
    TrimRightKeeps(bare, start, IsPatternSpace);
  }

  lemma ServerLineFacts(url: string)
    requires '\n' !in url
    ensures var line := ServerLine(url);
            && IsLine(line) && SectionName(line).None? && IsServer(line) && IsActive(line)
            && !IsInclude(line) && !IsSigLevel(line)
  {
    var line, start := ServerLine(url), "Server =";
    assert line[..8] == start;
    DirectiveLine(line, start);
    assert Lower(start) == "server =";
    var lower := Lower(TrimSpace(line));
    assert lower[..8] == "server =" && lower[..6] == "server";
    assert lower[0] == 's' && lower[1] == 'e';
    assert TrimSpace(line)[0] == 'S';
  }

  lemma SigLineTrimmed()
    ensures var start := "SigLevel = Required TrustedOnly";
            start <= TrimSpace(SIG_LINE) && Lower(start) <= Lower(TrimSpace(SIG_LINE))
    ensures SectionName(SIG_LINE).None? && '=' in TrimSpace(SIG_LINE)
  {
    var start := "SigLevel = Required TrustedOnly";
    assert SIG_LINE[..31] == start && SIG_LINE[..10] == "SigLevel =";
    DirectiveLine(SIG_LINE, "SigLevel =");
    TrimRightKeeps(SIG_LINE, start, IsSpace);
    assert TrimLeft(SIG_LINE, IsSpace) == SIG_LINE;
    LowerKeepsPrefix(TrimSpace(SIG_LINE), start);
  }

  lemma ContainsAt(s: string, sub: string, i: nat)
    requires i <= |s| && sub <= s[i..]
    ensures Contains(s, sub)
  {
  }

  lemma SigLower(lower: string)
    requires "siglevel = required trustedonly" <= lower
    ensures HasPrefix(lower, "siglevel") && !HasPrefix(lower, "server") && !HasPrefix(lower, "include")
    ensures Contains(lower, "required")
  {
    var start := "siglevel = required trustedonly";
    assert lower[..31] == start;
    assert lower[..8] == start[..8] == "siglevel" && lower[0] == 's' && lower[1] == 'i';
    assert lower[11..19] == start[11..19] == "required" && lower[11..][..8] == lower[11..19];
    ContainsAt(lower, "required", 11);
  }

  lemma SigLineIsLine()
    ensures IsLine(SIG_LINE)
  {
    assert SIG_LINE == "SigLevel = Required TrustedOnly" + "\n";
  }

  lemma SigLowered()
    ensures Lower("SigLevel = Required TrustedOnly") == "siglevel = required trustedonly"
  {
  }

  lemma SigLineFacts()
    ensures IsLine(SIG_LINE) && SectionName(SIG_LINE).None? && IsSigLevel(SIG_LINE)
    ensures !IsServer(SIG_LINE) && !IsInclude(SIG_LINE) && !IsWeakSigLevel(SIG_LINE)
  {
    SigLineTrimmed();
    SigLineIsLine();
    SigLowered();
    SigLower(Lower(TrimSpace(SIG_LINE)));
  }

  predicate IsBlank(line: string) {
    line == "" || line == "\n"
  }

  lemma BlankFacts(line: string)
    requires IsBlank(line)
    ensures SectionName(line).None? && !IsServer(line) && !IsInclude(line) && !IsSigLevel(line) && !IsActive(line)
  {
    assert TrimLeft("\n", IsSpace) == "";
    assert TrimSpace(line) == "";
  }

  predicate GoodName(name: string) {
    name != "" && forall c :: c in name ==> 'a' <= c <= 'z' || '0' <= c <= '9' || c == '_' || c == '-'
  }

  lemma HeaderFacts(name: string)
    requires GoodName(name)
    ensures var line := "[" + name + "]\n"; IsLine(line) && SectionName(line) == Some(name)
  {
    var line, bare := "[" + name + "]\n", "[" + name + "]";
    assert line[..|line| - 1] == bare && HasSuffix(line, "\n");
    assert TrimLeft(bare, IsPatternSpace) == bare && bare[|bare| - 1] == ']';
    assert TrimRight(bare, IsPatternSpace) == bare;
    assert bare[1..|bare| - 1] == name;
  }

  // ----- owned sections -----

  function Servers(lines: seq<string>): seq<string> {
    if lines == [] then []
    else
      var last := lines[|lines| - 1];
      Servers(lines[..|lines| - 1]) + if IsServer(last) then [last] else []
  }

  lemma ServersAppend(lines: seq<string>, line: string)
    ensures Servers(lines + [line]) == Servers(lines) + if IsServer(line) then [line] else []
  {
    assert (lines + [line])[..|lines|] == lines;
  }

  predicate SomeSigLevel(lines: seq<string>) {
    exists line :: line in lines && IsSigLevel(line)
  }

  predicate SomeInclude(lines: seq<string>) {
    exists line :: line in lines && IsInclude(line)
  }

  /** The signed server is the only source, and signatures are required. */
  predicate Settled(lines: seq<string>, url: string) {
    Servers(lines) == [ServerLine(url)] && !SomeInclude(lines) && SomeSigLevel(lines) && !SomeWeak(lines)
  }

  /** The state of the rendering loop says what has been written. */
  ghost predicate RenderingSound(r: Rendering, url: string) {
    && Servers(r.written) == (if r.inserted then [ServerLine(url)] else [])
    && !SomeInclude(r.written) && !SomeWeak(r.written) && (r.sigLevel <==> SomeSigLevel(r.written))
  }

  lemma {:induction false} RenderedSound(lines: seq<string>, url: string)
    requires '\n' !in url && !SomeWeak(lines)
    ensures RenderingSound(Rendered(lines, url), url)
  {
    if lines != [] {
      var before, line := lines[..|lines| - 1], lines[|lines| - 1];
      RenderedSound(before, url);
      assert line in lines;
      ContinuedSound(Rendered(before, url), line, url);
    }
  }

  lemma ContinuedSound(r: Rendering, line: string, url: string)
    requires '\n' !in url && RenderingSound(r, url) && !IsWeakSigLevel(line)
    ensures RenderingSound(Continued(r, line, url), url)
  {
    if IsServer(line) {
      ServerLineFacts(url);
      OneMoreLine(r.written, ServerLine(url));
    } else {
      OneMoreLine(r.written, line);
      DirectivesDiffer(line);
    }
  }

  lemma DirectivesDiffer(line: string)
    ensures !(IsInclude(line) && IsSigLevel(line)) && !(IsServer(line) && IsSigLevel(line))
    ensures !(IsServer(line) && IsInclude(line))
  {
    var lower := Lower(TrimSpace(line));
    assert IsInclude(line) ==> lower[0] == "include"[0];
    assert IsSigLevel(line) ==> lower[0] == "siglevel"[0] && lower[1] == "siglevel"[1];
    assert IsServer(line) ==> lower[0] == "server"[0] && lower[1] == "server"[1];
  }

  lemma OneMoreLine(lines: seq<string>, line: string)
    ensures Servers(lines + [line]) == Servers(lines) + if IsServer(line) then [line] else []
    ensures SomeInclude(lines + [line]) <==> SomeInclude(lines) || IsInclude(line)
    ensures SomeWeak(lines + [line]) <==> SomeWeak(lines) || IsWeakSigLevel(line)
    ensures SomeSigLevel(lines + [line]) <==> SomeSigLevel(lines) || IsSigLevel(line)
  {
    ServersAppend(lines, line);
    assert forall l :: l in lines + [line] <==> l in lines || l == line;
  }

  lemma SigAdded(r: Rendering, url: string)
    requires RenderingSound(r, url) && !r.sigLevel
    ensures RenderingSound(Rendering(r.written + [SIG_LINE], r.inserted, true), url)
  {
    SigLineFacts();
    OneMoreLine(r.written, SIG_LINE);
  }

  lemma ServerAdded(r: Rendering, url: string)
    requires '\n' !in url && RenderingSound(r, url) && !r.inserted
    ensures RenderingSound(Rendering(r.written + [ServerLine(url)], true, r.sigLevel), url)
  {
    ServerLineFacts(url);
    OneMoreLine(r.written, ServerLine(url));
  }

  lemma FinishedSettled(r: Rendering, url: string)
    requires '\n' !in url && RenderingSound(r, url)
    ensures Settled(Finished(r, url), url)
  {
    var signed := r;
    if !r.sigLevel {
      SigAdded(r, url);
      signed := Rendering(r.written + [SIG_LINE], r.inserted, true);
    }
    if !r.inserted {
      ServerAdded(signed, url);
      signed := Rendering(signed.written + [ServerLine(url)], true, true);
    }
    assert Finished(r, url) == signed.written;
  }

  /** A settled section is rendered as it is. */
  lemma SettledFixed(lines: seq<string>, url: string)
    requires Settled(lines, url)
    ensures Finished(Rendered(lines, url), url) == lines
  {
    RenderedFixed(lines, url);
    assert lines + [] == lines;
  }

  function AsIs(lines: seq<string>): Rendering {
    Rendering(lines, Servers(lines) != [], SomeSigLevel(lines))
  }

  lemma FixedStep(before: seq<string>, line: string, url: string)
    requires Rendered(before, url) == AsIs(before) && !IsInclude(line)
    requires IsServer(line) ==> Servers(before) == [] && line == ServerLine(url)
    ensures Rendered(before + [line], url) == AsIs(before + [line])
  {
    assert (before + [line])[..|before|] == before;
    OneMoreLine(before, line);
    DirectivesDiffer(line);
  }

  ghost predicate AtMostServer(lines: seq<string>, url: string) {
    !SomeInclude(lines) && (Servers(lines) == [] || Servers(lines) == [ServerLine(url)])
  }

  lemma LastServer(before: seq<string>, line: string, url: string)
    requires AtMostServer(before + [line], url)
    ensures AtMostServer(before, url) && !IsInclude(line)
    ensures IsServer(line) ==> Servers(before) == [] && line == ServerLine(url)
  {
    OneMoreLine(before, line);
    if IsServer(line) {
      assert (Servers(before) + [line])[|Servers(before)|] == line;
      assert |Servers(before)| == 0;
    } else {
      assert Servers(before) + [] == Servers(before);
    }
  }

  lemma {:induction false} RenderedFixed(lines: seq<string>, url: string)
    requires AtMostServer(lines, url)
    ensures Rendered(lines, url) == AsIs(lines)
  {
    if lines != [] {
      var before, line := lines[..|lines| - 1], lines[|lines| - 1];
      assert lines == before + [line];
      LastServer(before, line, url);
      RenderedFixed(before, url);
      FixedStep(before, line, url);
    }
  }

  // ----- the layout of the output -----

  /** The lines that are not empty; an empty line writes nothing. */
  function Kept(lines: seq<string>): seq<string> {
    if lines == [] then []
    else
      var last := lines[|lines| - 1];
      Kept(lines[..|lines| - 1]) + if last == "" then [] else [last]
  }

  lemma {:induction false} KeptFacts(lines: seq<string>)
    ensures Concat(Kept(lines)) == Concat(lines)
    ensures forall line :: line in Kept(lines) <==> line in lines && line != ""
  {
    if lines != [] {
      var before, last := lines[..|lines| - 1], lines[|lines| - 1];
      KeptFacts(before);
      assert lines == before + [last];
      ConcatAppend(before, [last]);
      ConcatAppend(Kept(before), if last == "" then [] else [last]);
      assert Concat([last]) == last;
    }
  }

  lemma {:induction false} KeptAppend(a: seq<string>, b: seq<string>)
    ensures Kept(a + b) == Kept(a) + Kept(b)
  {
    if b == [] {
      assert a + b == a;
    } else {
      var init, last := b[..|b| - 1], b[|b| - 1];
      assert (a + b)[..|a + b| - 1] == a + init;
      KeptAppend(a, init);
    }
  }

  lemma {:induction false} KeptServers(lines: seq<string>)
    ensures Servers(Kept(lines)) == Servers(lines)
  {
    if lines != [] {
      var before, last := lines[..|lines| - 1], lines[|lines| - 1];
      KeptServers(before);
      if last != "" {
        ServersAppend(Kept(before), last);
      } else {
        BlankFacts("");
        assert Kept(before) + [] == Kept(before);
      }
    }
  }

  lemma KeptSettled(lines: seq<string>, url: string)
    requires Settled(lines, url)
    ensures Settled(Kept(lines), url)
  {
    KeptServers(lines);
    KeptFacts(lines);
    BlankFacts("");
    var line :| line in lines && IsSigLevel(line);
    assert line in Kept(lines);
  }

  /** `more` is `lines` with blank lines at its end. */
  ghost predicate Extends(lines: seq<string>, more: seq<string>) {
    |lines| <= |more| && more[..|lines|] == lines && forall i :: |lines| <= i < |more| ==> IsBlank(more[i])
  }

  lemma ExtendsSettled(lines: seq<string>, more: seq<string>, url: string)
    requires Settled(lines, url) && Extends(lines, more)
    ensures Settled(more, url)
  {
    BlanksKeepSettled(lines, more[|lines|..], url);
    assert more == lines + more[|lines|..];
  }

  lemma {:induction false} BlanksKeepSettled(lines: seq<string>, blanks: seq<string>, url: string)
    requires Settled(lines, url) && forall i :: 0 <= i < |blanks| ==> IsBlank(blanks[i])
    ensures Settled(lines + blanks, url)
    decreases |blanks|
  {
    if blanks == [] {
      assert lines + blanks == lines;
    } else {
      BlankKeepsSettled(lines, blanks[0], url);
      BlanksKeepSettled(lines + [blanks[0]], blanks[1..], url);
      OneByOne(lines, blanks);
    }
  }

  lemma OneByOne(lines: seq<string>, blanks: seq<string>)
    requires blanks != []
    ensures lines + blanks == lines + [blanks[0]] + blanks[1..]
  {
  }

  lemma BlankKeepsSettled(lines: seq<string>, last: string, url: string)
    requires Settled(lines, url) && IsBlank(last)
    ensures Settled(lines + [last], url)
  {
    BlankFacts(last);
    OneMoreLine(lines, last);
  }

  lemma {:induction false} ExtendsText(lines: seq<string>, more: seq<string>)
    requires Extends(lines, more)
    ensures Concat(lines) <= Concat(more)
    ensures forall i :: |Concat(lines)| <= i < |Concat(more)| ==> Concat(more)[i] == '\n'
    ensures SomeActive(more) <==> SomeActive(lines)
    decreases |more|
  {
    if |more| > |lines| {
      var before, last := more[..|more| - 1], more[|more| - 1];
      ExtendsText(lines, before);
      BlankFacts(last);
      assert more == before + [last];
      ConcatAppend(before, [last]);
      assert Concat([last]) == last;
    } else {
      assert more == lines;
    }
  }
}
