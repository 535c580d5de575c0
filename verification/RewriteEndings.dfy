/** The pacman.conf rewrite of omarchy/manifest-client/config.go on a configuration with any ending: what
    is written after a last line that lacks its newline continues that line. Here, up to the sections
    that are added. */
module RewriteEndings {
  import opened Values
  import opened ConfigLines
  import opened PacmanConfig
  import opened RewrittenConfig
  import opened RewrittenLayout
  import opened RewriteGuarantees
  import opened UnendedLines

  // ----- the input -----

  /** Only the last line may lack its newline. */
  ghost predicate LastUnended(lines: seq<string>) {
    lines != [] && (forall i :: 0 <= i < |lines| - 1 ==> IsLine(lines[i])) && '\n' !in lines[|lines| - 1]
  }

  ghost predicate IsInput(c: Config) {
    IsConfig(c) && LastUnended(AllLines(c))
  }

  lemma ParsedIsInput(input: string)
    ensures IsInput(Parsed(SplitAfter(input)))
  {
    ParsedIsConfig(SplitAfter(input));
    SplitAfterLines(input);
  }

  function Init<T>(s: seq<T>): seq<T>
    requires s != []
  {
    s[..|s| - 1]
  }

  function Final<T>(s: seq<T>): T
    requires s != []
  {
    s[|s| - 1]
  }

  /** The last line is that of the last section, or of the prefix if there is none. */
  lemma InputParts(c: Config)
    requires IsInput(c)
    ensures c.sections == [] ==> LastUnended(c.prefix)
    ensures c.sections != [] ==>
              && IsSection(Final(c.sections)) && LastUnended(Final(c.sections).lines)
              && IsConfig(Config(c.prefix, Init(c.sections)))
              && forall line :: line in AllLines(Config(c.prefix, Init(c.sections))) ==> IsLine(line)
  {
    if c.sections == [] {
      assert AllLines(c) == c.prefix;
    } else {
      var init, s := Init(c.sections), Final(c.sections);
      assert s in c.sections && forall t :: t in init ==> t in c.sections;
      assert AllLines(c) == AllLines(Config(c.prefix, init)) + s.lines;
      LinesBefore(AllLines(Config(c.prefix, init)), s.lines);
    }
  }

  lemma LinesBefore(before: seq<string>, lines: seq<string>)
    requires lines != [] && LastUnended(before + lines)
    ensures LastUnended(lines) && forall line :: line in before ==> IsLine(line)
  {
    var all := before + lines;
    assert forall i :: 0 <= i < |lines| ==> all[|before| + i] == lines[i];
    forall line | line in before ensures IsLine(line) {
      var i :| 0 <= i < |before| && before[i] == line;
      assert all[i] == line;
    }
  }

  /** The lines after the first. */
  lemma ClosedRest(lines: seq<string>)
    requires LastUnended(lines) && |lines| > 1
    ensures LastUnended(lines[1..]) && Closed(lines)[1..] == Closed(lines[1..]) && Closed(lines)[0] == lines[0]
    ensures Final(lines[1..]) == Final(lines)
  {
    assert Init(lines)[1..] == Init(lines[1..]);
    assert forall i :: 0 <= i < |lines| - 1 ==> lines[1..][i] == lines[i + 1];
  }

  // ----- the same input, ended -----

  function Closed(lines: seq<string>): seq<string>
    requires lines != []
  {
    Init(lines) + [Ended(Final(lines))]
  }

  function ClosedSection(s: Section): Section
    requires s.lines != []
  {
    Section(s.name, Closed(s.lines))
  }

  ghost function ClosedConfig(c: Config): Config
    requires IsInput(c)
  {
    InputParts(c);
    if c.sections == [] then Config(Closed(c.prefix), [])
    else Config(c.prefix, Init(c.sections) + [ClosedSection(Final(c.sections))])
  }

  lemma ClosedLines(lines: seq<string>)
    requires LastUnended(lines)
    ensures AllLineOrEmpty(Closed(lines))
    ensures SomeActive(Closed(lines)) == SomeActive(lines) && SomeWeak(Closed(lines)) == SomeWeak(lines)
    ensures forall i :: 0 <= i < |lines| ==> SectionName(Closed(lines)[i]) == SectionName(lines[i])
  {
    var last := Final(lines);
    EndedKind(last);
    assert last != "" ==> (last + "\n")[..|last|] == last;
    assert lines == Init(lines) + [last];
    assert forall line :: line in lines <==> line in Init(lines) || line == last;
    assert forall line :: line in Closed(lines) <==> line in Init(lines) || line == Ended(last);
    forall line | line in Init(lines) ensures IsLine(line) {
      var i :| 0 <= i < |lines| - 1 && lines[i] == line;
    }
  }

  lemma ClosedSectionKind(s: Section)
    requires IsSection(s) && LastUnended(s.lines)
    ensures IsSection(ClosedSection(s)) && AllLineOrEmpty(ClosedSection(s).lines)
    ensures SomeActive(ClosedSection(s).lines[1..]) == SomeActive(s.lines[1..])
    ensures SomeWeak(ClosedSection(s).lines[1..]) == SomeWeak(s.lines[1..])
  {
    ClosedLines(s.lines);
    if |s.lines| > 1 {
      ClosedRest(s.lines);
      ClosedLines(s.lines[1..]);
    } else {
      assert Closed(s.lines)[1..] == [] && s.lines[1..] == [];
    }
  }

  ghost predicate SameShape(c: Config, f: Config) {
    |f.sections| == |c.sections| && forall i :: 0 <= i < |c.sections| ==> f.sections[i].name == c.sections[i].name
  }

  lemma ClosedIsConfig(c: Config)
    requires IsInput(c)
    ensures var f := ClosedConfig(c); IsConfig(f) && AllLineOrEmpty(AllLines(f)) && SameShape(c, f)
  {
    InputParts(c);
    var f := ClosedConfig(c);
    if c.sections == [] {
      ClosedLines(c.prefix);
      assert AllLines(f) == f.prefix;
    } else {
      assert c.sections == Init(c.sections) + [Final(c.sections)];
      ClosedWith(Config(c.prefix, Init(c.sections)), Final(c.sections));
    }
  }

  lemma ClosedAllowed(s: Section, owned: map<string, Repository>)
    requires IsSection(s) && LastUnended(s.lines) && SectionAllowed(s, owned)
    ensures ClosedSection(s).lines != [] && SectionAllowed(ClosedSection(s), owned)
  {
    ClosedSectionKind(s);
  }

  lemma ClosedSectionsAllowed(c: Config, owned: map<string, Repository>)
    requires IsInput(c) && forall s :: s in c.sections ==> s.lines != [] && SectionAllowed(s, owned)
    ensures forall s :: s in ClosedConfig(c).sections ==> s.lines != [] && SectionAllowed(s, owned)
  {
    InputParts(c);
    if c.sections != [] {
      var s := Final(c.sections);
      assert s in c.sections;
      ClosedAllowed(s, owned);
      forall t | t in ClosedConfig(c).sections ensures t in c.sections || t == ClosedSection(s) {
        assert t in Init(c.sections) || t == ClosedSection(s);
      }
    }
  }

  lemma ClosedPrefixInactive(c: Config)
    requires IsInput(c) && !SomeActive(SplitAfter(Concat(c.prefix)))
    ensures !SomeActive(SplitAfter(Concat(ClosedConfig(c).prefix)))
  {
    InputParts(c);
    if c.sections == [] {
      ClosedText(c.prefix);
    }
  }

  lemma ClosedConfigFacts(c: Config, repositories: seq<Repository>)
    requires IsInput(c) && Rewritable(c, repositories)
    ensures var f, owned := ClosedConfig(c), OwnedBy(repositories);
            && IsConfig(f) && AllLineOrEmpty(AllLines(f)) && SameShape(c, f)
            && (forall s :: s in f.sections ==> s.lines != [] && SectionAllowed(s, owned))
            && !SomeActive(SplitAfter(Concat(f.prefix)))
  {
    ClosedIsConfig(c);
    ClosedSectionsAllowed(c, OwnedBy(repositories));
    ClosedPrefixInactive(c);
  }

  lemma ClosedWith(before: Config, s: Section)
    requires IsConfig(before) && (forall line :: line in AllLines(before) ==> IsLine(line))
    requires IsSection(s) && LastUnended(s.lines)
    ensures var f := Config(before.prefix, before.sections + [ClosedSection(s)]);
            IsConfig(f) && AllLineOrEmpty(AllLines(f))
  {
    ClosedSectionKind(s);
    LinesWith(before, ClosedSection(s));
    var f := Config(before.prefix, before.sections + [ClosedSection(s)]);
    forall t | t in f.sections ensures IsSection(t) {
      assert t in before.sections || t == ClosedSection(s);
    }
    forall line | line in AllLines(f) ensures LineOrEmpty(line) {
      assert line in AllLines(before) || line in ClosedSection(s).lines;
    }
  }

  /** The text of such lines is read back as these lines. */
  lemma ClosedText(lines: seq<string>)
    requires LastUnended(lines)
    ensures SplitAfter(Concat(lines)) == lines
    ensures SomeActive(SplitAfter(Concat(Closed(lines)))) == SomeActive(lines)
  {
    var last := Final(lines);
    assert lines == Init(lines) + [last];
    ConcatAppend(Init(lines), [last]);
    assert Concat([last]) == last;
    SplitAfterTail(Init(lines), last);
    ClosedLines(lines);
    if last == "" {
      assert Closed(lines) == lines;
    } else {
      forall i | 0 <= i < |lines| ensures IsLine(Closed(lines)[i]) {
        assert Closed(lines)[i] in Closed(lines);
      }
      SplitAfterConcat(Closed(lines));
      BlankFacts("");
    }
  }

  // ----- what is written after the last line -----

  /** The last line of an owned section is kept, lacks its newline, and something is written after it. */
  predicate Glues(s: Section, owned: map<string, Repository>)
    requires s.lines != []
  {
    var last, tail := Final(s.lines), s.lines[1..];
    && s.name in owned && |s.lines| > 1 && last != "" && !IsServer(last) && !IsInclude(last)
    && (!SomeSigLevel(tail) || Servers(tail) == [])
  }

  /** The guard: the input does not end like that, or what is written after its last line is the
      signature line, and the line takes it. */
  predicate EndsWell(c: Config, owned: map<string, Repository>)
    requires forall s :: s in c.sections ==> s.lines != []
  {
    c.sections == [] ||
    (var s := Final(c.sections);
     !Glues(s, owned) || (!SomeSigLevel(s.lines[1..]) && TakesSigLevel(Final(s.lines))))
  }

  ghost predicate FlagsOf(r: Rendering, lines: seq<string>) {
    (r.sigLevel <==> SomeSigLevel(lines)) && (r.inserted <==> Servers(lines) != [])
  }

  lemma {:induction false} RenderedFlags(lines: seq<string>, url: string)
    ensures FlagsOf(Rendered(lines, url), lines)
  {
    if lines != [] {
      RenderedFlags(Init(lines), url);
      ContinuedFlags(Rendered(Init(lines), url), Init(lines), Final(lines), url);
      assert lines == Init(lines) + [Final(lines)];
    }
  }

  lemma ContinuedFlags(r: Rendering, lines: seq<string>, line: string, url: string)
    requires FlagsOf(r, lines)
    ensures FlagsOf(Continued(r, line, url), lines + [line])
  {
    OneMoreLine(lines, line);
    DirectivesDiffer(line);
  }

  /** The rendered section with its last line ended: the same, or that line is in it and is ended. */
  ghost predicate EndsAlike(a: seq<string>, b: seq<string>, last: string) {
    b == a || (a != [] && Final(a) == last && b == Closed(a))
  }

  /** Where nothing is glued, ending the last line ends the last line of the rendered section, if it
      is there at all. */
  lemma ClosedRendered(s: Section, owned: map<string, Repository>)
    requires LastUnended(s.lines) && !Glues(s, owned)
    ensures var a, b := RenderedSection(s, owned), RenderedSection(ClosedSection(s), owned);
            && EndsAlike(a, b, Final(s.lines))
            && (b != a && s.name in owned ==> !IsServer(Final(s.lines)))
  {
    if Final(s.lines) == "" {
      assert Closed(s.lines) == s.lines;
    } else if s.name in owned {
      ClosedOwned(s, owned[s.name]);
    }
  }

  lemma ClosedOwned(s: Section, repository: Repository)
    requires LastUnended(s.lines) && Final(s.lines) != "" && !Glues(s, map[s.name := repository])
    ensures var a, b := RenderedOwned(s, repository), RenderedOwned(ClosedSection(s), repository);
            EndsAlike(a, b, Final(s.lines)) && (b != a ==> !IsServer(Final(s.lines)))
  {
    if |s.lines| == 1 {
      NoNewlineLast(Final(s.lines));
      assert s.lines[1..] == [] && Closed(s.lines)[1..] == [];
    } else {
      var tail, url := s.lines[1..], repository.packageBaseURL;
      ClosedRest(s.lines);
      ClosedTail(tail, url);
      AlikeAfter(Header(s.lines[0]), Finished(Rendered(tail, url), url), Finished(Rendered(Closed(tail), url), url),
                 Final(tail));
    }
  }

  lemma AlikeAfter(header: string, a: seq<string>, b: seq<string>, last: string)
    requires EndsAlike(a, b, last)
    ensures EndsAlike([header] + a, [header] + b, last)
    ensures [header] + a == [header] + b ==> a == b
  {
    assert ([header] + a)[1..] == a && ([header] + b)[1..] == b;
    if b != a {
      assert Init([header] + a) == [header] + Init(a);
    }
  }

  lemma ClosedTail(lines: seq<string>, url: string)
    requires LastUnended(lines) && Final(lines) != ""
    requires IsServer(Final(lines)) || IsInclude(Final(lines)) || (SomeSigLevel(lines) && Servers(lines) != [])
    ensures var a, b := Finished(Rendered(lines, url), url), Finished(Rendered(Closed(lines), url), url);
            EndsAlike(a, b, Final(lines)) && (b != a ==> !IsServer(Final(lines)))
  {
    var before, last := Init(lines), Final(lines);
    EndedKind(last);
    assert Closed(lines)[..|lines| - 1] == before;
    RenderedFlags(lines, url);
    var r := Rendered(before, url);
    assert Rendered(lines, url) == Continued(r, last, url);
    assert Rendered(Closed(lines), url) == Continued(r, Ended(last), url);
    if !IsServer(last) && !IsInclude(last) {
      assert r.written + [last] + [] + [] == r.written + [last];
      assert r.written + [Ended(last)] + [] + [] == r.written + [Ended(last)];
      assert Closed(r.written + [last]) == r.written + [Ended(last)];
    }
  }

  // ----- the text before the added sections -----

  function Body(c: Config, owned: map<string, Repository>): string
    requires forall s :: s in c.sections ==> s.lines != []
  {
    Concat(c.prefix + RenderedAll(c.sections, owned))
  }

  lemma BodyOfLast(c: Config, owned: map<string, Repository>)
    requires c.sections != [] && forall s :: s in c.sections ==> s.lines != []
    ensures Body(c, owned) == Body(Config(c.prefix, Init(c.sections)),
                                   owned) + Concat(RenderedSection(Final(c.sections), owned))
  {
    var n := |c.sections| - 1;
    assert c.sections[..n + 1] == c.sections;
    RenderedGrows(c.prefix, c.sections, n, owned);
  }

  lemma ClosedConcat(lines: seq<string>)
    requires lines != []
    ensures Concat(Closed(lines)) == Concat(Init(lines)) + Ended(Final(lines))
    ensures Concat(lines) == Concat(Init(lines)) + Final(lines)
  {
    ConcatAppend(Init(lines), [Final(lines)]);
    ConcatAppend(Init(lines), [Ended(Final(lines))]);
    assert lines == Init(lines) + [Final(lines)];
    assert Concat([Final(lines)]) == Final(lines) && Concat([Ended(Final(lines))]) == Ended(Final(lines));
  }

  // ----- the glued line -----

  function Adds(r: Rendering, url: string): seq<string> {
    (if r.sigLevel then [] else [SIG_LINE]) + (if r.inserted then [] else [ServerLine(url)])
  }

  /** The lines of the rendered section before its last line, */
  function KeptPart(s: Section, url: string): seq<string>
    requires |s.lines| > 1
  {
    [s.lines[0]] + Kept(Rendered(Init(s.lines[1..]), url).written)
  }

  /** and what the last line and the lines after it become. */
  function GluedPart(s: Section, url: string): seq<string>
    requires |s.lines| > 1
  {
    var adds := Adds(Rendered(s.lines[1..], url), url);
    if adds == [] then [] else [Final(s.lines) + adds[0]] + adds[1..]
  }

  lemma GluedRendering(s: Section, owned: map<string, Repository>)
    requires LastUnended(s.lines) && Glues(s, owned)
    ensures var url, last := owned[s.name].packageBaseURL, Final(s.lines);
            var before, r := Rendered(Init(s.lines[1..]), url), Rendered(s.lines[1..], url);
            && LastUnended(s.lines[1..]) && Final(s.lines[1..]) == last
            && r == Rendering(before.written + [last], before.inserted, before.sigLevel || IsSigLevel(last))
            && FlagsOf(r, s.lines[1..]) && Adds(r, url) != []
  {
    ClosedRest(s.lines);
    RenderedFlags(s.lines[1..], owned[s.name].packageBaseURL);
  }

  lemma ConcatThree(a: seq<string>, b: string, c: string, d: seq<string>)
    ensures Concat(a + [b] + ([c] + d)) == Concat(a + ([b + c] + d))
  {
    ConcatAppend(a + [b], [c] + d);
    ConcatAppend(a, [b]);
    ConcatAppend(a, [b + c] + d);
    assert Concat([b]) == b;
    assert ([c] + d)[1..] == d && ([b + c] + d)[1..] == d;
  }

  lemma GluedText(s: Section, owned: map<string, Repository>)
    requires LastUnended(s.lines) && Glues(s, owned)
    ensures var url := owned[s.name].packageBaseURL;
            Concat(RenderedSection(s, owned)) == Concat(KeptPart(s, url) + GluedPart(s, url))
  {
    var url, last, header := owned[s.name].packageBaseURL, Final(s.lines), s.lines[0];
    GluedRendering(s, owned);
    assert IsLine(header) && Header(header) == header;
    var w, r := Rendered(Init(s.lines[1..]), url).written, Rendered(s.lines[1..], url);
    var adds := Adds(r, url);
    assert Finished(r, url) == w + [last] + adds && adds == [adds[0]] + adds[1..];
    assert [header] + (w + [last] + adds) == ([header] + w) + [last] + ([adds[0]] + adds[1..]);
    ConcatThree([header] + w, last, adds[0], adds[1..]);
    KeptFacts(w);
    ConcatAppend([header], w);
    ConcatAppend([header], Kept(w));
    ConcatAppend([header] + w, GluedPart(s, url));
    ConcatAppend([header] + Kept(w), GluedPart(s, url));
  }

  lemma KeptLines(s: Section, url: string)
    requires IsSection(s) && LastUnended(s.lines) && |s.lines| > 1 && '\n' !in url
    ensures IsSection(Section(s.name, KeptPart(s, url))) && forall line :: line in KeptPart(s, url) ==> IsLine(line)
  {
    var tail := Init(s.lines[1..]);
    var w := Rendered(tail, url).written;
    forall line | line in w ensures LineOrEmpty(line) && SectionName(line).None? {
      ServerLineFacts(url);
      RenderedLines(tail, url);
      if line in tail {
        var i :| 0 <= i < |tail| && tail[i] == line;
        assert s.lines[i + 1] == line;
      }
    }
    HeadedSection(s.name, s.lines[0], w);
  }

  /** Only the glued line itself might open a section, and then none that is signed. */
  ghost predicate GluedWell(glued: seq<string>) {
    && glued != [] && (forall i :: 0 <= i < |glued| ==> IsLine(glued[i]))
    && (SectionName(glued[0]).Some? ==> |glued| == 1 && !GoodName(SectionName(glued[0]).value))
    && (forall i :: 1 <= i < |glued| ==> SectionName(glued[i]).None?)
  }

  lemma GluedSigWell(last: string, url: string, inserted: bool)
    requires '\n' !in last && '\n' !in url && !IsSigLevel(last)
    ensures GluedWell([last + SIG_LINE] + if inserted then [] else [ServerLine(url)])
  {
    GluedSigLine(last);
    ServerLineFacts(url);
  }

  lemma GluedServerWell(last: string, url: string)
    requires '\n' !in last && '\n' !in url && last != ""
    ensures GluedWell([last + ServerLine(url)])
  {
    GluedServerLine(last, url);
  }

  /** What is glued, in its two cases. */
  lemma GluedCases(s: Section, owned: map<string, Repository>)
    requires LastUnended(s.lines) && Glues(s, owned)
    ensures var url, last := owned[s.name].packageBaseURL, Final(s.lines);
            var before, glued := Rendered(Init(s.lines[1..]), url), GluedPart(s, url);
            if SomeSigLevel(s.lines[1..]) then glued == [last + ServerLine(url)] && !before.inserted
            else && glued == [last + SIG_LINE] + (if before.inserted then [] else [ServerLine(url)])
                 && !before.sigLevel && !IsSigLevel(last)
  {
    GluedRendering(s, owned);
  }

  lemma GluedLines(s: Section, owned: map<string, Repository>)
    requires LastUnended(s.lines) && Glues(s, owned) && '\n' !in owned[s.name].packageBaseURL
    ensures GluedWell(GluedPart(s, owned[s.name].packageBaseURL))
  {
    var url, last := owned[s.name].packageBaseURL, Final(s.lines);
    GluedCases(s, owned);
    if SomeSigLevel(s.lines[1..]) {
      GluedServerWell(last, url);
    } else {
      GluedSigWell(last, url, Rendered(Init(s.lines[1..]), url).inserted);
    }
  }

  // ----- whether a glued section is settled -----

  lemma SigGlueSettled(kept: seq<string>, last: string, url: string, inserted: bool)
    requires '\n' !in last && '\n' !in url && !IsSigLevel(last)
    requires RenderingSound(Rendering(kept, inserted, false), url)
    ensures Settled(kept + ([last + SIG_LINE] + if inserted then [] else [ServerLine(url)]), url) <==>
              TakesSigLevel(last)
  {
    var g := last + SIG_LINE;
    SigGlueAdds(kept, last);
    if inserted {
      assert kept + ([g] + []) == kept + [g];
    } else {
      ServerAdds(kept + [g], url);
      assert kept + ([g] + [ServerLine(url)]) == kept + [g] + [ServerLine(url)];
    }
  }

  /** What the signed server line adds to the directives. */
  lemma ServerAdds(lines: seq<string>, url: string)
    requires '\n' !in url
    ensures var more := lines + [ServerLine(url)];
            && Servers(more) == Servers(lines) + [ServerLine(url)] && SomeInclude(more) == SomeInclude(lines)
            && SomeWeak(more) == SomeWeak(lines) && SomeSigLevel(more) == SomeSigLevel(lines)
  {
    ServerLineFacts(url);
    OneMoreLine(lines, ServerLine(url));
  }

  /** What the glued signature line adds to the directives. */
  lemma SigGlueAdds(kept: seq<string>, last: string)
    requires '\n' !in last && !IsSigLevel(last) && !SomeSigLevel(kept) && !SomeWeak(kept)
    ensures var more := kept + [last + SIG_LINE];
            && (SomeSigLevel(more) <==> TakesSigLevel(last)) && !SomeWeak(more)
            && (TakesSigLevel(last) ==> Servers(more) == Servers(kept) && (SomeInclude(more) <==> SomeInclude(kept)))
  {
    GluedSigLine(last);
    OneMoreLine(kept, last + SIG_LINE);
  }

  lemma ServerGlueUnsettled(kept: seq<string>, last: string, url: string)
    requires '\n' !in last && '\n' !in url && last != "" && Servers(kept) == []
    ensures !Settled(kept + [last + ServerLine(url)], url) && !Settled(kept, url)
  {
    var g := last + ServerLine(url);
    GluedServerLine(last, url);
    OneMoreLine(kept, g);
    assert [g][0] == g && Servers(kept) + [g] == [g] && Servers(kept) + [] == [];
    assert [ServerLine(url)][0] == ServerLine(url);
  }

  /** The section that is left after gluing. */
  function GluedSection(s: Section, url: string): Section
    requires |s.lines| > 1 && GluedPart(s, url) != []
  {
    Section(s.name, if SectionName(GluedPart(s, url)[0]).Some?
                    then KeptPart(s, url) else KeptPart(s, url) + GluedPart(s, url))
  }

  lemma GluedSettledIff(s: Section, owned: map<string, Repository>)
    requires IsSection(s) && LastUnended(s.lines) && Glues(s, owned) && SectionAllowed(s, owned)
    requires '\n' !in owned[s.name].packageBaseURL
    ensures var url := owned[s.name].packageBaseURL;
            && GluedPart(s, url) != []
            && (Settled(GluedSection(s, url).lines[1..], url) <==>
                  !SomeSigLevel(s.lines[1..]) && TakesSigLevel(Final(s.lines)))
  {
    var url := owned[s.name].packageBaseURL;
    GluedLines(s, owned);
    GluedCases(s, owned);
    GluedTail(s, url);
    if SomeSigLevel(s.lines[1..]) {
      GluedServerUnsettled(s, url);
    } else {
      GluedSigSettledIff(s, url);
    }
  }

  /** The lines after the header of the section that is left. */
  lemma GluedTail(s: Section, url: string)
    requires |s.lines| > 1 && GluedPart(s, url) != []
    ensures var kept, glued := Kept(Rendered(Init(s.lines[1..]), url).written), GluedPart(s, url);
            GluedSection(s, url).lines[1..] == if SectionName(glued[0]).Some? then kept else kept + glued
  {
    var kept, glued := Kept(Rendered(Init(s.lines[1..]), url).written), GluedPart(s, url);
    assert KeptPart(s, url)[1..] == kept && (KeptPart(s, url) + glued)[1..] == kept + glued;
  }

  lemma GluedServerUnsettled(s: Section, url: string)
    requires |s.lines| > 1 && !SomeWeak(s.lines[1..]) && LastUnended(s.lines) && Final(s.lines) != "" && '\n' !in url
    requires GluedPart(s, url) == [Final(s.lines) + ServerLine(url)] && !Rendered(Init(s.lines[1..]), url).inserted
    ensures !Settled(GluedSection(s, url).lines[1..], url)
  {
    KeptSettling(s, url);
    GluedTail(s, url);
    ServerGlueUnsettled(Kept(Rendered(Init(s.lines[1..]), url).written), Final(s.lines), url);
  }

  lemma GluedSigSettledIff(s: Section, url: string)
    requires |s.lines| > 1 && !SomeWeak(s.lines[1..]) && LastUnended(s.lines) && '\n' !in url
    requires var last, before := Final(s.lines), Rendered(Init(s.lines[1..]), url);
             && GluedPart(s, url) == [last + SIG_LINE] + (if before.inserted then [] else [ServerLine(url)])
             && !before.sigLevel && !IsSigLevel(last)
    ensures Settled(GluedSection(s, url).lines[1..], url) <==> TakesSigLevel(Final(s.lines))
  {
    var before := Rendered(Init(s.lines[1..]), url);
    KeptSettling(s, url);
    GluedTail(s, url);
    SigGlueSettled(Kept(before.written), Final(s.lines), url, before.inserted);
    GluedSigNone(Final(s.lines));
  }

  lemma GluedSigNone(last: string)
    requires '\n' !in last && !IsSigLevel(last)
    ensures SectionName(last + SIG_LINE).None?
  {
    GluedSigLine(last);
  }

  lemma KeptSettling(s: Section, url: string)
    requires |s.lines| > 1 && !SomeWeak(s.lines[1..]) && '\n' !in url
    ensures var before := Rendered(Init(s.lines[1..]), url);
            RenderingSound(before.(written := Kept(before.written)), url)
  {
    assert forall line :: line in Init(s.lines[1..]) ==> line in s.lines[1..];
    RenderedSound(Init(s.lines[1..]), url);
    KeptSound(Rendered(Init(s.lines[1..]), url), url);
  }

  lemma KeptDirectives(lines: seq<string>)
    ensures SomeSigLevel(Kept(lines)) == SomeSigLevel(lines)
    ensures SomeInclude(Kept(lines)) ==> SomeInclude(lines)
    ensures SomeWeak(Kept(lines)) ==> SomeWeak(lines)
  {
    KeptFacts(lines);
    BlankFacts("");
  }

  lemma KeptSound(r: Rendering, url: string)
    requires RenderingSound(r, url)
    ensures RenderingSound(r.(written := Kept(r.written)), url)
  {
    KeptServers(r.written);
    KeptDirectives(r.written);
  }

  // ----- the body, read again -----

  function PartialConfig(c: Config, owned: map<string, Repository>): Config
    requires c.sections != [] && (forall s :: s in c.sections ==> s.lines != []) && Glues(Final(c.sections), owned)
  {
    var s, base := Final(c.sections), Normal(Config(c.prefix, Init(c.sections)), owned);
    Config(base.prefix, base.sections + [Section(s.name, KeptPart(s, owned[s.name].packageBaseURL))])
  }

  function GluedConfig(c: Config, owned: map<string, Repository>): Config
    requires c.sections != [] && (forall s :: s in c.sections ==> s.lines != []) && Glues(Final(c.sections), owned)
  {
    WithLines(PartialConfig(c, owned), GluedPart(Final(c.sections), owned[Final(c.sections).name].packageBaseURL))
  }

  ghost predicate OneLineUrls(owned: map<string, Repository>) {
    forall name :: name in owned ==> '\n' !in owned[name].packageBaseURL
  }

  ghost predicate GluedInput(c: Config, owned: map<string, Repository>) {
    && IsInput(c) && c.sections != [] && (forall s :: s in c.sections ==> s.lines != [])
    && Glues(Final(c.sections), owned) && OneLineUrls(owned)
  }

  lemma NormalBody(c: Config, owned: map<string, Repository>)
    requires IsConfig(c) && AllLineOrEmpty(AllLines(c)) && OneLineUrls(owned)
    ensures (forall s :: s in c.sections ==> s.lines != []) && Whole(Normal(c, owned))
    ensures Concat(AllLines(Normal(c, owned))) == Body(c, owned)
  {
    NormalWhole(c, owned);
    NormalText(c.prefix, c.sections, owned);
    KeptFacts(c.prefix + RenderedAll(c.sections, owned));
  }

  lemma PartialWhole(c: Config, owned: map<string, Repository>)
    requires GluedInput(c, owned)
    ensures Whole(PartialConfig(c, owned))
    ensures var s := Final(c.sections);
            Concat(AllLines(PartialConfig(c, owned)))
            == Body(Config(c.prefix, Init(c.sections)), owned) + Concat(KeptPart(s, owned[s.name].packageBaseURL))
  {
    var s, before := Final(c.sections), Config(c.prefix, Init(c.sections));
    var base, kept := Normal(before, owned), KeptPart(s, owned[s.name].packageBaseURL);
    InputParts(c);
    NormalBody(before, owned);
    KeptLines(s, owned[s.name].packageBaseURL);
    WholeWith(base, Section(s.name, kept));
    ConcatAppend(AllLines(base), kept);
  }

  lemma WholeWith(c: Config, s: Section)
    requires Whole(c) && IsSection(s) && forall line :: line in s.lines ==> IsLine(line)
    ensures Whole(Config(c.prefix, c.sections + [s]))
    ensures AllLines(Config(c.prefix, c.sections + [s])) == AllLines(c) + s.lines
  {
    var d := Config(c.prefix, c.sections + [s]);
    LinesWith(c, s);
    forall t | t in d.sections ensures IsSection(t) {
      assert t in c.sections || t == s;
    }
    forall line | line in AllLines(d) ensures IsLine(line) {
      assert line in AllLines(c) || line in s.lines;
    }
  }

  lemma LinesWith(c: Config, s: Section)
    ensures AllLines(Config(c.prefix, c.sections + [s])) == AllLines(c) + s.lines
  {
    FlatGrows(c.sections, s);
    Associative(c.prefix, Flat(c.sections), s.lines);
  }

  lemma GluedIsWhole(c: Config, owned: map<string, Repository>)
    requires GluedInput(c, owned)
    ensures Whole(GluedConfig(c, owned)) && Concat(AllLines(GluedConfig(c, owned))) == Body(c, owned)
  {
    var s := Final(c.sections);
    var url := owned[s.name].packageBaseURL;
    InputParts(c);
    PartialWhole(c, owned);
    GluedLines(s, owned);
    WithLinesWhole(PartialConfig(c, owned), GluedPart(s, url));
    BodyOfLast(c, owned);
    GluedText(s, owned);
    ConcatAppend(KeptPart(s, url), GluedPart(s, url));
    TextAssociative(Body(Config(c.prefix, Init(c.sections)), owned), Concat(KeptPart(s, url)),
                    Concat(GluedPart(s, url)));
  }

  lemma {:induction false} AllToLast(prefix: seq<string>, sections: seq<Section>, s: Section, lines: seq<string>)
    requires forall i :: 0 <= i < |lines| ==> SectionName(lines[i]).None?
    ensures WithLines(Config(prefix, sections + [s]), lines)
         == Config(prefix, sections + [Section(s.name, s.lines + lines)])
  {
    if lines == [] {
      assert s.lines + [] == s.lines;
    } else {
      AllToLast(prefix, sections, s, Init(lines));
      AddsToLast(prefix, sections, s.name, s.lines + Init(lines), Final(lines));
      assert s.lines + Init(lines) + [Final(lines)] == s.lines + lines;
    }
  }

  /** The section that the glued line opens, if it reads as a header. */
  function Headed(s: Section, url: string): seq<Section>
    requires |s.lines| > 1 && GluedPart(s, url) != []
  {
    var name := SectionName(GluedPart(s, url)[0]);
    if name.Some? then [Section(name.value, GluedPart(s, url))] else []
  }

  lemma GluedShape(c: Config, owned: map<string, Repository>)
    requires GluedInput(c, owned)
    ensures var s, base := Final(c.sections), Normal(Config(c.prefix, Init(c.sections)), owned);
            var url := owned[s.name].packageBaseURL;
            && GluedPart(s, url) != []
            && GluedConfig(c, owned) == Config(base.prefix, base.sections + [GluedSection(s, url)] + Headed(s, url))
            && forall t :: t in Headed(s, url) ==> t.lines != [] && !GoodName(t.name)
  {
    var s, base := Final(c.sections), Normal(Config(c.prefix, Init(c.sections)), owned);
    var url := owned[s.name].packageBaseURL;
    InputParts(c);
    GluedLines(s, owned);
    var glued, kept := GluedPart(s, url), Section(s.name, KeptPart(s, url));
    var partial := Config(base.prefix, base.sections + [kept]);
    if SectionName(glued[0]).Some? {
      assert glued == [] + [glued[0]];
      WithLinesGrow(partial, [], glued[0]);
    } else {
      AllToLast(base.prefix, base.sections, kept, glued);
    }
  }
}
