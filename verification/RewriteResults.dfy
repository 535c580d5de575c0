/** The guarantees of a successful pacman.conf rewrite (omarchy/manifest-client/config.go), on the output
    read again, and what they ask of the end of the input. */
module RewriteResults {
  import opened Text
  import opened Values
  import opened ConfigLines
  import opened PacmanConfig
  import opened RewrittenConfig
  import opened RewrittenLayout
  import opened RewriteGuarantees
  import opened UnendedLines
  import opened RewriteEndings

  // ----- from the body to the output -----

  /** The same without the newline of its last line. */
  ghost predicate LacksNewline(d: Config, e: Config) {
    exists p, last :: IsConfig(p) && IsCut(p, last, d, e)
  }

  predicate IsCut(p: Config, last: string, d: Config, e: Config) {
    '\n' !in last && last != "" && d == WithLine(p, last) && e == WithLine(p, last + "\n")
  }

  lemma {:induction false} AppendedEnded(text: string, missing: seq<Repository>)
    requires missing != []
    ensures Appended(text, missing) == Appended(Terminated(text), missing)
  {
    if |missing| > 1 {
      AppendedEnded(text, Init(missing));
    } else {
      assert missing[..|missing| - 1] == [];
    }
  }

  /** The output is the body with the missing sections after it, or the body whose last line lacks its
      newline. */
  lemma BodyRead(text: string, e: Config, missing: seq<Repository>)
    requires Whole(e) && Concat(AllLines(e)) == Terminated(text) && Signed(missing)
    ensures var d := Parsed(SplitAfter(Appended(text, missing)));
            if missing == [] && Terminated(text) != text then LacksNewline(d, e) else Grown(e, d, missing)
  {
    if missing == [] && Terminated(text) != text {
      BodyCut(text, e);
    } else {
      if missing != [] {
        AppendedEnded(text, missing);
      }
      WithBlocksWhole(e, missing);
      WholeReadsBack(WithBlocks(e, missing));
      GrownBlocks(e, missing);
      GrownBlank(e, WithBlocks(e, missing), missing, "");
    }
  }

  lemma BodyCut(text: string, e: Config)
    requires Whole(e) && Concat(AllLines(e)) == text + "\n" && text != "" && !HasSuffix(text, "\n")
    ensures LacksNewline(Parsed(SplitAfter(text)), e)
  {
    var lines := AllLines(e);
    var last := LinesCut(lines, text);
    ParsedWritten(e);
    var before := Init(lines);
    ParsedIsConfig(before);
    assert (before + [last])[..|before|] == before;
    assert IsCut(Parsed(before), last, Parsed(SplitAfter(text)), e);
  }

  lemma LinesCut(lines: seq<string>, text: string) returns (last: string)
    requires (forall line :: line in lines ==> IsLine(line)) && Concat(lines) == text + "\n"
    requires text != "" && !HasSuffix(text, "\n")
    ensures lines != [] && Final(lines) == last + "\n" && SplitAfter(text) == Init(lines) + [last]
    ensures last != "" && '\n' !in last
  {
    assert lines != [];
    var before, line := Init(lines), Final(lines);
    assert line in lines;
    last := Init(line);
    LastLine(lines);
    TextCut(Concat(before), line, last, text);
    assert forall l :: l in before ==> l in lines;
    WholeEnds(before);
    assert Concat(before) + "" == Concat(before);
    SplitAfterTail(before, last);
  }

  lemma TextCut(head: string, line: string, last: string, text: string)
    requires head + line == text + "\n" && IsLine(line) && last == Init(line)
    ensures line == last + "\n" && text == head + last
  {
    assert line == last + "\n";
    assert (head + line)[..|head + line| - 1] == head + last;
    assert (text + "\n")[..|text|] == text;
  }

  /** The two, section by section. */
  lemma CutShape(p: Config, last: string, d: Config, e: Config)
    requires IsCut(p, last, d, e) && IsConfig(p)
    ensures |d.sections| == |e.sections|
    ensures forall i :: 0 <= i < |d.sections| - 1 ==> d.sections[i] == e.sections[i]
    ensures d.sections == [] ==> d.prefix != [] && e.prefix == Closed(d.prefix)
    ensures d.sections != [] ==>
              var s, t := Final(d.sections), Final(e.sections);
              && d.prefix == e.prefix && t.name == s.name && s.lines != [] && t.lines == Closed(s.lines)
              && Final(s.lines) == last && '\n' !in last && last != ""
  {
    EndedKind(last);
    NoNewlineLast(last);
  }

  // ----- what the body keeps and what it settles -----

  predicate KeptAt(s: Section, t: Section, owned: map<string, Repository>) {
    t.name == s.name && (s.name !in owned ==> t.lines == Kept(s.lines))
  }

  /** Up to empty lines, the prefix and the unowned sections are those of the ended input. */
  ghost predicate Keeps(f: Config, e: Config, owned: map<string, Repository>) {
    && e.prefix == Kept(f.prefix) && |e.sections| >= |f.sections|
    && (forall i :: 0 <= i < |f.sections| ==> KeptAt(f.sections[i], e.sections[i], owned))
    && Present(e.sections, owned) == Present(f.sections, owned)
  }

  ghost predicate AllSound(sections: seq<Section>, owned: map<string, Repository>) {
    forall i :: 0 <= i < |sections| ==> SectionSound(sections[i], owned)
  }

  ghost predicate Given(c: Config, repositories: seq<Repository>) {
    && IsInput(c) && Signed(repositories) && (forall s :: s in c.sections ==> s.lines != [])
    && Rewritable(c, repositories) && OneLineUrls(OwnedBy(repositories))
  }

  lemma NormalKeeps(f: Config, owned: map<string, Repository>)
    requires IsConfig(f)
    ensures Keeps(f, Normal(f, owned), owned)
  {
    PresentByNames(f.sections, Normal(f, owned).sections, owned);
  }

  ghost predicate NothingGlued(c: Config, owned: map<string, Repository>)
    requires forall s :: s in c.sections ==> s.lines != []
  {
    c.sections == [] || !Glues(Final(c.sections), owned)
  }

  /** Where nothing is glued, ending the input ends its body. */
  lemma ClosedBody(c: Config, repositories: seq<Repository>)
    requires Given(c, repositories) && NothingGlued(c, OwnedBy(repositories))
    ensures var f, owned := ClosedConfig(c), OwnedBy(repositories);
            && IsConfig(f) && Body(f, owned) == Terminated(Body(c, owned))
            && (Body(f, owned) != Body(c, owned) && c.sections != [] ==>
                  EndedLast(c, owned, Final(Normal(f, owned).sections)))
  {
    var f, owned := ClosedConfig(c), OwnedBy(repositories);
    ClosedConfigFacts(c, repositories);
    InputParts(c);
    NormalBody(f, owned);
    WholeEnds(AllLines(Normal(f, owned)));
    if c.sections == [] {
      ClosedPrefix(c.prefix);
      assert c.prefix + [] == c.prefix && f.prefix + [] == f.prefix;
    } else {
      assert f.sections != [] && AllLines(Normal(f, owned)) != [] by {
        LastSectionHasLines(Normal(f, owned));
      }
      ClosedBodyOfLast(c, owned);
    }
  }

  lemma ClosedPrefix(prefix: seq<string>)
    requires LastUnended(prefix)
    ensures Concat(Closed(prefix)) == Terminated(Concat(prefix))
  {
    ClosedConcat(prefix);
    assert forall line :: line in Init(prefix) ==> IsLine(line);
    WholeEnds(Init(prefix));
    EndedText(Concat(Init(prefix)), Final(prefix));
  }

  lemma ClosedBodyOfLast(c: Config, owned: map<string, Repository>)
    requires IsInput(c) && c.sections != [] && (forall s :: s in c.sections ==> s.lines != [])
    requires !Glues(Final(c.sections), owned) && (forall s :: s in ClosedConfig(c).sections ==> s.lines != [])
    requires HasSuffix(Body(ClosedConfig(c), owned), "\n")
    ensures var f := ClosedConfig(c);
            && Body(f, owned) == Terminated(Body(c, owned))
            && (Body(f, owned) != Body(c, owned) ==> EndedLast(c, owned, Final(Normal(f, owned).sections)))
  {
    var f, s := ClosedConfig(c), Final(c.sections);
    InputParts(c);
    assert Init(f.sections) == Init(c.sections) && Final(f.sections) == ClosedSection(s);
    BodyOfLast(c, owned);
    BodyOfLast(f, owned);
    ClosedRendered(s, owned);
    var a, b := RenderedSection(s, owned), RenderedSection(ClosedSection(s), owned);
    if b != a {
      AlikeText(Body(Config(c.prefix, Init(c.sections)), owned), a, b, Final(s.lines));
      assert Final(Normal(f, owned).sections) == NormalSection(ClosedSection(s), owned);
    }
  }

  lemma AlikeText(head: string, a: seq<string>, b: seq<string>, last: string)
    requires EndsAlike(a, b, last) && b != a && '\n' !in last
    ensures last != "" && head + Concat(b) == Terminated(head + Concat(a))
    ensures Kept(b) != [] && Final(Kept(b)) == Ended(last)
  {
    ClosedSame(a);
    ClosedConcat(a);
    TextAssociative(head, Concat(Init(a)), last);
    TextAssociative(head, Concat(Init(a)), Ended(last));
    EndedText(head + Concat(Init(a)), last);
    KeptFinal(b);
  }

  lemma ClosedSame(lines: seq<string>)
    requires lines != []
    ensures Final(lines) == "" ==> Closed(lines) == lines
  {
  }

  lemma KeptFinal(lines: seq<string>)
    requires lines != [] && Final(lines) != ""
    ensures Kept(lines) != [] && Final(Kept(lines)) == Final(lines)
  {
  }

  /** The last section of the body ends in the ended last line of the input. */
  ghost predicate EndedLast(c: Config, owned: map<string, Repository>, t: Section)
    requires c.sections != [] && forall s :: s in c.sections ==> s.lines != []
  {
    var s := Final(c.sections);
    && Final(s.lines) != "" && t.lines != [] && Final(t.lines) == Ended(Final(s.lines))
    && (s.name in owned ==> !IsServer(Final(s.lines)))
  }

  lemma EndedText(head: string, last: string)
    requires '\n' !in last && (last == "" ==> head == "" || HasSuffix(head, "\n"))
    ensures head + Ended(last) == Terminated(head + last)
    ensures last == "" ==> head + Ended(last) == head + last
  {
    if last == "" {
      assert head + last == head;
    } else {
      assert Final(head + last) == Final(last) && Final(last) in last;
      NoNewlineLast(last);
      assert (head + last)[|head + last| - 1..] == last[|last| - 1..];
      assert head + (last + "\n") == head + last + "\n";
    }
  }

  /** The body after gluing is that of the known sections, with an unowned section after them at most. */
  ghost predicate KnownAndMore(f: Config, e: Config, known: seq<Section>, more: seq<Section>,
                               owned: map<string, Repository>) {
    && e == Config(Kept(f.prefix), known + more) && |known| == |f.sections|
    && (forall i :: 0 <= i < |known| ==> KeptAt(f.sections[i], known[i], owned))
    && Present(more, owned) == []
  }

  lemma KnownKeeps(f: Config, e: Config, known: seq<Section>, more: seq<Section>, owned: map<string, Repository>)
    requires KnownAndMore(f, e, known, more, owned)
    ensures Keeps(f, e, owned)
  {
    assert forall i :: 0 <= i < |known| ==> e.sections[i] == known[i];
    PresentAppend(known, more, owned);
    PresentByNames(known, f.sections, owned);
  }

  /** What the gluing leaves of the earlier parts. */
  lemma GluedKeeps(c: Config, repositories: seq<Repository>)
    requires Given(c, repositories) && GluedInput(c, OwnedBy(repositories))
    ensures Keeps(ClosedConfig(c), GluedConfig(c, OwnedBy(repositories)), OwnedBy(repositories))
  {
    var owned, f := OwnedBy(repositories), ClosedConfig(c);
    var s, base := Final(c.sections), Normal(Config(c.prefix, Init(c.sections)), owned);
    var url := owned[s.name].packageBaseURL;
    GluedShape(c, owned);
    InputParts(c);
    var headed, known := Headed(s, url), base.sections + [GluedSection(s, url)];
    forall i | 0 <= i < |known| ensures KeptAt(f.sections[i], known[i], owned) {
      GluedAt(c, owned, i);
    }
    HeadedUnsigned(headed, repositories);
    KnownKeeps(f, GluedConfig(c, owned), known, headed, owned);
  }

  lemma GluedAt(c: Config, owned: map<string, Repository>, i: nat)
    requires GluedInput(c, owned) && i < |c.sections|
    ensures var s, base := Final(c.sections), Normal(Config(c.prefix, Init(c.sections)), owned);
            var url := owned[s.name].packageBaseURL;
            && GluedPart(s, url) != [] && |ClosedConfig(c).sections| == |c.sections|
            && KeptAt(ClosedConfig(c).sections[i], (base.sections + [GluedSection(s, url)])[i], owned)
  {
    InputParts(c);
    GluedLines(Final(c.sections), owned);
  }

  lemma HeadedUnsigned(headed: seq<Section>, repositories: seq<Repository>)
    requires Signed(repositories) && |headed| <= 1 && forall t :: t in headed ==> !GoodName(t.name)
    ensures Present(headed, OwnedBy(repositories)) == []
    ensures forall t :: t in headed ==> t.name !in OwnedBy(repositories)
  {
    OwnedByKeys(repositories);
  }

  lemma GluedSound(c: Config, repositories: seq<Repository>)
    requires Given(c, repositories) && GluedInput(c, OwnedBy(repositories))
    ensures var e, n, owned := GluedConfig(c, OwnedBy(repositories)), |c.sections|, OwnedBy(repositories);
            && |e.sections| >= n && e.sections[n - 1].lines != []
            && e.sections[n - 1].name in owned && e.sections[n - 1].name == Final(c.sections).name
            && (EndsWell(c, owned) ==> AllSound(e.sections, owned))
            && (!EndsWell(c, owned) ==>
                  !Settled(e.sections[n - 1].lines[1..], owned[e.sections[n - 1].name].packageBaseURL))
  {
    var owned, s, before := OwnedBy(repositories), Final(c.sections), Config(c.prefix, Init(c.sections));
    var url := owned[s.name].packageBaseURL;
    assert s in c.sections && SectionAllowed(s, owned);
    InputParts(c);
    GluedShape(c, owned);
    GluedSettledIff(s, owned);
    var base := Normal(before, owned);
    AllNormalSound(before, owned);
    if EndsWell(c, owned) {
      WellGluedSound(s, owned);
      AllOf(base.sections, GluedSection(s, url), owned);
      assert Headed(s, url) == [];
      assert base.sections + [GluedSection(s, url)] + [] == base.sections + [GluedSection(s, url)];
    }
  }

  lemma AllOf(sections: seq<Section>, s: Section, owned: map<string, Repository>)
    requires AllSound(sections, owned) && SectionSound(s, owned)
    ensures AllSound(sections + [s], owned)
  {
  }

  lemma WellGluedSound(s: Section, owned: map<string, Repository>)
    requires IsSection(s) && LastUnended(s.lines) && Glues(s, owned) && SectionAllowed(s, owned)
    requires '\n' !in owned[s.name].packageBaseURL && !SomeSigLevel(s.lines[1..]) && TakesSigLevel(Final(s.lines))
    ensures var url := owned[s.name].packageBaseURL;
            && GluedPart(s, url) != [] && Headed(s, url) == [] && SectionSound(GluedSection(s, url), owned)
  {
    var url := owned[s.name].packageBaseURL;
    GluedSettledIff(s, owned);
    GluedCases(s, owned);
    GluedSigLine(Final(s.lines));
    assert IsLine(s.lines[0]);
  }

  // ----- the output -----

  ghost predicate SectionKept(s: Section, t: Section, owned: map<string, Repository>) {
    t.name == s.name && (s.name !in owned ==> SameText(Concat(s.lines), Concat(t.lines)))
  }

  /** What a rewrite keeps: the prefix and the unowned sections, and which sections there are. */
  ghost predicate Rewrote(c: Config, d: Config, repositories: seq<Repository>) {
    var owned := OwnedBy(repositories);
    var present := Present(c.sections, owned);
    && (forall s :: s in d.sections ==> s.lines != [])
    && Present(d.sections, owned) == present + Names(Missing(repositories, present))
    && SameText(Concat(c.prefix), Concat(d.prefix)) && !SomeActive(SplitAfter(Concat(d.prefix)))
    && |d.sections| >= |c.sections|
    && forall i :: 0 <= i < |c.sections| ==> SectionKept(c.sections[i], d.sections[i], owned)
  }

  lemma SameTextTrans(a: string, b: string, c: string)
    requires SameText(a, b) && SameText(b, c)
    ensures SameText(a, c)
  {
  }

  lemma ClosedSameText(lines: seq<string>)
    requires lines != []
    ensures SameText(Concat(lines), Concat(Closed(lines)))
  {
    ClosedConcat(lines);
  }

  /** The ended input holds the same. */
  lemma ClosedKept(c: Config, repositories: seq<Repository>, i: nat)
    requires Given(c, repositories) && i < |c.sections|
    ensures var f := ClosedConfig(c);
            && |f.sections| == |c.sections| && SectionKept(c.sections[i], f.sections[i], OwnedBy(repositories))
            && SameText(Concat(c.prefix), Concat(f.prefix))
  {
    if i == |c.sections| - 1 {
      ClosedSameText(c.sections[i].lines);
    }
  }

  lemma GrownKept(s: Section, f: Section, e: Section, d: Section, owned: map<string, Repository>)
    requires SectionKept(s, f, owned) && KeptAt(f, e, owned) && SectionExtends(e, d)
    ensures SectionKept(s, d, owned)
  {
    if s.name !in owned {
      KeptFacts(f.lines);
      ExtendsText(e.lines, d.lines);
      SameTextTrans(Concat(s.lines), Concat(f.lines), Concat(d.lines));
    }
  }

  lemma PrefixKept(c: Config, repositories: seq<Repository>, more: seq<string>)
    requires Given(c, repositories) && Extends(Kept(ClosedConfig(c).prefix), more)
    ensures SameText(Concat(c.prefix), Concat(more)) && !SomeActive(SplitAfter(Concat(more)))
  {
    var f := ClosedConfig(c);
    ClosedConfigFacts(c, repositories);
    assert forall line :: line in f.prefix ==> line in AllLines(f);
    if c.sections == [] {
      ClosedSameText(c.prefix);
    }
    KeptFacts(f.prefix);
    ExtendsText(Kept(f.prefix), more);
    SameTextTrans(Concat(c.prefix), Concat(f.prefix), Concat(more));
    PrefixStaysInactive(f.prefix, more);
  }

  lemma GrownRewrote(c: Config, e: Config, d: Config, repositories: seq<Repository>)
    requires Given(c, repositories) && Keeps(ClosedConfig(c), e, OwnedBy(repositories)) && IsConfig(d)
    requires Grown(e, d, Missing(repositories, Present(c.sections, OwnedBy(repositories))))
    ensures Rewrote(c, d, repositories)
  {
    var f, owned := ClosedConfig(c), OwnedBy(repositories);
    var missing := Missing(repositories, Present(c.sections, owned));
    ClosedConfigFacts(c, repositories);
    PresentByNames(c.sections, f.sections, owned);
    MissingOwned(repositories, Present(c.sections, owned));
    PresentGrown(e, d, missing, owned);
    PrefixKept(c, repositories, d.prefix);
    forall i | 0 <= i < |c.sections| ensures SectionKept(c.sections[i], d.sections[i], owned) {
      ClosedKept(c, repositories, i);
      GrownKept(c.sections[i], f.sections[i], e.sections[i], d.sections[i], owned);
    }
  }

  /** Without the added newline, the last section is as it was. */
  lemma CutKept(s: Section, d: Section, owned: map<string, Repository>)
    requires s.lines != [] && Final(s.lines) != "" && '\n' !in Final(s.lines)
    requires d.lines != [] && '\n' !in Final(d.lines) && d.name == s.name && Final(d.lines) != ""
    requires s.name !in owned ==> Closed(d.lines) == Kept(Closed(s.lines))
    ensures SectionKept(s, d, owned)
  {
    if s.name !in owned {
      KeptFacts(Closed(s.lines));
      ClosedConcat(s.lines);
      ClosedConcat(d.lines);
      var a, b := Concat(s.lines), Concat(d.lines);
      NoNewlineLast(Final(s.lines));
      NoNewlineLast(Final(d.lines));
      TextAssociative(Concat(Init(s.lines)), Final(s.lines), "\n");
      TextAssociative(Concat(Init(d.lines)), Final(d.lines), "\n");
      assert a + "\n" == b + "\n";
      assert (a + "\n")[..|a|] == a && (b + "\n")[..|b|] == b;
    }
  }

  /** The ended body `e` keeps what the input holds, and `d` is `e` without its last newline. */
  ghost predicate CutGiven(c: Config, e: Config, d: Config, owned: map<string, Repository>) {
    && IsInput(c) && c.sections != [] && (forall s :: s in c.sections ==> s.lines != [])
    && LacksNewline(d, e) && NormalOf(c, e, owned) && EndedLast(c, owned, Final(e.sections))
  }

  /** The ended body, section by section. */
  ghost predicate NormalOf(c: Config, e: Config, owned: map<string, Repository>)
    requires c.sections != [] && forall s :: s in c.sections ==> s.lines != []
  {
    && |e.sections| == |c.sections| && e.prefix == Kept(c.prefix)
    && (forall i :: 0 <= i < |c.sections| - 1 ==> e.sections[i] == NormalSection(c.sections[i], owned))
    && KeptAt(ClosedSection(Final(c.sections)), Final(e.sections), owned)
  }

  lemma NormalOfClosed(c: Config, owned: map<string, Repository>)
    requires IsInput(c) && c.sections != [] && IsConfig(ClosedConfig(c))
    requires forall s :: s in c.sections ==> s.lines != []
    ensures NormalOf(c, Normal(ClosedConfig(c), owned), owned)
  {
    InputParts(c);
    var f := ClosedConfig(c);
    assert f.sections == Init(c.sections) + [ClosedSection(Final(c.sections))];
    forall i | 0 <= i < |c.sections| - 1 ensures f.sections[i] == c.sections[i] {
      assert f.sections[i] == Init(c.sections)[i];
    }
  }

  ghost predicate ClosedFrom(s: Section, t: Section) {
    s.lines != [] && '\n' !in Final(s.lines) && Final(s.lines) != "" && t == ClosedSection(s)
  }

  ghost predicate AlikeToLast(d: Config, e: Config) {
    && d.prefix == e.prefix && |d.sections| == |e.sections| > 0
    && (forall i :: 0 <= i < |d.sections| - 1 ==> d.sections[i] == e.sections[i])
    && ClosedFrom(Final(d.sections), Final(e.sections))
  }

  lemma CutLast(d: Config, e: Config)
    requires LacksNewline(d, e) && e.sections != []
    ensures AlikeToLast(d, e)
  {
    var p, last :| IsConfig(p) && IsCut(p, last, d, e);
    CutShape(p, last, d, e);
  }

  lemma CutSections(c: Config, e: Config, d: Config, owned: map<string, Repository>, i: nat)
    requires CutGiven(c, e, d, owned) && i < |c.sections|
    ensures |d.sections| == |c.sections| && SectionKept(c.sections[i], d.sections[i], owned)
  {
    CutLast(d, e);
    if i < |c.sections| - 1 {
      NormalSectionKept(c.sections[i], owned);
    } else {
      InputParts(c);
      CutKept(Final(c.sections), Final(d.sections), owned);
    }
  }

  lemma NormalSectionKept(s: Section, owned: map<string, Repository>)
    requires s.lines != []
    ensures SectionKept(s, NormalSection(s, owned), owned)
  {
    KeptFacts(s.lines);
  }

  ghost predicate AllKept(c: Config, d: Config, owned: map<string, Repository>) {
    && |d.sections| == |c.sections|
    && forall i :: 0 <= i < |c.sections| ==> SectionKept(c.sections[i], d.sections[i], owned)
  }

  lemma CutAll(c: Config, e: Config, d: Config, owned: map<string, Repository>)
    requires CutGiven(c, e, d, owned)
    ensures AllKept(c, d, owned)
  {
    CutSections(c, e, d, owned, 0);
    forall i | 0 <= i < |c.sections| ensures SectionKept(c.sections[i], d.sections[i], owned) {
      CutSections(c, e, d, owned, i);
    }
  }

  lemma KeptPresent(c: Config, d: Config, owned: map<string, Repository>)
    requires AllKept(c, d, owned)
    ensures Present(d.sections, owned) == Present(c.sections, owned)
  {
    PresentByNames(c.sections, d.sections, owned);
  }

  lemma CutPrefix(c: Config, e: Config, d: Config, repositories: seq<Repository>)
    requires Given(c, repositories) && CutGiven(c, e, d, OwnedBy(repositories))
    ensures SameText(Concat(c.prefix), Concat(d.prefix)) && !SomeActive(SplitAfter(Concat(d.prefix)))
  {
    CutLast(d, e);
    InputParts(c);
    assert d.prefix == Kept(ClosedConfig(c).prefix);
    ExtendsItself(d.prefix);
    PrefixKept(c, repositories, d.prefix);
  }

  lemma ExtendsItself(lines: seq<string>)
    ensures Extends(lines, lines)
  {
    assert lines[..|lines|] == lines;
  }

  lemma CutRewrote(c: Config, e: Config, d: Config, repositories: seq<Repository>)
    requires Given(c, repositories) && CutGiven(c, e, d, OwnedBy(repositories)) && IsConfig(d)
    requires Missing(repositories, Present(c.sections, OwnedBy(repositories))) == []
    ensures Rewrote(c, d, repositories)
  {
    CutAll(c, e, d, OwnedBy(repositories));
    KeptPresent(c, d, OwnedBy(repositories));
    CutPrefix(c, e, d, repositories);
  }

  lemma CutSound(c: Config, e: Config, d: Config, owned: map<string, Repository>)
    requires CutGiven(c, e, d, owned) && AllSound(e.sections, owned)
    ensures AllSound(d.sections, owned)
  {
    CutLast(d, e);
    CutLastSound(c, e, d, owned);
    forall i | 0 <= i < |d.sections| ensures SectionSound(d.sections[i], owned) {
      assert i < |d.sections| - 1 ==> d.sections[i] == e.sections[i];
    }
  }

  lemma CutLastSound(c: Config, e: Config, d: Config, owned: map<string, Repository>)
    requires CutGiven(c, e, d, owned) && AllSound(e.sections, owned) && AlikeToLast(d, e)
    ensures SectionSound(Final(d.sections), owned)
  {
    InputParts(c);
    EndedKind(Final(Final(d.sections).lines));
    EndedKind(Final(Final(c.sections).lines));
    assert SectionSound(e.sections[|e.sections| - 1], owned);
    CutSectionSound(Final(d.sections), owned);
  }

  lemma CutSectionSound(d: Section, owned: map<string, Repository>)
    requires d.lines != [] && '\n' !in Final(d.lines) && SectionSound(ClosedSection(d), owned)
    requires d.name in owned ==> !IsServer(Final(d.lines))
    ensures SectionSound(d, owned)
  {
    var last := Final(d.lines);
    EndedKind(last);
    if |d.lines| == 1 {
      assert d.lines[1..] == [] && Closed(d.lines)[1..] == [];
    } else {
      var tail := Init(d.lines)[1..];
      assert d.lines[1..] == tail + [last] && Closed(d.lines)[1..] == tail + [Ended(last)];
      OneMoreLine(tail, last);
      OneMoreLine(tail, Ended(last));
      assert forall line :: line in tail + [last] <==> line in tail || line == last;
      assert forall line :: line in tail + [Ended(last)] <==> line in tail || line == Ended(last);
    }
  }

  // ----- all inputs -----

  ghost predicate LastSettled(c: Config, d: Config, owned: map<string, Repository>)
    requires c.sections != []
  {
    var n := |c.sections| - 1;
    |d.sections| > n && d.sections[n].lines != [] && d.sections[n].name in owned &&
    Settled(d.sections[n].lines[1..], owned[d.sections[n].name].packageBaseURL)
  }

  /** What follows for the output: everything but the glued line is kept, and all sections are sound
      exactly if the input ends well. */
  ghost predicate Ends(c: Config, d: Config, repositories: seq<Repository>)
    requires forall s :: s in c.sections ==> s.lines != []
  {
    var owned := OwnedBy(repositories);
    && Rewrote(c, d, repositories)
    && (EndsWell(c, owned) ==> AllSound(d.sections, owned))
    && (!EndsWell(c, owned) ==> c.sections != [] && Final(c.sections).name in owned && !LastSettled(c, d, owned))
  }

  lemma AllGrownSound(e: Config, d: Config, repositories: seq<Repository>, present: seq<string>)
    requires Signed(repositories) && DistinctNames(repositories) && Grown(e, d, Missing(repositories, present))
    requires AllSound(e.sections, OwnedBy(repositories))
    ensures AllSound(d.sections, OwnedBy(repositories))
  {
    var missing, owned := Missing(repositories, present), OwnedBy(repositories);
    forall k | 0 <= k < |missing| ensures SectionSound(NewSection(missing[k]), owned) {
      MissingSound(repositories, present, k);
    }
    forall j | 0 <= j < |d.sections| ensures SectionSound(d.sections[j], owned) {
      GrownSound(e, d, missing, owned, j);
    }
  }

  lemma ClosedEnds(c: Config, repositories: seq<Repository>)
    requires Given(c, repositories) && NothingGlued(c, OwnedBy(repositories))
    ensures Ends(c, OutputConfig(c, repositories), repositories)
  {
    var f, owned := ClosedConfig(c), OwnedBy(repositories);
    var d, present := OutputConfig(c, repositories), Present(c.sections, owned);
    ClosedConfigFacts(c, repositories);
    ClosedBody(c, repositories);
    NormalBody(f, owned);
    NormalKeeps(f, owned);
    AllNormalSound(f, owned);
    MissingOf(repositories, present);
    ParsedIsConfig(SplitAfter(Output(c, repositories)));
    BodyRead(Body(c, owned), Normal(f, owned), Missing(repositories, present));
    if Missing(repositories, present) == [] && Body(f, owned) != Body(c, owned) {
      SectionsPresent(c, repositories);
      NormalOfClosed(c, owned);
      CutRewrote(c, Normal(f, owned), d, repositories);
      CutSound(c, Normal(f, owned), d, owned);
    } else {
      GrownRewrote(c, Normal(f, owned), d, repositories);
      AllGrownSound(Normal(f, owned), d, repositories, present);
    }
  }

  lemma SectionsPresent(c: Config, repositories: seq<Repository>)
    requires repositories != [] && Missing(repositories, Present(c.sections, OwnedBy(repositories))) == []
    ensures c.sections != []
  {
    MissingOf(repositories, []);
    assert repositories[0] in Missing(repositories, []);
  }

  lemma GluedEnds(c: Config, repositories: seq<Repository>)
    requires Given(c, repositories) && GluedInput(c, OwnedBy(repositories))
    ensures Ends(c, OutputConfig(c, repositories), repositories)
  {
    var owned, e := OwnedBy(repositories), GluedConfig(c, OwnedBy(repositories));
    var d, present := OutputConfig(c, repositories), Present(c.sections, owned);
    GluedIsWhole(c, owned);
    WholeEnds(AllLines(e));
    GluedKeeps(c, repositories);
    GluedSound(c, repositories);
    MissingOf(repositories, present);
    ParsedIsConfig(SplitAfter(Output(c, repositories)));
    BodyRead(Body(c, owned), e, Missing(repositories, present));
    GrownRewrote(c, e, d, repositories);
    if EndsWell(c, owned) {
      AllGrownSound(e, d, repositories, present);
    } else {
      var n := |c.sections| - 1;
      assert SectionExtends(e.sections[n], d.sections[n]);
      UnsettledExtends(e.sections[n], d.sections[n], owned[e.sections[n].name].packageBaseURL);
    }
  }

  lemma UnsettledExtends(s: Section, t: Section, url: string)
    requires s.lines != [] && SectionExtends(s, t) && !Settled(s.lines[1..], url)
    ensures t.lines != [] && !Settled(t.lines[1..], url)
  {
    TailExtends(s.lines, t.lines);
    var lines, more := s.lines[1..], t.lines[1..];
    BlanksUnsettled(lines, more[|lines|..], url);
    assert more == lines + more[|lines|..];
  }

  lemma {:induction false} BlanksUnsettled(lines: seq<string>, blanks: seq<string>, url: string)
    requires !Settled(lines, url) && forall i :: 0 <= i < |blanks| ==> IsBlank(blanks[i])
    ensures !Settled(lines + blanks, url)
    decreases |blanks|
  {
    if blanks == [] {
      assert lines + blanks == lines;
    } else {
      BlankUnsettled(lines, blanks[0], url);
      BlanksUnsettled(lines + [blanks[0]], blanks[1..], url);
      OneByOne(lines, blanks);
    }
  }

  lemma BlankUnsettled(lines: seq<string>, last: string, url: string)
    requires !Settled(lines, url) && IsBlank(last)
    ensures !Settled(lines + [last], url)
  {
    BlankFacts(last);
    OneMoreLine(lines, last);
    assert Servers(lines) + [] == Servers(lines);
  }

  lemma Outcome(c: Config, repositories: seq<Repository>)
    requires Given(c, repositories)
    ensures Ends(c, OutputConfig(c, repositories), repositories)
  {
    if NothingGlued(c, OwnedBy(repositories)) {
      ClosedEnds(c, repositories);
    } else {
      GluedEnds(c, repositories);
    }
  }

  // ----- the guarantees -----

  lemma InputGiven(input: string, repositories: seq<Repository>)
    requires Signed(repositories)
    requires var c := Parsed(SplitAfter(input)); IsConfig(c) && Rewritable(c, repositories)
    ensures Given(Parsed(SplitAfter(input)), repositories)
  {
    ParsedIsInput(input);
    OwnedUrls(repositories);
  }

  /** The prefix and every unowned section are still there, in place and byte for byte, up to newlines
      at their ends; no input is an exception. */
  lemma UnownedKept(input: string, repositories: seq<Repository>, i: nat)
    requires Signed(repositories)
    requires var c := Parsed(SplitAfter(input)); IsConfig(c) && Rewritable(c, repositories) && i < |c.sections|
    ensures var c := Parsed(SplitAfter(input));
            var d := OutputConfig(c, repositories);
            && SameText(Concat(c.prefix), Concat(d.prefix))
            && |d.sections| >= |c.sections| && d.sections[i].name == c.sections[i].name
            && (c.sections[i].name !in OwnedBy(repositories) ==>
                  SameText(Concat(c.sections[i].lines), Concat(d.sections[i].lines)))
  {
    InputGiven(input, repositories);
    var c := Parsed(SplitAfter(input));
    Outcome(c, repositories);
    assert SectionKept(c.sections[i], OutputConfig(c, repositories).sections[i], OwnedBy(repositories));
  }

  /** Each signed repository has exactly one section in the output, whatever the input. */
  lemma OneSectionEach(input: string, repositories: seq<Repository>, r: Repository) returns (j: nat)
    requires Signed(repositories) && r in repositories
    requires var c := Parsed(SplitAfter(input)); IsConfig(c) && Rewritable(c, repositories)
    ensures var d := OutputConfig(Parsed(SplitAfter(input)), repositories).sections;
            j < |d| && forall k :: 0 <= k < |d| ==> (d[k].name == r.name <==> k == j)
  {
    InputGiven(input, repositories);
    var c, owned := Parsed(SplitAfter(input)), OwnedBy(repositories);
    Outcome(c, repositories);
    PresentStaysDistinct(repositories, Present(c.sections, owned));
    PresentOrMissing(repositories, Present(c.sections, owned), r);
    j := TheSection(OutputConfig(c, repositories).sections, owned, r.name);
  }

  predicate AllOwnedSettled(d: Config, owned: map<string, Repository>) {
    forall s :: s in d.sections && s.name in owned ==>
      s.lines != [] && Settled(s.lines[1..], owned[s.name].packageBaseURL)
  }

  lemma SoundSettled(d: Config, owned: map<string, Repository>)
    requires AllSound(d.sections, owned)
    ensures AllOwnedSettled(d, owned)
  {
    forall s | s in d.sections && s.name in owned
      ensures s.lines != [] && Settled(s.lines[1..], owned[s.name].packageBaseURL)
    {
      var j :| 0 <= j < |d.sections| && d.sections[j] == s;
      assert SectionSound(d.sections[j], owned);
    }
  }

  lemma LastUnsettled(c: Config, d: Config, repositories: seq<Repository>)
    requires (forall s :: s in c.sections ==> s.lines != []) && Ends(c, d, repositories)
    requires !EndsWell(c, OwnedBy(repositories))
    ensures !AllOwnedSettled(d, OwnedBy(repositories))
  {
    var n := |c.sections| - 1;
    assert SectionKept(c.sections[n], d.sections[n], OwnedBy(repositories)) && d.sections[n] in d.sections;
  }

  /** Every owned section of the output has the signed server as its only source, and requires
      signatures, exactly if the input ends well. */
  lemma SettledIff(input: string, repositories: seq<Repository>)
    requires Signed(repositories)
    requires var c := Parsed(SplitAfter(input)); IsConfig(c) && Rewritable(c, repositories)
    ensures var c, owned := Parsed(SplitAfter(input)), OwnedBy(repositories);
            && (forall s :: s in c.sections ==> s.lines != [])
            && (AllOwnedSettled(OutputConfig(c, repositories), owned) <==> EndsWell(c, owned))
  {
    InputGiven(input, repositories);
    var c, owned := Parsed(SplitAfter(input)), OwnedBy(repositories);
    var d := OutputConfig(c, repositories);
    Outcome(c, repositories);
    if EndsWell(c, owned) {
      SoundSettled(d, owned);
    } else {
      LastUnsettled(c, d, repositories);
    }
  }

  lemma TerminatedEndsWell(input: string, owned: map<string, Repository>)
    requires IsTerminated(input)
    ensures var c := Parsed(SplitAfter(input)); (forall s :: s in c.sections ==> s.lines != []) && EndsWell(c, owned)
  {
    ParsedIsConfig(SplitAfter(input));
    SplitAfterLines(input);
    ParsedIsInput(input);
    InputParts(Parsed(SplitAfter(input)));
  }

  /** Then no active Server or Include directive is left but the signed one of each owned section. */
  lemma OnlySignedServers(input: string, repositories: seq<Repository>, j: nat, line: string)
    requires Signed(repositories)
    requires var c := Parsed(SplitAfter(input));
             IsConfig(c) && Rewritable(c, repositories) && EndsWell(c, OwnedBy(repositories))
    requires var d := OutputConfig(Parsed(SplitAfter(input)), repositories);
             j < |d.sections| && d.sections[j].lines != [] && line in d.sections[j].lines[1..] && IsActive(line)
    ensures var s, owned := OutputConfig(Parsed(SplitAfter(input)), repositories).sections[j], OwnedBy(repositories);
            && s.name in owned && line == ServerLine(owned[s.name].packageBaseURL)
            && Servers(s.lines[1..]) == [line]
  {
    InputGiven(input, repositories);
    Outcome(Parsed(SplitAfter(input)), repositories);
    var s, owned := OutputConfig(Parsed(SplitAfter(input)), repositories).sections[j], OwnedBy(repositories);
    assert SectionSound(s, owned);
    assert s.name in owned;
    assert IsServer(line);
    ServersMember(s.lines[1..], line);
  }

  // ----- rewriting again -----

  /** Rewriting sound sections changes nothing. */
  lemma SoundAgain(c: Config, repositories: seq<Repository>)
    requires Given(c, repositories) && Rewrote(c, OutputConfig(c, repositories), repositories)
    requires AllSound(OutputConfig(c, repositories).sections, OwnedBy(repositories))
    ensures var d := OutputConfig(c, repositories);
            && (Rewritable(d, repositories) <==> Present(c.sections, OwnedBy(repositories)) <= Names(repositories))
            && Output(d, repositories) == Output(c, repositories)
  {
    var d, owned := OutputConfig(c, repositories), OwnedBy(repositories);
    var present := Present(c.sections, owned);
    forall s | s in d.sections ensures SectionAllowed(s, owned) && SectionSound(s, owned) {
      var j :| 0 <= j < |d.sections| && d.sections[j] == s;
      SoundFixed(d.sections[j], owned);
    }
    OrderAgain(c, d, repositories);
    AllFixed(d.sections, owned);
    forall r | r in repositories ensures r.name in Present(d.sections, owned) {
      PresentOrMissing(repositories, present, r);
    }
    NoneMissing(repositories, Present(d.sections, owned));
    ParsedIsConfig(SplitAfter(Output(c, repositories)));
  }

  lemma OrderAgain(c: Config, d: Config, repositories: seq<Repository>)
    requires Given(c, repositories) && Rewrote(c, d, repositories)
    ensures Distinct(Present(d.sections, OwnedBy(repositories)))
    ensures IsSubsequence(Names(repositories), Present(d.sections, OwnedBy(repositories)))
       <==> Present(c.sections, OwnedBy(repositories)) <= Names(repositories)
  {
    PresentStaysDistinct(repositories, Present(c.sections, OwnedBy(repositories)));
    OrderAgainIff(repositories, Present(c.sections, OwnedBy(repositories)));
  }

  lemma GluedTerminated(c: Config, repositories: seq<Repository>)
    requires Given(c, repositories) && GluedInput(c, OwnedBy(repositories))
    ensures IsTerminated(Output(c, repositories))
  {
    var owned := OwnedBy(repositories);
    var e, missing := GluedConfig(c, owned), Missing(repositories, Present(c.sections, owned));
    GluedIsWhole(c, owned);
    MissingOf(repositories, Present(c.sections, owned));
    WithBlocksWhole(e, missing);
    WholeEnds(AllLines(WithBlocks(e, missing)));
  }

  /** Rewriting the output succeeds and gives the same bytes exactly if the input ended well and its
      owned sections came first in the signed order. */
  lemma RewriteAgainIff(input: string, repositories: seq<Repository>)
    requires Signed(repositories)
    requires var c := Parsed(SplitAfter(input)); IsConfig(c) && Rewritable(c, repositories)
    ensures var c := Parsed(SplitAfter(input));
            var d, owned := OutputConfig(c, repositories), OwnedBy(repositories);
            && (forall s :: s in c.sections ==> s.lines != []) && (forall s :: s in d.sections ==> s.lines != [])
            && (Rewritable(d, repositories) && Output(d, repositories) == Output(c, repositories) <==>
                EndsWell(c, owned) && Present(c.sections, owned) <= Names(repositories))
            && (EndsWell(c, owned) ==>
                  (Rewritable(d, repositories) <==> Present(c.sections, owned) <= Names(repositories)))
  {
    InputGiven(input, repositories);
    var c, owned := Parsed(SplitAfter(input)), OwnedBy(repositories);
    var d := OutputConfig(c, repositories);
    Outcome(c, repositories);
    if EndsWell(c, owned) {
      SoundAgain(c, repositories);
    } else if Rewritable(d, repositories) && Output(d, repositories) == Output(c, repositories) {
      UnsoundChanges(c, repositories);
    }
  }

  /** A glued line that is not taken does not survive a second rewrite. */
  lemma UnsoundChanges(c: Config, repositories: seq<Repository>)
    requires Given(c, repositories) && Ends(c, OutputConfig(c, repositories), repositories)
    requires !EndsWell(c, OwnedBy(repositories))
    requires var d := OutputConfig(c, repositories); Rewritable(d, repositories)
    ensures Output(OutputConfig(c, repositories), repositories) != Output(c, repositories)
  {
    var owned, o := OwnedBy(repositories), Output(c, repositories);
    var d, n := OutputConfig(c, repositories), |c.sections| - 1;
    GluedTerminated(c, repositories);
    TerminatedEndsWell(o, owned);
    ParsedIsConfig(SplitAfter(o));
    InputGiven(o, repositories);
    Outcome(d, repositories);
    assert SectionKept(c.sections[n], d.sections[n], owned);
    var again := OutputConfig(d, repositories);
    assert |again.sections| > n && SectionSound(again.sections[n], owned);
  }

  // ----- two inputs that do not end well -----

  lemma PlainX()
    ensures SectionName("X").None? && !IsServer("X") && !IsInclude("X") && !IsSigLevel("X") && !IsActive("X")
    ensures !TakesSigLevel("X") && IsPlain("X")
  {
    assert TrimLeft("X", IsSpace) == "X" && TrimSpace("X") == "X";
    var lower := Lower("X");
    assert lower == "x" && |lower| == 1;
  }

  lemma HeaderA()
    ensures IsLine("[a]\n") && SectionName("[a]\n") == Some("a") && GoodName("a")
  {
    HeaderFacts("a");
    assert "[" + "a" + "]\n" == "[a]\n";
  }

  lemma OnlyA(url: string, lines: seq<string>)
    requires '\n' !in url && lines != [] && SectionName(lines[0]) == Some("a") && !SomeWeak(lines[1..])
    ensures var c, repositories := Config([], [Section("a", lines)]), [Repository("a", url)];
            && OwnedBy(repositories) == map["a" := repositories[0]] && Rewritable(c, repositories)
            && Output(c, repositories) == Concat(RenderedOwned(Section("a", lines), repositories[0]))
  {
    var s, repositories := Section("a", lines), [Repository("a", url)];
    var c, r := Config([], [s]), repositories[0];
    assert repositories[..0] == [] && c.sections[..0] == [];
    assert OwnedBy(repositories) == map["a" := r];
    assert Present(c.sections, OwnedBy(repositories)) == ["a"] && Names(repositories) == ["a"];
    SelfSubsequence(["a"]);
    BlankFacts("");
    assert SplitAfter(Concat(c.prefix)) == [""];
    assert RenderedAll(c.sections, OwnedBy(repositories)) == RenderedOwned(s, r);
    assert [] + RenderedOwned(s, r) == RenderedOwned(s, r);
    assert Missing(repositories, ["a"]) == [];
  }

  /** A section with an unended line at its end, read and written. */
  lemma ExampleParsed(before: seq<string>, last: string, url: string)
    requires before != [] && SectionName(before[0]) == Some("a") && !SomeWeak((before + [last])[1..])
    requires forall i :: 0 <= i < |before| ==> IsLine(before[i])
    requires forall i :: 1 <= i < |before| ==> SectionName(before[i]).None?
    requires SectionName(last).None? && '\n' !in last && '\n' !in url
    ensures var c := Parsed(SplitAfter(Concat(before) + last));
            && c == Config([], [Section("a", before + [last])]) && IsConfig(c)
            && Rewritable(c, [Repository("a", url)])
            && Output(c, [Repository("a", url)]) == Concat(RenderedOwned(Section("a", before + [last]),
                Repository("a", url)))
  {
    var lines := before + [last];
    var c := Config([], [Section("a", lines)]);
    SplitAfterTail(before, last);
    assert IsSection(c.sections[0]);
    FlatGrows([], Section("a", lines));
    assert [] + [Section("a", lines)] == c.sections && AllLines(c) == lines;
    ParsedWritten(c);
    OnlyA(url, lines);
  }

  lemma RenderedPlain(lines: seq<string>, last: string, url: string)
    requires !IsServer(last) && !IsInclude(last) && !IsSigLevel(last)
    ensures var r := Rendered(lines, url); Rendered(lines + [last], url) == r.(written := r.written + [last])
  {
    assert (lines + [last])[..|lines|] == lines;
  }

  predicate IsPlain(last: string) {
    && SectionName(last).None? && '\n' !in last && last != ""
    && !IsServer(last) && !IsInclude(last) && !IsSigLevel(last) && !TakesSigLevel(last)
  }

  lemma TextOfFour(a: string, b: string, c: string, d: string)
    ensures Concat([a, b, c, d]) == a + (b + c) + d
  {
    assert [a, b, c, d][1..] == [b, c, d] && [b, c, d][1..] == [c, d] && [c, d][1..] == [d] && [d][1..] == [];
    assert Concat([d]) == d && Concat([c, d]) == c + d;
  }

  /** The rewrite of the input succeeds with this output, in which some owned section is not settled. */
  ghost predicate LosesTrust(input: string, r: Repository, output: string) {
    var c := Parsed(SplitAfter(input));
    && IsConfig(c) && Signed([r]) && Rewritable(c, [r]) && Output(c, [r]) == output
    && !AllOwnedSettled(OutputConfig(c, [r]), OwnedBy([r]))
  }

  lemma Loses(input: string, r: Repository, c: Config, output: string)
    requires Signed([r]) && c == Parsed(SplitAfter(input)) && IsConfig(c) && Rewritable(c, [r])
    requires Output(c, [r]) == output
    requires !EndsWell(c, OwnedBy([r]))
    ensures LosesTrust(input, r, output)
  {
    SettledIff(input, [r]);
  }

  lemma UnendedLoses(input: string, r: Repository, lines: seq<string>, output: string)
    requires r.name == "a" && Signed([r]) && lines != []
    requires var c := Config([], [Section("a", lines)]);
             && c == Parsed(SplitAfter(input)) && IsConfig(c) && Rewritable(c, [r]) && Output(c, [r]) == output
    requires Glues(Section("a", lines), map["a" := r]) && (SomeSigLevel(lines[1..]) || !TakesSigLevel(Final(lines)))
    ensures LosesTrust(input, r, output)
  {
    assert [r][..0] == [] && OwnedBy([r]) == map["a" := r];
    Loses(input, r, Config([], [Section("a", lines)]), output);
  }

  lemma SignatureGlued(header: string, last: string, r: Repository)
    requires r.name == "a" && '\n' !in r.packageBaseURL && IsPlain(last)
    requires IsLine(header) && SectionName(header) == Some("a") && GoodName("a")
    ensures LosesTrust(header + last, r, header + (last + SIG_LINE) + ServerLine(r.packageBaseURL))
  {
    var url, lines := r.packageBaseURL, [header] + [last];
    PlainTail(last);
    assert Concat([header]) == header && lines[1..] == [last];
    ExampleParsed([header], last, url);
    SignatureGluedText(header, last, r);
    UnendedLoses(header + last, r, lines, header + (last + SIG_LINE) + ServerLine(url));
  }

  lemma PlainTail(last: string)
    requires IsPlain(last)
    ensures Servers([last]) == [] && !SomeSigLevel([last]) && !SomeWeak([last])
  {
    assert [] + [last] == [last];
    OneMoreLine([], last);
  }

  lemma SignatureGluedText(header: string, last: string, r: Repository)
    requires IsLine(header) && IsPlain(last)
    ensures Concat(RenderedOwned(Section("a", [header] + [last]), r))
         == header + (last + SIG_LINE) + ServerLine(r.packageBaseURL)
  {
    var url, lines := r.packageBaseURL, [header] + [last];
    RenderedPlain([], last, url);
    TextOfFour(header, last, SIG_LINE, ServerLine(url));
    assert lines[1..] == [] + [last];
    assert RenderedOwned(Section("a", lines), r) == [header, last, SIG_LINE, ServerLine(url)];
  }

  lemma ServerGlued(header: string, signed: string, last: string, r: Repository)
    requires r.name == "a" && '\n' !in r.packageBaseURL && IsPlain(last)
    requires IsLine(header) && SectionName(header) == Some("a") && GoodName("a")
    requires IsLine(signed) && SectionName(signed).None?
    requires IsSigLevel(signed) && !IsWeakSigLevel(signed) && !IsServer(signed) && !IsInclude(signed)
    ensures LosesTrust(header + signed + last, r, header + (signed + last) + ServerLine(r.packageBaseURL))
  {
    var url, before := r.packageBaseURL, [header, signed];
    var lines := before + [last];
    TextOfTwo(header, signed);
    SignedTail(signed, last);
    assert lines[1..] == [signed, last];
    ExampleParsed(before, last, url);
    ServerGluedText(header, signed, last, r);
    UnendedLoses(header + signed + last, r, lines, header + (signed + last) + ServerLine(url));
  }

  lemma SignedTail(signed: string, last: string)
    requires IsPlain(last) && IsSigLevel(signed) && !IsWeakSigLevel(signed) && !IsServer(signed)
    ensures Servers([signed, last]) == [] && SomeSigLevel([signed, last]) && !SomeWeak([signed, last])
  {
    assert [] + [signed] == [signed] && [signed] + [last] == [signed, last];
    OneMoreLine([], signed);
    OneMoreLine([signed], last);
  }

  lemma ServerGluedText(header: string, signed: string, last: string, r: Repository)
    requires IsLine(header) && IsPlain(last) && IsSigLevel(signed) && !IsServer(signed) && !IsInclude(signed)
    ensures Concat(RenderedOwned(Section("a", [header, signed] + [last]), r))
         == header + (signed + last) + ServerLine(r.packageBaseURL)
  {
    var url, lines := r.packageBaseURL, [header, signed] + [last];
    RenderedPlain([signed], last, url);
    RenderedSigned(signed, url);
    TextOfFour(header, signed, last, ServerLine(url));
    assert lines[1..] == [signed] + [last];
    assert RenderedOwned(Section("a", lines), r) == [header, signed, last, ServerLine(url)];
  }

  lemma RenderedSigned(signed: string, url: string)
    requires IsSigLevel(signed) && !IsServer(signed) && !IsInclude(signed)
    ensures Rendered([signed], url) == Rendering([signed], false, true)
  {
    assert [signed][..0] == [] && [] + [signed] == [signed];
  }

  lemma TextOfTwo(a: string, b: string)
    ensures Concat([a, b]) == a + b
  {
    assert [a, b][1..] == [b] && Concat([b]) == b;
  }

  /** The signature line is glued to the last line: the repository is left without one. */
  lemma SignatureLost(url: string)
    requires '\n' !in url
    ensures LosesTrust("[a]\n" + "X", Repository("a", url), "[a]\n" + ("X" + SIG_LINE) + ServerLine(url))
  {
    PlainX();
    HeaderA();
    SignatureGlued("[a]\n", "X", Repository("a", url));
  }

  /** The server line is glued to the last line: the repository is left without one. */
  lemma ServerLost(url: string)
    requires '\n' !in url
    ensures LosesTrust("[a]\n" + SIG_LINE + "X", Repository("a", url), "[a]\n" + (SIG_LINE + "X") + ServerLine(url))
  {
    PlainX();
    HeaderA();
    SigLineFacts();
    ServerGlued("[a]\n", SIG_LINE, "X", Repository("a", url));
  }
}
