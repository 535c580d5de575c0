/** The rewritten pacman.conf, parsed again: what the rewrite keeps, what it puts in place, and when
    rewriting once more changes nothing. */
module RewrittenLayout {
  import opened Text
  import opened ConfigLines
  import opened PacmanConfig
  import opened RewrittenConfig
  import opened Values

  predicate IsTerminated(input: string) {
    input == "" || input[|input| - 1] == '\n'
  }

  /** Names and base URLs as the manifest checks admit them. */
  predicate Signed(repositories: seq<Repository>) {
    forall r :: r in repositories ==> GoodName(r.name) && '\n' !in r.packageBaseURL
  }

  predicate LineOrEmpty(line: string) {
    line == "" || IsLine(line)
  }

  ghost predicate AllLineOrEmpty(lines: seq<string>) {
    forall line :: line in lines ==> LineOrEmpty(line)
  }

  // ----- the configuration the output parses to -----

  function NormalSection(s: Section, owned: map<string, Repository>): Section
    requires s.lines != []
  {
    Section(s.name, Kept(RenderedSection(s, owned)))
  }

  /** The existing sections as rendered, without empty lines. */
  function Normal(c: Config, owned: map<string, Repository>): Config
    requires forall s :: s in c.sections ==> s.lines != []
  {
    Config(Kept(c.prefix), seq(|c.sections|, i requires 0 <= i < |c.sections| => NormalSection(c.sections[i], owned)))
  }

  function WithLines(c: Config, lines: seq<string>): Config {
    if lines == [] then c else WithLine(WithLines(c, lines[..|lines| - 1]), lines[|lines| - 1])
  }

  function WithBlock(c: Config, repository: Repository): Config {
    WithLines(SetOff(c), MissingLines(repository))
  }

  /** A blank line after whatever is there. */
  function SetOff(c: Config): Config {
    if AllLines(c) == [] then c else WithLine(c, "\n")
  }

  function WithBlocks(c: Config, missing: seq<Repository>): Config {
    if missing == [] then c else WithBlock(WithBlocks(c, missing[..|missing| - 1]), missing[|missing| - 1])
  }

  /** A configuration of whole lines only. */
  ghost predicate Whole(c: Config) {
    IsConfig(c) && forall line :: line in AllLines(c) ==> IsLine(line)
  }

  lemma WithLineWhole(c: Config, line: string)
    requires Whole(c) && IsLine(line)
    ensures Whole(WithLine(c, line)) && Concat(AllLines(WithLine(c, line))) == Concat(AllLines(c)) + line
  {
    WithLineAdds(c, line);
    ConcatAppend(AllLines(c), [line]);
    assert Concat([line]) == line;
  }

  lemma {:induction false} WholeEnds(lines: seq<string>)
    requires forall line :: line in lines ==> IsLine(line)
    ensures lines == [] <==> Concat(lines) == ""
    ensures lines != [] ==> HasSuffix(Concat(lines), "\n")
  {
    if lines != [] {
      assert lines[0] in lines;
      WholeEnds(lines[1..]);
      if lines[1..] == [] {
        assert Concat(lines) == lines[0];
      }
    }
  }

  lemma MissingLinesFacts(repository: Repository)
    requires GoodName(repository.name) && '\n' !in repository.packageBaseURL
    ensures var lines := MissingLines(repository);
            && IsLine(lines[0]) && IsLine(lines[1]) && IsLine(lines[2])
            && SectionName(lines[0]) == Some(repository.name) && SectionName(lines[1]).None?
                  && SectionName(lines[2]).None?
  {
    HeaderFacts(repository.name);
    SigLineFacts();
    ServerLineFacts(repository.packageBaseURL);
  }

  lemma LastLine(lines: seq<string>)
    requires lines != []
    ensures Concat(lines) == Concat(lines[..|lines| - 1]) + lines[|lines| - 1]
  {
    var before, last := lines[..|lines| - 1], lines[|lines| - 1];
    ConcatAppend(before, [last]);
    assert before + [last] == lines && Concat([last]) == last;
  }

  lemma TextAssociative(a: string, b: string, c: string)
    ensures a + b + c == a + (b + c)
  {
  }

  lemma {:induction false} WithLinesWhole(c: Config, lines: seq<string>)
    requires Whole(c) && forall i :: 0 <= i < |lines| ==> IsLine(lines[i])
    ensures Whole(WithLines(c, lines)) && Concat(AllLines(WithLines(c, lines))) == Concat(AllLines(c)) + Concat(lines)
  {
    if lines != [] {
      var before, last := lines[..|lines| - 1], lines[|lines| - 1];
      WithLinesWhole(c, before);
      WithLineWhole(WithLines(c, before), last);
      LastLine(lines);
      TextAssociative(Concat(AllLines(c)), Concat(before), last);
    }
  }

  lemma SetOffWhole(c: Config)
    requires Whole(c)
    ensures Whole(SetOff(c))
    ensures Concat(AllLines(SetOff(c)))
         == (if Terminated(Concat(AllLines(c))) == "" then "" else Terminated(Concat(AllLines(c))) + "\n")
  {
    WholeEnds(AllLines(c));
    if AllLines(c) != [] {
      WithLineWhole(c, "\n");
    }
  }

  lemma MissingLinesWhole(repository: Repository)
    requires GoodName(repository.name) && '\n' !in repository.packageBaseURL
    ensures forall i :: 0 <= i < |MissingLines(repository)| ==> IsLine(MissingLines(repository)[i])
  {
    MissingLinesFacts(repository);
  }

  lemma WithBlockWhole(c: Config, repository: Repository)
    requires Whole(c) && GoodName(repository.name) && '\n' !in repository.packageBaseURL
    ensures Whole(WithBlock(c, repository))
    ensures var before := Terminated(Concat(AllLines(c)));
            Concat(AllLines(WithBlock(c, repository)))
            == (if before == "" then "" else before + "\n") + Concat(MissingLines(repository))
  {
    SetOffWhole(c);
    MissingLinesWhole(repository);
    WithLinesWhole(SetOff(c), MissingLines(repository));
  }

  lemma {:induction false} WithBlocksWhole(c: Config, missing: seq<Repository>)
    requires Whole(c) && Signed(missing)
    ensures Whole(WithBlocks(c, missing))
    ensures Concat(AllLines(WithBlocks(c, missing))) == Appended(Concat(AllLines(c)), missing)
  {
    if missing != [] {
      var before, last := missing[..|missing| - 1], missing[|missing| - 1];
      assert last in missing;
      WithBlocksWhole(c, before);
      WithBlockWhole(WithBlocks(c, before), last);
    }
  }

  lemma NormalGrows(prefix: seq<string>, before: seq<Section>, last: Section, owned: map<string, Repository>)
    requires last.lines != [] && forall s :: s in before ==> s.lines != []
    ensures AllLines(Normal(Config(prefix, before + [last]), owned))
         == AllLines(Normal(Config(prefix, before), owned)) + NormalSection(last, owned).lines
  {
    NormalSectionsGrow(prefix, before, last, owned);
    var sections := Normal(Config(prefix, before), owned).sections;
    FlatGrows(sections, NormalSection(last, owned));
    assert Kept(prefix) + (Flat(sections) + NormalSection(last, owned).lines)
        == Kept(prefix) + Flat(sections) + NormalSection(last, owned).lines;
  }

  lemma NormalSectionsGrow(prefix: seq<string>, before: seq<Section>, last: Section, owned: map<string, Repository>)
    requires last.lines != [] && forall s :: s in before ==> s.lines != []
    ensures Normal(Config(prefix, before + [last]), owned)
         == Config(Kept(prefix), Normal(Config(prefix, before), owned).sections + [NormalSection(last, owned)])
  {
  }

  lemma {:induction false} NormalText(prefix: seq<string>, sections: seq<Section>, owned: map<string, Repository>)
    requires forall s :: s in sections ==> s.lines != []
    ensures AllLines(Normal(Config(prefix, sections), owned)) == Kept(prefix + RenderedAll(sections, owned))
  {
    if sections == [] {
      assert prefix + [] == prefix && Kept(prefix) + [] == Kept(prefix);
    } else {
      var before, last := sections[..|sections| - 1], sections[|sections| - 1];
      assert sections == before + [last];
      NormalText(prefix, before, owned);
      NormalGrows(prefix, before, last, owned);
      KeptAllGrows(prefix, RenderedAll(before, owned), RenderedSection(last, owned));
    }
  }

  lemma KeptAllGrows(prefix: seq<string>, a: seq<string>, b: seq<string>)
    ensures Kept(prefix + (a + b)) == Kept(prefix + a) + Kept(b)
  {
    Associative(prefix, a, b);
    KeptAppend(prefix + a, b);
  }

  lemma Associative(a: seq<string>, b: seq<string>, c: seq<string>)
    ensures a + (b + c) == (a + b) + c
  {
  }

  // ----- reading the output again -----

  lemma {:induction false} RenderedLines(lines: seq<string>, url: string)
    ensures forall line :: line in Rendered(lines, url).written ==> line in lines || line == ServerLine(url)
  {
    if lines != [] {
      var before, last := lines[..|lines| - 1], lines[|lines| - 1];
      RenderedLines(before, url);
      assert lines == before + [last];
    }
  }

  lemma FinishedLines(lines: seq<string>, url: string)
    requires '\n' !in url && AllLineOrEmpty(lines) && forall line :: line in lines ==> SectionName(line).None?
    ensures forall line :: line in Finished(Rendered(lines, url), url) ==> LineOrEmpty(line) && SectionName(line).None?
  {
    RenderedLines(lines, url);
    ServerLineFacts(url);
    SigLineFacts();
  }

  lemma HeadedSection(name: string, header: string, rest: seq<string>)
    requires IsLine(header) && SectionName(header) == Some(name)
    requires forall line :: line in rest ==> LineOrEmpty(line) && SectionName(line).None?
    ensures var s := Section(name, Kept([header] + rest));
            IsSection(s) && s.lines == [header] + Kept(rest) && forall line :: line in s.lines ==> IsLine(line)
  {
    KeptAppend([header], rest);
    KeptFacts(rest);
    assert Kept([header]) == [header] by {
      assert [header][..0] == [];
    }
    forall i | 1 <= i < |[header] + Kept(rest)| ensures SectionName(([header] + Kept(rest))[i]).None? {
      assert ([header] + Kept(rest))[i] in Kept(rest);
    }
  }

  lemma NormalSectionWhole(s: Section, owned: map<string, Repository>)
    requires IsSection(s) && AllLineOrEmpty(s.lines)
    requires s.name in owned ==> '\n' !in owned[s.name].packageBaseURL
    ensures var n := NormalSection(s, owned);
            && IsSection(n) && n.lines[0] == s.lines[0] && (forall line :: line in n.lines ==> IsLine(line))
            && n.lines[1..] == Kept(if s.name in owned then
                                      Finished(Rendered(s.lines[1..], owned[s.name].packageBaseURL),
                                               owned[s.name].packageBaseURL)
                                    else s.lines[1..])
  {
    var header, rest := s.lines[0], s.lines[1..];
    SectionLines(s);
    if s.name in owned {
      var url := owned[s.name].packageBaseURL;
      FinishedLines(rest, url);
      HeadedSection(s.name, header, Finished(Rendered(rest, url), url));
    } else {
      HeadedSection(s.name, header, rest);
      assert [header] + rest == s.lines;
    }
  }

  lemma SectionLines(s: Section)
    requires IsSection(s) && AllLineOrEmpty(s.lines)
    ensures IsLine(s.lines[0]) && Header(s.lines[0]) == s.lines[0]
    ensures AllLineOrEmpty(s.lines[1..]) && forall line :: line in s.lines[1..] ==> SectionName(line).None?
  {
    BlankFacts("");
    assert s.lines[0] in s.lines;
    forall line | line in s.lines[1..] ensures LineOrEmpty(line) && SectionName(line).None? {
      var i :| 0 <= i < |s.lines[1..]| && s.lines[1..][i] == line;
      assert s.lines[i + 1] == line && line in s.lines;
    }
  }

  lemma {:induction false} FlatLines(sections: seq<Section>)
    ensures forall line :: line in Flat(sections) <==> exists s :: s in sections && line in s.lines
  {
    if sections != [] {
      var before, last := sections[..|sections| - 1], sections[|sections| - 1];
      FlatLines(before);
      assert sections == before + [last];
    }
  }

  lemma NormalSectionsWhole(c: Config, owned: map<string, Repository>, i: nat)
    requires IsConfig(c) && AllLineOrEmpty(AllLines(c)) && i < |c.sections|
    requires forall name :: name in owned ==> '\n' !in owned[name].packageBaseURL
    ensures var n := Normal(c, owned).sections[i];
            IsSection(n) && forall line :: line in n.lines ==> IsLine(line)
  {
    var s := c.sections[i];
    assert s in c.sections;
    FlatLines(c.sections);
    forall line | line in s.lines ensures LineOrEmpty(line) {
      assert line in Flat(c.sections) && line in AllLines(c);
    }
    NormalSectionWhole(s, owned);
  }

  lemma NormalPrefixWhole(prefix: seq<string>)
    requires AllLineOrEmpty(prefix) && forall i :: 0 <= i < |prefix| ==> SectionName(prefix[i]).None?
    ensures forall line :: line in Kept(prefix) ==> IsLine(line) && SectionName(line).None?
  {
    KeptFacts(prefix);
  }

  lemma NormalWhole(c: Config, owned: map<string, Repository>)
    requires IsConfig(c) && AllLineOrEmpty(AllLines(c))
    requires forall name :: name in owned ==> '\n' !in owned[name].packageBaseURL
    ensures Whole(Normal(c, owned))
  {
    var n := Normal(c, owned);
    assert forall line :: line in c.prefix ==> line in AllLines(c);
    NormalPrefixWhole(c.prefix);
    assert forall i :: 0 <= i < |n.prefix| ==> n.prefix[i] in n.prefix;
    forall s | s in n.sections ensures IsSection(s) && forall line :: line in s.lines ==> IsLine(line) {
      var i :| 0 <= i < |n.sections| && n.sections[i] == s;
      NormalSectionsWhole(c, owned, i);
    }
    FlatLines(n.sections);
  }

  lemma OwnedUrls(repositories: seq<Repository>)
    requires Signed(repositories) && DistinctNames(repositories)
    ensures forall name :: name in OwnedBy(repositories) ==> '\n' !in OwnedBy(repositories)[name].packageBaseURL
  {
    OwnedByKeys(repositories);
    forall name | name in OwnedBy(repositories) ensures '\n' !in OwnedBy(repositories)[name].packageBaseURL {
      var r :| r in repositories && r.name == name;
      OwnedByValues(repositories, r);
    }
  }

  lemma WholeReadsBack(c: Config)
    requires Whole(c)
    ensures Parsed(SplitAfter(Concat(AllLines(c)))) == WithLine(c, "")
    ensures SplitAfter(Concat(AllLines(c))) == AllLines(WithLine(c, "")) && IsConfig(WithLine(c, ""))
  {
    SplitAfterConcat(AllLines(c));
    BlankFacts("");
    WithLineAdds(c, "");
    ParsedWritten(WithLine(c, ""));
  }

  lemma {:induction false} MissingOf(repositories: seq<Repository>, present: seq<string>)
    ensures forall r :: r in Missing(repositories, present) <==> r in repositories && r.name !in present
  {
    if repositories != [] {
      var before, last := repositories[..|repositories| - 1], repositories[|repositories| - 1];
      MissingOf(before, present);
      assert repositories == before + [last];
    }
  }
}
