/** The pacman.conf rewrite of omarchy/manifest-client/config.go. */
module PacmanConfig {
  import opened ConfigLines
  import opened Text
  import opened Values

  datatype Section = Section(name: string, lines: seq<string>)

  // ----- sections -----

  datatype Config = Config(prefix: seq<string>, sections: seq<Section>)

  /** Each header line opens a section; other lines go to the section last opened, or the prefix. */
  function Parsed(lines: seq<string>): Config {
    if lines == [] then Config([], [])
    else WithLine(Parsed(lines[..|lines| - 1]), lines[|lines| - 1])
  }

  function WithLine(c: Config, line: string): Config {
    var name := SectionName(line);
    var n := |c.sections|;
    if name.Some? then c.(sections := c.sections + [Section(name.value, [line])])
    else if n == 0 then c.(prefix := c.prefix + [line])
    else
      var last := c.sections[n - 1];
      c.(sections := c.sections[..n - 1] + [last.(lines := last.lines + [line])])
  }

  method ParseSections(input: string) returns (sections: seq<Section>, prefix: string)
    ensures var c := Parsed(SplitAfter(input)); sections == c.sections && prefix == Concat(c.prefix)
  {
    var lines := SplitAfter(input);
    ghost var prefixLines: seq<string> := [];
    prefix, sections := "", [];
    for i := 0 to |lines|
      invariant Parsed(lines[..i]) == Config(prefixLines, sections) && prefix == Concat(prefixLines)
    {
      var line := lines[i];
      assert lines[..i + 1][..i] == lines[..i];
      var match_ := SectionName(line);
      if match_.Some? {
        sections := sections + [Section(match_.value, [line])];
        continue;
      }
      if |sections| == 0 {
        ConcatAppend(prefixLines, [line]);
        assert Concat([line]) == line;
        prefix, prefixLines := prefix + line, prefixLines + [line];
      } else {
        var last := sections[|sections| - 1];
        sections := sections[..|sections| - 1] + [last.(lines := last.lines + [line])];
      }
    }
    assert lines[..|lines|] == lines;
  }

  function Flat(sections: seq<Section>): seq<string> {
    if sections == [] then [] else Flat(sections[..|sections| - 1]) + sections[|sections| - 1].lines
  }

  predicate IsSection(s: Section) {
    && s.lines != [] && SectionName(s.lines[0]) == Some(s.name)
    && forall i :: 1 <= i < |s.lines| ==> SectionName(s.lines[i]).None?
  }

  ghost predicate IsConfig(c: Config) {
    (forall i :: 0 <= i < |c.prefix| ==> SectionName(c.prefix[i]).None?) && forall s :: s in c.sections ==> IsSection(s)
  }

  function AllLines(c: Config): seq<string> {
    c.prefix + Flat(c.sections)
  }

  lemma WithLineAdds(c: Config, line: string)
    requires IsConfig(c)
    ensures IsConfig(WithLine(c, line)) && AllLines(WithLine(c, line)) == AllLines(c) + [line]
  {
    var n := |c.sections|;
    if SectionName(line).Some? {
      FlatGrows(c.sections, Section(SectionName(line).value, [line]));
      OneLineMore(c.prefix, Flat(c.sections), [], line);
    } else if n > 0 {
      var init, last := c.sections[..n - 1], c.sections[n - 1];
      assert last in c.sections;
      FlatGrows(init, last.(lines := last.lines + [line]));
      OneLineMore(c.prefix, Flat(init), last.lines, line);
    } else {
      assert c.prefix + [] == c.prefix && c.prefix + [line] + [] == c.prefix + [line];
    }
  }

  lemma FlatGrows(sections: seq<Section>, section: Section)
    ensures Flat(sections + [section]) == Flat(sections) + section.lines
  {
    assert (sections + [section])[..|sections|] == sections;
  }

  lemma OneLineMore(a: seq<string>, b: seq<string>, c: seq<string>, line: string)
    ensures a + (b + (c + [line])) == a + (b + c) + [line]
    ensures [] + [line] == [line] && b + [] == b
  {
  }

  /** Parsing loses nothing, */
  lemma {:induction false} ParsedIsConfig(lines: seq<string>)
    ensures IsConfig(Parsed(lines)) && AllLines(Parsed(lines)) == lines
  {
    if lines != [] {
      ParsedIsConfig(lines[..|lines| - 1]);
      WithLineAdds(Parsed(lines[..|lines| - 1]), lines[|lines| - 1]);
    }
  }

  lemma WithoutLastLine(c: Config) returns (before: Config)
    requires IsConfig(c) && AllLines(c) != []
    ensures IsConfig(before) && |AllLines(before)| < |AllLines(c)|
    ensures c == WithLine(before, AllLines(c)[|AllLines(c)| - 1])
  {
    if c.sections == [] {
      before := c.(prefix := c.prefix[..|c.prefix| - 1]);
    } else {
      before := WithoutLastOf(c);
    }
  }

  lemma WithoutLastOf(c: Config) returns (before: Config)
    requires IsConfig(c) && c.sections != []
    ensures IsConfig(before) && |AllLines(before)| < |AllLines(c)|
    ensures c == WithLine(before, AllLines(c)[|AllLines(c)| - 1])
  {
    var n := |c.sections|;
    var last, init := c.sections[n - 1], c.sections[..n - 1];
    assert last in c.sections;
    var k := |last.lines|;
    if k == 1 {
      assert last == Section(last.name, [last.lines[0]]);
      before := c.(sections := init);
    } else {
      var cut := last.(lines := last.lines[..k - 1]);
      before := c.(sections := init + [cut]);
      assert before.sections[..n - 1] == init && cut.lines + [last.lines[k - 1]] == last.lines;
    }
  }

  /** and finds again whatever sections were written out. */
  lemma {:induction false} ParsedWritten(c: Config)
    requires IsConfig(c)
    ensures Parsed(AllLines(c)) == c
    decreases |AllLines(c)|
  {
    var lines := AllLines(c);
    if lines != [] {
      var before := WithoutLastLine(c);
      ParsedWritten(before);
      WithLineAdds(before, lines[|lines| - 1]);
      assert lines[..|lines| - 1] == AllLines(before);
    } else {
      NoLines(c);
    }
  }

  lemma NoLines(c: Config)
    requires IsConfig(c) && AllLines(c) == []
    ensures c == Config([], [])
  {
    LastSectionHasLines(c);
  }

  lemma LastSectionHasLines(c: Config)
    requires IsConfig(c)
    ensures c.sections != [] ==> Flat(c.sections) != []
  {
    assert c.sections != [] ==> c.sections[|c.sections| - 1] in c.sections;
  }

  // ----- rendering -----

  const SIG_LINE := "SigLevel = Required TrustedOnly\n"

  function ServerLine(url: string): string {
    "Server = " + url + "\n"
  }

  datatype Rendering = Rendering(written: seq<string>, inserted: bool, sigLevel: bool)

  /** The first server line becomes the signed one; other server lines and includes go. */
  function Continued(r: Rendering, line: string, url: string): Rendering {
    if IsServer(line) then
      if r.inserted then r else r.(written := r.written + [ServerLine(url)], inserted := true)
    else
      Rendering(if IsInclude(line) then r.written else r.written + [line], r.inserted, r.sigLevel || IsSigLevel(line))
  }

  function Rendered(lines: seq<string>, url: string): Rendering {
    if lines == [] then Rendering([], false, false)
    else Continued(Rendered(lines[..|lines| - 1], url), lines[|lines| - 1], url)
  }

  /** What is lacking is added at the end. */
  function Finished(r: Rendering, url: string): seq<string> {
    r.written + (if r.sigLevel then [] else [SIG_LINE]) + (if r.inserted then [] else [ServerLine(url)])
  }

  function Header(line: string): string {
    if HasSuffix(line, "\n") then line else line + "\n"
  }

  function RenderedOwned(section: Section, repository: Repository): seq<string>
    requires section.lines != []
  {
    var url := repository.packageBaseURL;
    [Header(section.lines[0])] + Finished(Rendered(section.lines[1..], url), url)
  }

  method RenderOwnedSection(section: Section, repository: Repository) returns (output: string)
    requires section.lines != []
    ensures output == Concat(RenderedOwned(section, repository))
  {
    var url, lines := repository.packageBaseURL, section.lines;
    output := lines[0];
    if !HasSuffix(lines[0], "\n") {
      output := output + "\n";
    }
    var inserted, sigLevel := false, false;
    ghost var header, written: seq<string> := [output], [];
    for index := 1 to |lines|
      invariant output == Concat(header + written)
      invariant Rendering(written, inserted, sigLevel) == Rendered(lines[1..index], url)
    {
      var line := lines[index];
      RenderedNext(lines, index, url);
      if IsServer(line) {
        if !inserted {
          Writes(header, written, ServerLine(url));
          output, written := output + ServerLine(url), written + [ServerLine(url)];
          inserted := true;
        }
        continue;
      }
      if IsSigLevel(line) {
        sigLevel := true;
      }
      if IsInclude(line) {
        continue;
      }
      Writes(header, written, line);
      output, written := output + line, written + [line];
    }
    assert lines[1..|lines|] == lines[1..];
    if !sigLevel {
      Writes(header, written, SIG_LINE);
      output, written := output + SIG_LINE, written + [SIG_LINE];
    }
    if !inserted {
      Writes(header, written, ServerLine(url));
      output, written := output + ServerLine(url), written + [ServerLine(url)];
    }
    FinishedWritten(header, Rendered(lines[1..], url), written, url);
  }

  lemma RenderedNext(lines: seq<string>, index: nat, url: string)
    requires 1 <= index < |lines|
    ensures Rendered(lines[1..index + 1], url) == Continued(Rendered(lines[1..index], url), lines[index], url)
  {
    assert lines[1..index + 1][..index - 1] == lines[1..index];
  }

  lemma FinishedWritten(header: seq<string>, r: Rendering, written: seq<string>, url: string)
    requires written == (var signed := if r.sigLevel then r.written else r.written + [SIG_LINE];
                         if r.inserted then signed else signed + [ServerLine(url)])
    ensures header + written == header + Finished(r, url)
  {
  }

  lemma Writes(header: seq<string>, written: seq<string>, line: string)
    ensures Concat(header + (written + [line])) == Concat(header + written) + line
  {
    ConcatAppend(header + written, [line]);
    assert Concat([line]) == line && header + (written + [line]) == header + written + [line];
  }

  function MissingLines(repository: Repository): seq<string> {
    ["[" + repository.name + "]\n", SIG_LINE, ServerLine(repository.packageBaseURL)]
  }

  // ----- the rewrite -----

  function Names(repositories: seq<Repository>): seq<string> {
    seq(|repositories|, i requires 0 <= i < |repositories| => repositories[i].name)
  }

  predicate DistinctNames(repositories: seq<Repository>) {
    forall i, j :: 0 <= i < j < |repositories| ==> repositories[i].name != repositories[j].name
  }

  function OwnedBy(repositories: seq<Repository>): map<string, Repository> {
    if repositories == [] then map[]
    else
      var last := repositories[|repositories| - 1];
      OwnedBy(repositories[..|repositories| - 1])[last.name := last]
  }

  /** The names of the owned sections, in their order. */
  function Present(sections: seq<Section>, owned: map<string, Repository>): seq<string> {
    if sections == [] then []
    else
      var last := sections[|sections| - 1];
      Present(sections[..|sections| - 1], owned) + if last.name in owned then [last.name] else []
  }

  function Missing(repositories: seq<Repository>, present: seq<string>): seq<Repository> {
    if repositories == [] then []
    else
      var last := repositories[|repositories| - 1];
      Missing(repositories[..|repositories| - 1], present) + if last.name in present then [] else [last]
  }

  predicate SomeActive(lines: seq<string>) {
    exists line :: line in lines && IsActive(line)
  }

  predicate SomeWeak(lines: seq<string>) {
    exists line :: line in lines && IsWeakSigLevel(line)
  }

  predicate SectionAllowed(s: Section, owned: map<string, Repository>)
    requires s.lines != []
  {
    if s.name in owned then !SomeWeak(s.lines[1..]) else !SomeActive(s.lines[1..])
  }

  predicate Distinct(names: seq<string>) {
    forall i, j :: 0 <= i < j < |names| ==> names[i] != names[j]
  }

  /** What the configuration and the signed list must be for a rewrite. */
  predicate Rewritable(c: Config, repositories: seq<Repository>)
    requires forall s :: s in c.sections ==> s.lines != []
  {
    var owned := OwnedBy(repositories);
    && repositories != [] && DistinctNames(repositories)
    && !SomeActive(SplitAfter(Concat(c.prefix)))
    && (forall s :: s in c.sections ==> SectionAllowed(s, owned))
    && Distinct(Present(c.sections, owned))
    && IsSubsequence(Names(repositories), Present(c.sections, owned))
  }

  function RenderedSection(s: Section, owned: map<string, Repository>): seq<string>
    requires s.lines != []
  {
    if s.name in owned then RenderedOwned(s, owned[s.name]) else s.lines
  }

  function RenderedAll(sections: seq<Section>, owned: map<string, Repository>): seq<string>
    requires forall s :: s in sections ==> s.lines != []
  {
    if sections == [] then []
    else RenderedAll(sections[..|sections| - 1], owned) + RenderedSection(sections[|sections| - 1], owned)
  }

  function Terminated(output: string): string {
    if output != "" && !HasSuffix(output, "\n") then output + "\n" else output
  }

  /** A missing section is set off by an empty line. */
  function Appended(output: string, missing: seq<Repository>): string {
    if missing == [] then output
    else
      var before := Terminated(Appended(output, missing[..|missing| - 1]));
      (if before == "" then "" else before + "\n") + Concat(MissingLines(missing[|missing| - 1]))
  }

  function Output(c: Config, repositories: seq<Repository>): string
    requires forall s :: s in c.sections ==> s.lines != []
  {
    var owned := OwnedBy(repositories);
    Appended(Concat(c.prefix + RenderedAll(c.sections, owned)), Missing(repositories, Present(c.sections, owned)))
  }

  // ----- the order test -----

  /** Greedy matching from the left. */
  predicate IsSubsequence(expected: seq<string>, actual: seq<string>)
    decreases |expected|
  {
    if actual == [] then true
    else if expected == [] then false
    else IsSubsequence(expected[1..], if expected[0] == actual[0] then actual[1..] else actual)
  }

  /** `at` picks the elements of `actual` out of `expected`, in order. */
  ghost predicate Embeds(expected: seq<string>, actual: seq<string>, at: seq<int>) {
    && |at| == |actual|
    && (forall i :: 0 <= i < |at| ==> 0 <= at[i] < |expected| && expected[at[i]] == actual[i])
    && (forall i, j :: 0 <= i < j < |at| ==> at[i] < at[j])
  }

  lemma {:induction false} SubsequenceEmbeds(expected: seq<string>, actual: seq<string>) returns (at: seq<int>)
    requires IsSubsequence(expected, actual)
    ensures Embeds(expected, actual, at)
    decreases |expected|
  {
    if actual == [] {
      at := [];
    } else {
      var tail := SubsequenceEmbeds(expected[1..], if expected[0] == actual[0] then actual[1..] else actual);
      at := seq(|tail|, i requires 0 <= i < |tail| => tail[i] + 1);
      if expected[0] == actual[0] {
        EmbedsShifted(expected, actual[1..], tail, at);
        EmbedsHead(expected, actual, at);
        at := [0] + at;
      } else {
        EmbedsShifted(expected, actual, tail, at);
      }
    }
  }

  lemma EmbedsShifted(expected: seq<string>, actual: seq<string>, tail: seq<int>, at: seq<int>)
    requires expected != [] && Embeds(expected[1..], actual, tail)
    requires |at| == |tail| && forall i :: 0 <= i < |at| ==> at[i] == tail[i] + 1
    ensures Embeds(expected, actual, at) && forall i :: 0 <= i < |at| ==> at[i] > 0
  {
    forall i | 0 <= i < |at| ensures at[i] > 0 && at[i] < |expected| && expected[at[i]] == actual[i] {
      assert expected[1..][tail[i]] == actual[i];
    }
  }

  lemma EmbedsHead(expected: seq<string>, actual: seq<string>, at: seq<int>)
    requires expected != [] && actual != [] && expected[0] == actual[0]
    requires Embeds(expected, actual[1..], at) && forall i :: 0 <= i < |at| ==> at[i] > 0
    ensures Embeds(expected, actual, [0] + at)
  {
  }

  lemma {:induction false} EmbedsIsSubsequence(expected: seq<string>, actual: seq<string>, at: seq<int>)
    requires Embeds(expected, actual, at)
    ensures IsSubsequence(expected, actual)
    decreases |expected|
  {
    if actual != [] {
      assert 0 <= at[0] < |expected|;
      var from := if expected[0] == actual[0] then 1 else 0;
      var rest := seq(|at| - from, i requires 0 <= i < |at| - from => at[i + from] - 1);
      var tail := if expected[0] == actual[0] then actual[1..] else actual;
      assert tail == actual[from..];
      forall i | 0 <= i < |rest| ensures 0 <= rest[i] < |expected[1..]| && expected[1..][rest[i]] == tail[i] {
        assert expected[at[i + from]] == actual[i + from];
        assert i + from > 0 ==> at[0] < at[i + from];
      }
      EmbedsIsSubsequence(expected[1..], tail, rest);
    }
  }

  /** Greedy matching finds an order-preserving choice whenever there is one. */
  lemma OrderTested(expected: seq<string>, actual: seq<string>)
    ensures IsSubsequence(expected, actual) <==> exists at :: Embeds(expected, actual, at)
  {
    if IsSubsequence(expected, actual) {
      var at := SubsequenceEmbeds(expected, actual);
    } else if at :| Embeds(expected, actual, at) {
      EmbedsIsSubsequence(expected, actual, at);
    }
  }

  method CheckSubsequence(expected: seq<string>, actual: seq<string>) returns (ok: bool)
    ensures ok <==> exists at :: Embeds(expected, actual, at)
  {
    ok := MatchGreedily(expected, actual);
    OrderTested(expected, actual);
  }

  method MatchGreedily(expected: seq<string>, actual: seq<string>) returns (ok: bool)
    ensures ok == IsSubsequence(expected, actual)
  {
    if |actual| > |expected| {
      TooLong(expected, actual);
      return false;
    }
    var position := 0;
    for i := 0 to |expected|
      invariant 0 <= position <= |actual|
      invariant IsSubsequence(expected[i..], actual[position..]) == IsSubsequence(expected, actual)
    {
      assert expected[i..][1..] == expected[i + 1..];
      if position < |actual| && expected[i] == actual[position] {
        assert actual[position..][1..] == actual[position + 1..];
        position := position + 1;
      }
    }
    return position == |actual|;
  }

  lemma {:induction false} TooLong(expected: seq<string>, actual: seq<string>)
    requires |actual| > |expected|
    ensures !IsSubsequence(expected, actual)
    decreases |expected|
  {
    if expected != [] {
      TooLong(expected[1..], if expected[0] == actual[0] then actual[1..] else actual);
    }
  }

  // ----- the rewrite, as the loops of the source -----

  method ActiveRepoDirective(lines: seq<string>) returns (active: bool)
    requires lines != []
    ensures active == SomeActive(lines[1..])
  {
    for i := 1 to |lines|
      invariant forall j :: 1 <= j < i ==> !IsActive(lines[j])
    {
      if IsActive(lines[i]) {
        assert lines[i] in lines[1..];
        return true;
      }
    }
    return false;
  }

  method WeakSigLevel(lines: seq<string>) returns (weak: bool)
    requires lines != []
    ensures weak == SomeWeak(lines[1..])
  {
    for i := 1 to |lines|
      invariant forall j :: 1 <= j < i ==> !IsWeakSigLevel(lines[j])
    {
      if IsWeakSigLevel(lines[i]) {
        assert lines[i] in lines[1..];
        return true;
      }
    }
    return false;
  }

  lemma {:induction false} OwnedByKeys(repositories: seq<Repository>)
    ensures forall name :: name in OwnedBy(repositories) <==> exists r :: r in repositories && r.name == name
  {
    if repositories != [] {
      var before, last := repositories[..|repositories| - 1], repositories[|repositories| - 1];
      OwnedByKeys(before);
      assert repositories == before + [last];
    }
  }

  lemma {:induction false} OwnedByValues(repositories: seq<Repository>, r: Repository)
    requires DistinctNames(repositories) && r in repositories
    ensures r.name in OwnedBy(repositories) && OwnedBy(repositories)[r.name] == r
  {
    var before, last := repositories[..|repositories| - 1], repositories[|repositories| - 1];
    assert repositories == before + [last];
    if r != last {
      OwnedByValues(before, r);
      var i :| 0 <= i < |before| && before[i] == r;
      assert repositories[i].name != repositories[|before|].name;
    }
  }

  lemma NamesGrow(repositories: seq<Repository>, i: nat)
    requires i < |repositories|
    ensures Names(repositories[..i + 1]) == Names(repositories[..i]) + [repositories[i].name]
    ensures OwnedBy(repositories[..i + 1]) == OwnedBy(repositories[..i])[repositories[i].name := repositories[i]]
  {
    assert repositories[..i + 1][..i] == repositories[..i];
  }

  lemma DistinctGrows(before: seq<Repository>, r: Repository)
    requires DistinctNames(before)
    ensures DistinctNames(before + [r]) <==> r.name !in OwnedBy(before)
  {
    OwnedByKeys(before);
    var after := before + [r];
    if r.name in OwnedBy(before) {
      var other :| other in before && other.name == r.name;
      var k :| 0 <= k < |before| && before[k] == other;
      assert after[k].name == after[|before|].name;
    } else {
      forall i, j | 0 <= i < j < |after| ensures after[i].name != after[j].name {
        assert before[i] in before;
      }
    }
  }

  method IndexRepositories(repositories: seq<Repository>)
    returns (ok: bool, owned: map<string, Repository>, order: seq<string>)
    ensures ok == DistinctNames(repositories)
    ensures ok ==> owned == OwnedBy(repositories) && order == Names(repositories)
  {
    owned, order := map[], [];
    for i := 0 to |repositories|
      invariant DistinctNames(repositories[..i]) && owned == OwnedBy(repositories[..i])
      invariant order == Names(repositories[..i])
    {
      var repository := repositories[i];
      NamesGrow(repositories, i);
      DistinctGrows(repositories[..i], repository);
      assert repositories[..i + 1] == repositories[..i] + [repository];
      if repository.name in owned {
        return false, map[], [];
      }
      owned, order := owned[repository.name := repository], order + [repository.name];
    }
    assert repositories[..|repositories|] == repositories;
    return true, owned, order;
  }

  lemma {:induction false} PresentNames(sections: seq<Section>, owned: map<string, Repository>)
    ensures forall name :: name in Present(sections, owned) <==>
              name in owned && exists s :: s in sections && s.name == name
  {
    if sections != [] {
      var before, last := sections[..|sections| - 1], sections[|sections| - 1];
      PresentNames(before, owned);
      assert sections == before + [last];
      assert forall s :: s in sections <==> s in before || s == last;
    }
  }

  method CheckSections(sections: seq<Section>, owned: map<string, Repository>)
    returns (ok: bool, present: seq<string>)
    requires forall s :: s in sections ==> s.lines != []
    ensures ok <==> (forall s :: s in sections ==> SectionAllowed(s, owned)) && Distinct(Present(sections, owned))
    ensures ok ==> present == Present(sections, owned)
  {
    present := [];
    var seen: set<string> := {};
    for i := 0 to |sections|
      invariant present == Present(sections[..i], owned) && Distinct(present)
      invariant seen == set name | name in present
      invariant forall j :: 0 <= j < i ==> SectionAllowed(sections[j], owned)
    {
      var section := sections[i];
      assert section in sections && sections[..i + 1][..i] == sections[..i];
      if section.name !in owned {
        var active := ActiveRepoDirective(section.lines);
        if active {
          return false, [];
        }
        continue;
      }
      if section.name in seen {
        DuplicateStays(sections, owned, i);
        return false, [];
      }
      var weak := WeakSigLevel(section.lines);
      if weak {
        return false, [];
      }
      seen, present := seen + {section.name}, present + [section.name];
    }
    assert sections[..|sections|] == sections;
    return true, present;
  }

  lemma {:induction false} DuplicateStays(sections: seq<Section>, owned: map<string, Repository>, i: nat)
    requires i < |sections| && sections[i].name in Present(sections[..i], owned) && sections[i].name in owned
    ensures !Distinct(Present(sections, owned))
    decreases |sections|
  {
    if i == |sections| - 1 {
      var before := Present(sections[..i], owned);
      var k :| 0 <= k < |before| && before[k] == sections[i].name;
      assert Present(sections, owned)[k] == Present(sections, owned)[|before|];
    } else {
      var before := sections[..|sections| - 1];
      assert before[..i] == sections[..i];
      DuplicateStays(before, owned, i);
      var j, k :| 0 <= j < k < |Present(before, owned)| && Present(before, owned)[j] == Present(before, owned)[k];
      assert Present(sections, owned)[j] == Present(sections, owned)[k];
    }
  }

  lemma RenderedGrows(prefix: seq<string>, sections: seq<Section>, i: nat, owned: map<string, Repository>)
    requires i < |sections| && forall s :: s in sections ==> s.lines != []
    ensures sections[i].lines != []
    ensures Concat(prefix + RenderedAll(sections[..i + 1], owned))
         == Concat(prefix + RenderedAll(sections[..i], owned)) + Concat(RenderedSection(sections[i], owned))
  {
    assert sections[i] in sections;
    var a, b := RenderedAll(sections[..i], owned), RenderedSection(sections[i], owned);
    assert sections[..i + 1][..i] == sections[..i];
    ConcatAppend(prefix + a, b);
    assert prefix + (a + b) == prefix + a + b;
  }

  method RenderSections(prefix: seq<string>, sections: seq<Section>, owned: map<string, Repository>)
    returns (output: string)
    requires forall s :: s in sections ==> s.lines != []
    ensures output == Concat(prefix + RenderedAll(sections, owned))
  {
    output := Concat(prefix);
    assert prefix + [] == prefix;
    for i := 0 to |sections|
      invariant output == Concat(prefix + RenderedAll(sections[..i], owned))
    {
      RenderedGrows(prefix, sections, i, owned);
      var section, text := sections[i], "";
      if section.name in owned {
        text := RenderOwnedSection(section, owned[section.name]);
      } else {
        text := Concat(section.lines);
      }
      output := output + text;
    }
    assert sections[..|sections|] == sections;
  }

  lemma MissingGrows(start: string, repositories: seq<Repository>, present: seq<string>, i: nat)
    requires i < |repositories|
    ensures var before, after := Appended(start, Missing(repositories[..i], present)),
                                 Appended(start, Missing(repositories[..i + 1], present));
            after == if repositories[i].name in present then before
                     else (if before == "" then "" else Terminated(before) + "\n")
                           + Concat(MissingLines(repositories[i]))
  {
    assert repositories[..i + 1][..i] == repositories[..i];
    var before := Missing(repositories[..i], present);
    assert (before + [repositories[i]])[..|before|] == before && before + [] == before;
  }

  method AppendMissing(start: string, repositories: seq<Repository>, present: seq<string>) returns (output: string)
    ensures output == Appended(start, Missing(repositories, present))
  {
    output := start;
    for i := 0 to |repositories|
      invariant output == Appended(start, Missing(repositories[..i], present))
    {
      MissingGrows(start, repositories, present, i);
      if repositories[i].name in present {
        continue;
      }
      if |output| > 0 && !HasSuffix(output, "\n") {
        output := output + "\n";
      }
      if |output| > 0 {
        output := output + "\n";
      }
      output := output + Concat(MissingLines(repositories[i]));
    }
    assert repositories[..|repositories|] == repositories;
  }

  method RewriteConfig(input: string, repositories: seq<Repository>) returns (r: Result<string>)
    ensures var c := Parsed(SplitAfter(input));
            && (forall s :: s in c.sections ==> s.lines != [])
            && r == if Rewritable(c, repositories) then Ok(Output(c, repositories)) else Err
  {
    ghost var c := Parsed(SplitAfter(input));
    ParsedIsConfig(SplitAfter(input));
    if |repositories| == 0 {
      return Err;
    }
    var sections, prefix := ParseSections(input);
    var active := ActiveRepoDirective(["[prefix]"] + SplitAfter(prefix));
    assert (["[prefix]"] + SplitAfter(prefix))[1..] == SplitAfter(prefix);
    if active {
      return Err;
    }
    var distinct, owned, order := IndexRepositories(repositories);
    if !distinct {
      return Err;
    }
    var ok, present := CheckSections(sections, owned);
    if !ok {
      return Err;
    }
    ok := CheckSubsequence(order, present);
    OrderTested(order, present);
    if !ok {
      return Err;
    }
    var output := RenderSections(SplitAfter(prefix), sections, owned);
    ConcatAppend(SplitAfter(prefix), RenderedAll(sections, owned));
    ConcatAppend(c.prefix, RenderedAll(sections, owned));
    output := AppendMissing(output, repositories, present);
    return Ok(output);
  }
}
