/** The guarantees of a successful pacman.conf rewrite, on the output read again. */
module RewriteGuarantees {
  import opened Text
  import opened ConfigLines
  import opened PacmanConfig
  import opened RewrittenConfig
  import opened RewrittenLayout
  import opened Values

  /** `d` is `c` with the missing sections after it and blank lines at the ends of sections. */
  ghost predicate Grown(c: Config, d: Config, missing: seq<Repository>) {
    && |d.sections| == |c.sections| + |missing| && Extends(c.prefix, d.prefix)
    && (forall i :: 0 <= i < |c.sections| ==> SectionExtends(c.sections[i], d.sections[i]))
    && (forall k :: 0 <= k < |missing| ==> SectionExtends(NewSection(missing[k]), d.sections[|c.sections| + k]))
  }

  ghost predicate SectionExtends(s: Section, t: Section) {
    s.name == t.name && Extends(s.lines, t.lines)
  }

  function NewSection(repository: Repository): Section {
    Section(repository.name, MissingLines(repository))
  }

  lemma ExtendsBlank(lines: seq<string>, more: seq<string>, line: string)
    requires Extends(lines, more) && IsBlank(line)
    ensures Extends(lines, more + [line])
  {
  }

  lemma GrownBlank(c: Config, d: Config, missing: seq<Repository>, line: string)
    requires Grown(c, d, missing) && IsBlank(line)
    ensures Grown(c, WithLine(d, line), missing)
  {
    BlankFacts(line);
    var n := |d.sections|;
    if n == 0 {
      ExtendsBlank(c.prefix, d.prefix, line);
    } else if missing == [] {
      ExtendsBlank(c.sections[n - 1].lines, d.sections[n - 1].lines, line);
    } else {
      ExtendsBlank(MissingLines(missing[|missing| - 1]), d.sections[n - 1].lines, line);
    }
  }

  lemma AddsToLast(prefix: seq<string>, sections: seq<Section>, name: string, lines: seq<string>, line: string)
    requires SectionName(line).None?
    ensures WithLine(Config(prefix, sections + [Section(name, lines)]), line)
         == Config(prefix, sections + [Section(name, lines + [line])])
  {
    assert (sections + [Section(name, lines)])[..|sections|] == sections;
  }

  lemma OpensSection(c: Config, repository: Repository)
    requires GoodName(repository.name) && '\n' !in repository.packageBaseURL
    ensures WithLines(c, MissingLines(repository)) == c.(sections := c.sections + [NewSection(repository)])
  {
    MissingLinesFacts(repository);
    var lines, name := MissingLines(repository), repository.name;
    WithLinesGrow(c, [], lines[0]);
    WithLinesGrow(c, [lines[0]], lines[1]);
    WithLinesGrow(c, [lines[0]] + [lines[1]], lines[2]);
    assert [] + [lines[0]] == [lines[0]] && [lines[0]] + [lines[1]] + [lines[2]] == lines;
    AddsToLast(c.prefix, c.sections, name, [lines[0]], lines[1]);
    AddsToLast(c.prefix, c.sections, name, [lines[0]] + [lines[1]], lines[2]);
  }

  lemma WithLinesGrow(c: Config, lines: seq<string>, line: string)
    ensures WithLines(c, lines + [line]) == WithLine(WithLines(c, lines), line)
  {
    assert (lines + [line])[..|lines|] == lines;
  }

  lemma GrownSection(c: Config, d: Config, before: seq<Repository>, last: Repository)
    requires Grown(c, d, before)
    ensures Grown(c, d.(sections := d.sections + [NewSection(last)]), before + [last])
  {
  }

  lemma {:induction false} GrownBlocks(c: Config, missing: seq<Repository>)
    requires Signed(missing)
    ensures Grown(c, WithBlocks(c, missing), missing)
  {
    if missing != [] {
      var before, last := missing[..|missing| - 1], missing[|missing| - 1];
      assert last in missing && missing == before + [last];
      GrownBlocks(c, before);
      var d := WithBlocks(c, before);
      GrownBlank(c, d, before, "\n");
      OpensSection(SetOff(d), last);
      GrownSection(c, SetOff(d), before, last);
    }
  }

  function OutputConfig(c: Config, repositories: seq<Repository>): Config
    requires forall s :: s in c.sections ==> s.lines != []
  {
    Parsed(SplitAfter(Output(c, repositories)))
  }

  /** The same text, but for newlines added at its end. */
  ghost predicate SameText(a: string, b: string) {
    a <= b && forall i :: |a| <= i < |b| ==> b[i] == '\n'
  }

  // ----- owned sections of the output -----

  lemma TailExtends(lines: seq<string>, more: seq<string>)
    requires lines != [] && Extends(lines, more)
    ensures more != [] && more[0] == lines[0] && Extends(lines[1..], more[1..])
  {
    assert more[..|lines|][1..] == more[1..][..|lines| - 1];
  }

  lemma NewSectionSettled(repository: Repository)
    requires '\n' !in repository.packageBaseURL
    ensures Settled(MissingLines(repository)[1..], repository.packageBaseURL)
  {
    var url := repository.packageBaseURL;
    FinishedSettled(Rendering([], false, false), url);
    assert MissingLines(repository)[1..] == Finished(Rendering([], false, false), url);
  }

  lemma OwnedSettled(s: Section, owned: map<string, Repository>)
    requires IsSection(s) && AllLineOrEmpty(s.lines) && SectionAllowed(s, owned)
    requires s.name in owned && '\n' !in owned[s.name].packageBaseURL
    ensures var lines := NormalSection(s, owned).lines;
            lines != [] && Settled(lines[1..], owned[s.name].packageBaseURL)
  {
    var url := owned[s.name].packageBaseURL;
    NormalSectionWhole(s, owned);
    RenderedSound(s.lines[1..], url);
    FinishedSettled(Rendered(s.lines[1..], url), url);
    KeptSettled(Finished(Rendered(s.lines[1..], url), url), url);
  }

  /** What a section of the output is. */
  ghost predicate SectionSound(s: Section, owned: map<string, Repository>) {
    && s.lines != []
    && (s.name in owned ==> HasSuffix(s.lines[0], "\n") && Settled(s.lines[1..], owned[s.name].packageBaseURL))
    && (s.name !in owned ==> !SomeActive(s.lines[1..]))
  }

  lemma NormalSound(c: Config, owned: map<string, Repository>, i: nat)
    requires IsConfig(c) && AllLineOrEmpty(AllLines(c)) && i < |c.sections|
    requires forall name :: name in owned ==> '\n' !in owned[name].packageBaseURL
    requires c.sections[i].lines != [] && SectionAllowed(c.sections[i], owned)
    ensures SectionSound(Normal(c, owned).sections[i], owned)
  {
    var s := c.sections[i];
    assert s in c.sections;
    FlatLines(c.sections);
    forall line | line in s.lines ensures LineOrEmpty(line) {
      assert line in Flat(c.sections) && line in AllLines(c);
    }
    NormalSectionWhole(s, owned);
    assert NormalSection(s, owned).lines[0] in NormalSection(s, owned).lines;
    if s.name in owned {
      OwnedSettled(s, owned);
    } else {
      KeptFacts(s.lines[1..]);
    }
  }

  lemma ExtendsSound(s: Section, t: Section, owned: map<string, Repository>)
    requires SectionSound(s, owned) && SectionExtends(s, t)
    ensures SectionSound(t, owned)
  {
    TailExtends(s.lines, t.lines);
    if s.name in owned {
      ExtendsSettled(s.lines[1..], t.lines[1..], owned[s.name].packageBaseURL);
    } else {
      ExtendsText(s.lines[1..], t.lines[1..]);
    }
  }

  lemma NewSectionSound(repository: Repository, owned: map<string, Repository>)
    requires '\n' !in repository.packageBaseURL && repository.name in owned && owned[repository.name] == repository
    ensures SectionSound(NewSection(repository), owned)
  {
    NewSectionSettled(repository);
    assert HasSuffix(MissingLines(repository)[0], "\n");
  }

  lemma MissingSound(repositories: seq<Repository>, present: seq<string>, k: nat)
    requires Signed(repositories) && DistinctNames(repositories) && k < |Missing(repositories, present)|
    ensures SectionSound(NewSection(Missing(repositories, present)[k]), OwnedBy(repositories))
  {
    var r := Missing(repositories, present)[k];
    MissingOf(repositories, present);
    assert r in Missing(repositories, present);
    OwnedByValues(repositories, r);
    NewSectionSound(r, OwnedBy(repositories));
  }

  lemma AllNormalSound(c: Config, owned: map<string, Repository>)
    requires IsConfig(c) && AllLineOrEmpty(AllLines(c))
    requires forall name :: name in owned ==> '\n' !in owned[name].packageBaseURL
    requires forall s :: s in c.sections ==> s.lines != [] && SectionAllowed(s, owned)
    ensures forall i :: 0 <= i < |c.sections| ==> SectionSound(Normal(c, owned).sections[i], owned)
  {
    forall i | 0 <= i < |c.sections| ensures SectionSound(Normal(c, owned).sections[i], owned) {
      assert c.sections[i] in c.sections;
      NormalSound(c, owned, i);
    }
  }

  lemma GrownSound(c: Config, d: Config, missing: seq<Repository>, owned: map<string, Repository>, j: nat)
    requires Grown(c, d, missing) && j < |d.sections|
    requires forall i :: 0 <= i < |c.sections| ==> SectionSound(c.sections[i], owned)
    requires forall k :: 0 <= k < |missing| ==> SectionSound(NewSection(missing[k]), owned)
    ensures SectionSound(d.sections[j], owned)
  {
    if j < |c.sections| {
      ExtendsSound(c.sections[j], d.sections[j], owned);
    } else {
      var k := j - |c.sections|;
      assert SectionExtends(NewSection(missing[k]), d.sections[|c.sections| + k]);
      ExtendsSound(NewSection(missing[k]), d.sections[j], owned);
    }
  }

  lemma {:induction false} ServersMember(lines: seq<string>, line: string)
    requires line in lines && IsServer(line)
    ensures line in Servers(lines)
  {
    var before, last := lines[..|lines| - 1], lines[|lines| - 1];
    assert lines == before + [last];
    if line != last {
      ServersMember(before, line);
    }
  }

  // ----- which sections the output has -----

  lemma {:induction false} PresentByNames(a: seq<Section>, b: seq<Section>, owned: map<string, Repository>)
    requires |a| == |b| && forall i :: 0 <= i < |a| ==> a[i].name == b[i].name
    ensures Present(a, owned) == Present(b, owned)
  {
    if a != [] {
      PresentByNames(a[..|a| - 1], b[..|b| - 1], owned);
    }
  }

  lemma {:induction false} PresentAppend(a: seq<Section>, b: seq<Section>, owned: map<string, Repository>)
    ensures Present(a + b, owned) == Present(a, owned) + Present(b, owned)
  {
    if b == [] {
      assert a + b == a;
    } else {
      assert (a + b)[..|a + b| - 1] == a + b[..|b| - 1];
      PresentAppend(a, b[..|b| - 1], owned);
    }
  }

  lemma {:induction false} PresentNew(sections: seq<Section>, missing: seq<Repository>, owned: map<string, Repository>)
    requires |sections| == |missing|
    requires forall i :: 0 <= i < |missing| ==> sections[i].name == missing[i].name && missing[i].name in owned
    ensures Present(sections, owned) == Names(missing)
  {
    if missing != [] {
      var n := |missing| - 1;
      PresentNew(sections[..n], missing[..n], owned);
      assert Names(missing) == Names(missing[..n]) + [missing[n].name];
    }
  }

  lemma PresentGrown(c: Config, d: Config, missing: seq<Repository>, owned: map<string, Repository>)
    requires Grown(c, d, missing) && forall r :: r in missing ==> r.name in owned
    ensures Present(d.sections, owned) == Present(c.sections, owned) + Names(missing)
  {
    var n, sections := |c.sections|, d.sections;
    assert sections == sections[..n] + sections[n..];
    PresentAppend(sections[..n], sections[n..], owned);
    PresentByNames(sections[..n], c.sections, owned);
    forall k | 0 <= k < |missing| ensures sections[n..][k].name == missing[k].name && missing[k].name in owned {
      assert sections[n + k] == sections[n..][k] && missing[k] in missing;
    }
    PresentNew(sections[n..], missing, owned);
  }

  lemma MissingOwned(repositories: seq<Repository>, present: seq<string>)
    ensures forall r :: r in Missing(repositories, present) ==> r.name in OwnedBy(repositories)
  {
    MissingOf(repositories, present);
    OwnedByKeys(repositories);
  }

  lemma {:induction false} MissingDistinct(repositories: seq<Repository>, present: seq<string>)
    requires DistinctNames(repositories)
    ensures DistinctNames(Missing(repositories, present))
  {
    if repositories != [] {
      var before, last := repositories[..|repositories| - 1], repositories[|repositories| - 1];
      MissingDistinct(before, present);
      MissingOf(before, present);
      forall r | r in before ensures r.name != last.name {
        var i :| 0 <= i < |before| && before[i] == r;
        assert repositories[i].name != repositories[|before|].name;
      }
      var m := Missing(before, present);
      assert forall i :: 0 <= i < |m| ==> m[i] in m;
    }
  }

  lemma PresentStaysDistinct(repositories: seq<Repository>, present: seq<string>)
    requires DistinctNames(repositories) && Distinct(present)
    ensures Distinct(present + Names(Missing(repositories, present)))
  {
    var missing := Missing(repositories, present);
    MissingDistinct(repositories, present);
    MissingOf(repositories, present);
    var all := present + Names(missing);
    forall i, j | 0 <= i < j < |all| ensures all[i] != all[j] {
      if j >= |present| {
        var r := missing[j - |present|];
        assert r in missing && all[j] == r.name;
        if i >= |present| {
          assert all[i] == missing[i - |present|].name;
        } else {
          assert all[i] in present;
        }
      }
    }
  }

  lemma OwnedOnce(sections: seq<Section>, owned: map<string, Repository>, i: nat, j: nat)
    requires Distinct(Present(sections, owned)) && i < j < |sections| && sections[i].name in owned
    ensures sections[i].name != sections[j].name
  {
    if sections[i].name == sections[j].name {
      PresentNames(sections[..j], owned);
      assert sections[..j][i] in sections[..j];
      DuplicateStays(sections, owned, j);
    }
  }

  lemma TheSection(sections: seq<Section>, owned: map<string, Repository>, name: string) returns (j: nat)
    requires Distinct(Present(sections, owned)) && name in Present(sections, owned)
    ensures j < |sections| && forall k :: 0 <= k < |sections| ==> (sections[k].name == name <==> k == j)
  {
    PresentNames(sections, owned);
    var s :| s in sections && s.name == name;
    j :| 0 <= j < |sections| && sections[j] == s;
    forall k | 0 <= k < |sections| && k != j ensures sections[k].name != name {
      if k > j {
        OwnedOnce(sections, owned, j, k);
      } else if sections[k].name in owned {
        OwnedOnce(sections, owned, k, j);
      }
    }
  }

  lemma PresentOrMissing(repositories: seq<Repository>, present: seq<string>, r: Repository)
    requires r in repositories
    ensures r.name in present + Names(Missing(repositories, present))
  {
    var missing := Missing(repositories, present);
    MissingOf(repositories, present);
    if r.name !in present {
      var i :| 0 <= i < |missing| && missing[i] == r;
      assert Names(missing)[i] == r.name;
    }
  }

  // ----- rewriting again -----

  lemma {:induction false} SetOfDistinct(names: seq<string>)
    ensures |set name | name in names| <= |names|
    ensures Distinct(names) ==> |set name | name in names| == |names|
  {
    if names != [] {
      var before, last := names[..|names| - 1], names[|names| - 1];
      SetOfDistinct(before);
      assert names == before + [last];
      var s, s' := set name | name in before, set name | name in names;
      assert s' == s + {last};
      if Distinct(names) {
        assert last !in before;
      }
    }
  }

  /** Names that cover a list of distinct names are a subsequence of it only if they are the list. */
  lemma CoveringSubsequence(expected: seq<string>, actual: seq<string>)
    requires Distinct(expected) && IsSubsequence(expected, actual) && forall name :: name in expected ==> name in actual
    ensures expected == actual
  {
    SetOfDistinct(expected);
    SetOfDistinct(actual);
    var e, a := set name | name in expected, set name | name in actual;
    assert e <= a;
    SubsetSize(e, a);
    if |actual| > |expected| {
      TooLong(expected, actual);
    }
    SameLengthSubsequence(expected, actual);
  }

  lemma {:induction false} SubsetSize(a: set<string>, b: set<string>)
    requires a <= b
    ensures |a| <= |b|
  {
    assert b == a + (b - a) && a !! (b - a);
  }

  lemma {:induction false} SameLengthSubsequence(expected: seq<string>, actual: seq<string>)
    requires IsSubsequence(expected, actual) && |expected| <= |actual|
    ensures expected == actual
    decreases |expected|
  {
    if actual != [] {
      if expected[0] == actual[0] {
        SameLengthSubsequence(expected[1..], actual[1..]);
        assert expected == [expected[0]] + expected[1..] && actual == [actual[0]] + actual[1..];
      } else {
        TooLong(expected[1..], actual);
      }
    }
  }

  lemma {:induction false} SelfSubsequence(names: seq<string>)
    ensures IsSubsequence(names, names)
  {
    if names != [] {
      SelfSubsequence(names[1..]);
    }
  }

  lemma {:induction false} NoneMissing(repositories: seq<Repository>, present: seq<string>)
    requires forall r :: r in repositories ==> r.name in present
    ensures Missing(repositories, present) == []
  {
    if repositories != [] {
      assert repositories[|repositories| - 1] in repositories;
      NoneMissing(repositories[..|repositories| - 1], present);
    }
  }

  lemma {:induction false} MissingAfterPrefix(repositories: seq<Repository>, k: nat)
    requires DistinctNames(repositories) && k <= |repositories|
    ensures Missing(repositories, Names(repositories)[..k]) == repositories[k..]
    decreases |repositories|
  {
    if |repositories| == k {
      forall r | r in repositories ensures r.name in Names(repositories)[..k] {
        var i :| 0 <= i < |repositories| && repositories[i] == r;
        assert Names(repositories)[..k][i] == r.name;
      }
      NoneMissing(repositories, Names(repositories)[..k]);
    } else {
      var before, last := repositories[..|repositories| - 1], repositories[|repositories| - 1];
      MissingAfterPrefix(before, k);
      assert Names(before)[..k] == Names(repositories)[..k];
      assert repositories[k..] == before[k..] + [last];
      assert last.name !in Names(repositories)[..k];
    }
  }

  /** The rewritten order agrees with the signed one exactly when the sections that were there
      already were its beginning. */
  lemma OrderAgainIff(repositories: seq<Repository>, present: seq<string>)
    requires DistinctNames(repositories)
    ensures IsSubsequence(Names(repositories), present + Names(Missing(repositories, present)))
       <==> present <= Names(repositories)
  {
    var names, all := Names(repositories), present + Names(Missing(repositories, present));
    if IsSubsequence(names, all) {
      forall name | name in names ensures name in all {
        var i :| 0 <= i < |names| && names[i] == name;
        PresentOrMissing(repositories, present, repositories[i]);
      }
      CoveringSubsequence(names, all);
    }
    if present <= names {
      MissingAfterPrefix(repositories, |present|);
      assert names[..|present|] == present;
      assert all == names;
      SelfSubsequence(names);
    }
  }

  lemma SoundFixed(s: Section, owned: map<string, Repository>)
    requires SectionSound(s, owned)
    ensures RenderedSection(s, owned) == s.lines && SectionAllowed(s, owned)
  {
    if s.name in owned {
      OwnedFixed(s, owned[s.name]);
    }
  }

  lemma OwnedFixed(s: Section, repository: Repository)
    requires s.lines != [] && Header(s.lines[0]) == s.lines[0] && Settled(s.lines[1..], repository.packageBaseURL)
    ensures RenderedOwned(s, repository) == s.lines
  {
    SettledFixed(s.lines[1..], repository.packageBaseURL);
    assert [s.lines[0]] + s.lines[1..] == s.lines;
  }

  lemma {:induction false} AllFixed(sections: seq<Section>, owned: map<string, Repository>)
    requires forall s :: s in sections ==> s.lines != [] && SectionSound(s, owned)
    ensures RenderedAll(sections, owned) == Flat(sections)
  {
    if sections != [] {
      var before, last := sections[..|sections| - 1], sections[|sections| - 1];
      assert sections == before + [last];
      AllFixed(before, owned);
      SoundFixed(last, owned);
    }
  }

  lemma ExtendsLines(lines: seq<string>, more: seq<string>)
    requires AllLineOrEmpty(lines) && Extends(lines, more)
    ensures AllLineOrEmpty(more)
  {
    forall line | line in more ensures LineOrEmpty(line) {
      var i :| 0 <= i < |more| && more[i] == line;
      if i < |lines| {
        assert more[..|lines|][i] == line && line in lines;
      }
    }
  }

  lemma PrefixStaysInactive(prefix: seq<string>, more: seq<string>)
    requires AllLineOrEmpty(prefix) && Extends(Kept(prefix), more)
    requires !SomeActive(SplitAfter(Concat(prefix)))
    ensures !SomeActive(SplitAfter(Concat(more)))
  {
    KeptFacts(prefix);
    KeptFacts(more);
    BlankFacts("");
    ExtendsLines(Kept(prefix), more);
    assert forall i :: 0 <= i < |Kept(prefix)| ==> Kept(prefix)[i] in Kept(prefix);
    assert forall i :: 0 <= i < |Kept(more)| ==> Kept(more)[i] in Kept(more);
    SplitAfterConcat(Kept(prefix));
    SplitAfterConcat(Kept(more));
    ExtendsText(Kept(prefix), more);
  }

}
