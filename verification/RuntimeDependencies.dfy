/** The dependency closure of worker/runtime_dependencies.go: a worklist over a provider index, with
    remembered version comparisons. */
module RuntimeDependencies {
  import opened Values

  datatype Package = Package(name: string, version: string, depends: seq<string>, provided: seq<string>)

  /** `vercmp`, which may fail. */
  type Vercmp = (string, string) -> Option<int>

  // ----- relations -----

  predicate IsOperator(c: char) {
    c == '<' || c == '>' || c == '='
  }

  function OperatorAt(relation: string): (index: nat)
    ensures index <= |relation|
  {
    if relation == "" || IsOperator(relation[0]) then 0 else 1 + OperatorAt(relation[1..])
  }

  datatype Parts = Parts(name: string, operator: string, version: string)

  function DependencyParts(relation: string): Parts {
    var index := OperatorAt(relation);
    if index == |relation| then Parts(relation, "", "")
    else
      var end := if index + 1 < |relation| && relation[index + 1] == '=' then index + 2 else index + 1;
      Parts(relation[..index], relation[index..end], relation[end..])
  }

  predicate Holds(operator: string, comparison: int) {
    || (operator == "=" && comparison == 0) || (operator == ">" && comparison > 0)
          || (operator == "<" && comparison < 0)
    || (operator == ">=" && comparison >= 0) || (operator == "<=" && comparison <= 0)
  }

  /** Comparing directly: equal texts are equal versions, and only -1, 0 and 1 are answers. */
  function Compare(vercmp: Vercmp, version: string, wanted: string): Option<int> {
    if version == wanted then Some(0)
    else
      var answer := vercmp(version, wanted);
      if answer.Some? && -1 <= answer.value <= 1 then answer else None
  }

  /** The package offers `version` (empty when unversioned) under `name`. */
  predicate Offers(pkg: Package, name: string, version: string) {
    || (name == pkg.name && version == pkg.version)
    || exists p :: p in pkg.provided && DependencyParts(p).name == name && DependencyParts(p).version == version
  }

  predicate Acceptable(vercmp: Vercmp, version: string, parts: Parts) {
    || parts.operator == ""
    || (version != "" && var c := Compare(vercmp, version, parts.version); c.Some? && Holds(parts.operator, c.value))
  }

  /** The package satisfies the relation, by direct comparison of what it offers. */
  ghost predicate Matches(vercmp: Vercmp, pkg: Package, relation: string) {
    var parts := DependencyParts(relation);
    exists version :: Offers(pkg, parts.name, version) && Acceptable(vercmp, version, parts)
  }

  // ----- reachability, by scanning all installed packages -----

  /** Each relation of the chain but the first is a dependency of some installed package that
      satisfies the relation before it. */
  ghost predicate IsChain(vercmp: Vercmp, installed: seq<Package>, initial: seq<string>, chain: seq<string>)
    decreases |chain|
  {
    && chain != []
    && var last := chain[|chain| - 1];
       if |chain| == 1 then last in initial
       else
         && IsChain(vercmp, installed, initial, chain[..|chain| - 1])
         && exists pkg :: pkg in installed && Matches(vercmp, pkg, chain[|chain| - 2]) && last in pkg.depends
  }

  ghost predicate Reachable(vercmp: Vercmp, installed: seq<Package>, initial: seq<string>, relation: string) {
    exists chain :: IsChain(vercmp, installed, initial, chain) && chain[|chain| - 1] == relation
  }

  /** A package is required when it satisfies some reachable relation. */
  ghost predicate Required(vercmp: Vercmp, installed: seq<Package>, initial: seq<string>, pkg: Package) {
    exists relation :: Reachable(vercmp, installed, initial, relation) && Matches(vercmp, pkg, relation)
  }

  ghost predicate Unsatisfied(vercmp: Vercmp, installed: seq<Package>, relation: string) {
    forall pkg :: pkg in installed ==> !Matches(vercmp, pkg, relation)
  }

  lemma ReachableStep(vercmp: Vercmp, installed: seq<Package>, initial: seq<string>, relation: string, pkg: Package,
                      next: string)
    requires Reachable(vercmp, installed, initial, relation)
    requires pkg in installed && Matches(vercmp, pkg, relation) && next in pkg.depends
    ensures Reachable(vercmp, installed, initial, next)
  {
    var chain :| IsChain(vercmp, installed, initial, chain) && chain[|chain| - 1] == relation;
    var longer := chain + [next];
    assert longer[..|longer| - 1] == chain;
    assert IsChain(vercmp, installed, initial, longer);
  }

  lemma ReachableInitial(vercmp: Vercmp, installed: seq<Package>, initial: seq<string>, relation: string)
    requires relation in initial
    ensures Reachable(vercmp, installed, initial, relation)
  {
    assert IsChain(vercmp, installed, initial, [relation]);
  }

  /** The relations of `s` are closed under taking the dependencies of what satisfies them. */
  ghost predicate Closed(vercmp: Vercmp, installed: seq<Package>, initial: seq<string>, s: set<string>) {
    && (forall relation :: relation in initial ==> relation in s)
    && (forall pkg, relation, next |
          pkg in installed && relation in s && Matches(vercmp, pkg, relation) && next in pkg.depends :: next in s)
  }

  /** Any closed set holds everything reachable: reachability is the least closed set. */
  lemma {:induction false} ClosedHoldsReachable(vercmp: Vercmp, installed: seq<Package>, initial: seq<string>,
                                                s: set<string>, chain: seq<string>)
    requires Closed(vercmp, installed, initial, s) && IsChain(vercmp, installed, initial, chain)
    ensures chain[|chain| - 1] in s
    decreases |chain|
  {
    if |chain| > 1 {
      ClosedHoldsReachable(vercmp, installed, initial, s, chain[..|chain| - 1]);
    }
  }

  // ----- the provider index -----

  predicate OneLine(s: string) {
    '\n' !in s
  }

  /** Versions come from the lines of a file. */
  predicate WellRead(pkg: Package) {
    OneLine(pkg.version) && forall p :: p in pkg.provided ==> OneLine(p)
  }

  predicate Provides(pkg: Package, name: string) {
    pkg.name == name || exists p :: p in pkg.provided && DependencyParts(p).name == name
  }

  ghost predicate DistinctPackages(installed: seq<Package>) {
    forall i, j :: 0 <= i < j < |installed| ==> installed[i].name != installed[j].name
  }

  function Listed(providers: map<string, seq<Package>>, name: string): seq<Package> {
    if name in providers then providers[name] else []
  }

  /** Under each name the index lists exactly the installed packages that provide it. */
  ghost predicate IsIndex(providers: map<string, seq<Package>>, installed: seq<Package>) {
    forall name, pkg :: pkg in Listed(providers, name) <==> pkg in installed && Provides(pkg, name)
  }

  const MAX_PACKAGES := 4096

  method AddPackage(providers: map<string, seq<Package>>, pkg: Package) returns (more: map<string, seq<Package>>)
    ensures forall name, other :: other in Listed(more, name) <==>
              other in Listed(providers, name) || (other == pkg && Provides(pkg, name))
  {
    more := providers[pkg.name := Listed(providers, pkg.name) + [pkg]];
    for k := 0 to |pkg.provided|
      invariant forall name, other :: other in Listed(more, name) <==>
                  other in Listed(providers, name)
                        || (other == pkg && Provides(pkg.(provided := pkg.provided[..k]), name))
    {
      assert pkg.provided[..k + 1] == pkg.provided[..k] + [pkg.provided[k]];
      var name := DependencyParts(pkg.provided[k]).name;
      if name != pkg.name {
        more := more[name := Listed(more, name) + [pkg]];
      }
    }
    assert pkg.provided[..|pkg.provided|] == pkg.provided;
  }

  lemma IndexGrows(before: map<string, seq<Package>>, after: map<string, seq<Package>>, done: seq<Package>,
                   pkg: Package)
    requires IsIndex(before, done)
    requires forall name, other :: other in Listed(after, name) <==>
               other in Listed(before, name) || (other == pkg && Provides(pkg, name))
    ensures IsIndex(after, done + [pkg])
  {
    assert forall other :: other in done + [pkg] <==> other in done || other == pkg;
  }

  method BuildIndex(installed: seq<Package>) returns (ok: bool, providers: map<string, seq<Package>>)
    ensures ok <==> 0 < |installed| <= MAX_PACKAGES && DistinctPackages(installed)
    ensures ok ==> IsIndex(providers, installed)
  {
    providers := map[];
    var packages: map<string, Package> := map[];
    for i := 0 to |installed|
      invariant DistinctPackages(installed[..i]) && |packages| == i <= MAX_PACKAGES
      invariant forall name :: name in packages <==> exists j :: 0 <= j < i && installed[j].name == name
      invariant IsIndex(providers, installed[..i])
    {
      if |packages| >= MAX_PACKAGES {
        return false, map[];
      }
      var pkg := installed[i];
      if pkg.name in packages {
        return false, map[];
      }
      packages := packages[pkg.name := pkg];
      var more := AddPackage(providers, pkg);
      IndexGrows(providers, more, installed[..i], pkg);
      assert installed[..i + 1] == installed[..i] + [pkg];
      providers := more;
    }
    assert installed[..|installed|] == installed;
    ok := |packages| > 0;
  }

  /** So looking under a relation's name finds every package that can satisfy it. */
  lemma IndexSuffices(vercmp: Vercmp, providers: map<string, seq<Package>>, installed: seq<Package>, relation: string)
    requires IsIndex(providers, installed)
    ensures forall pkg :: pkg in installed && Matches(vercmp, pkg, relation) ==>
              pkg in Listed(providers, DependencyParts(relation).name)
  {
    var name := DependencyParts(relation).name;
    forall pkg | pkg in installed && Matches(vercmp, pkg, relation) ensures pkg in Listed(providers, name) {
      var version :| Offers(pkg, name, version) && Acceptable(vercmp, version, DependencyParts(relation));
      assert Provides(pkg, name);
    }
  }

  // ----- remembered comparisons -----

  function Key(version: string, wanted: string): string {
    version + "\n" + wanted
  }

  lemma KeyInjective(v: string, w: string, v': string, w': string)
    requires OneLine(v) && OneLine(v') && Key(v, w) == Key(v', w')
    ensures v == v' && w == w'
  {
    var k := Key(v, w);
    assert k[|v|] == '\n' && k[|v'|] == '\n';
    assert (forall i :: 0 <= i < |v| ==> k[i] == v[i]) && (forall i :: 0 <= i < |v'| ==> k[i] == v'[i]);
    assert |v| == |v'|;
    assert k[..|v|] == v && k[..|v'|] == v' && k[|v| + 1..] == w && k[|v'| + 1..] == w';
  }

  ghost predicate Remembers(vercmp: Vercmp, comparisons: map<string, int>) {
    forall v, w :: OneLine(v) && Key(v, w) in comparisons ==>
      v != w && Compare(vercmp, v, w) == Some(comparisons[Key(v, w)])
  }

  lemma RemembersOneMore(vercmp: Vercmp, comparisons: map<string, int>, version: string, wanted: string)
    requires Remembers(vercmp, comparisons) && OneLine(version) && version != wanted
    requires Compare(vercmp, version, wanted).Some?
    ensures Remembers(vercmp, comparisons[Key(version, wanted) := Compare(vercmp, version, wanted).value])
  {
    var more := comparisons[Key(version, wanted) := Compare(vercmp, version, wanted).value];
    forall v, w | OneLine(v) && Key(v, w) in more ensures v != w && Compare(vercmp, v, w) == Some(more[Key(v, w)]) {
      if Key(v, w) == Key(version, wanted) {
        KeyInjective(v, w, version, wanted);
      }
    }
  }

  // ----- the closure -----

  /** Every comparison that can come up has an answer. */
  ghost predicate Answers(vercmp: Vercmp) {
    forall v, w :: Compare(vercmp, v, w).Some?
  }

  ghost predicate Distinct(s: seq<string>) {
    forall i, j :: 0 <= i < j < |s| ==> s[i] != s[j]
  }

  class RuntimePackages {
    const vercmp: Vercmp
    const installed: seq<Package>
    const providers: map<string, seq<Package>>
    var comparisons: map<string, int>

    ghost predicate Valid()
      reads this
    {
      && IsIndex(providers, installed) && DistinctPackages(installed)
      && (forall pkg :: pkg in installed ==> WellRead(pkg))
      && Remembers(vercmp, comparisons)
    }

    constructor (vercmp: Vercmp, installed: seq<Package>, providers: map<string, seq<Package>>)
      requires IsIndex(providers, installed) && DistinctPackages(installed)
      requires forall pkg :: pkg in installed ==> WellRead(pkg)
      ensures Valid() && this.vercmp == vercmp && this.installed == installed && this.providers == providers
    {
      this.vercmp, this.installed, this.providers, this.comparisons := vercmp, installed, providers, map[];
    }

    method Available(pkg: Package, name: string) returns (available: seq<string>)
      requires WellRead(pkg)
      ensures forall version :: version in available <==> Offers(pkg, name, version)
      ensures forall version :: version in available ==> OneLine(version)
    {
      available := if name == pkg.name then [pkg.version] else [];
      for i := 0 to |pkg.provided|
        invariant forall version :: version in available <==> Offers(pkg.(provided := pkg.provided[..i]), name, version)
        invariant forall version :: version in available ==> OneLine(version)
      {
        var provided := pkg.provided[i];
        assert pkg.provided[..i + 1] == pkg.provided[..i] + [provided];
        assert provided in pkg.provided;
        var parts := DependencyParts(provided);
        if parts.name == name {
          available := available + [parts.version];
        }
      }
      assert pkg.provided[..|pkg.provided|] == pkg.provided;
    }

    /** `comparison, cached := ...`: the remembered answer, or a fresh one that is remembered. */
    method CompareRemembered(version: string, wanted: string) returns (comparison: Option<int>)
      requires Valid() && OneLine(version)
      modifies this`comparisons
      ensures Valid() && comparison == Compare(vercmp, version, wanted)
    {
      var key := Key(version, wanted);
      if key in comparisons {
        return Some(comparisons[key]);
      }
      if version == wanted {
        return Some(0);
      }
      var answer := vercmp(version, wanted);
      if answer.None? || answer.value < -1 || answer.value > 1 {
        return None;
      }
      RemembersOneMore(vercmp, comparisons, version, wanted);
      comparisons := comparisons[key := answer.value];
      return answer;
    }

    method Satisfies(pkg: Package, relation: string) returns (ok: bool, matches: bool)
      requires Valid() && WellRead(pkg)
      modifies this`comparisons
      ensures Valid()
      ensures ok ==> (matches <==> Matches(vercmp, pkg, relation))
      ensures Answers(vercmp) ==> ok
    {
      var parts := DependencyParts(relation);
      var available := Available(pkg, parts.name);
      for i := 0 to |available|
        invariant Valid()
        invariant forall j :: 0 <= j < i ==> !Acceptable(vercmp, available[j], parts)
      {
        var version := available[i];
        assert version in available;
        if parts.operator == "" {
          return true, true;
        }
        if version == "" {
          continue;
        }
        var comparison := CompareRemembered(version, parts.version);
        if comparison.None? {
          return false, false;
        }
        if Holds(parts.operator, comparison.value) {
          return true, true;
        }
      }
      return true, false;
    }

    /** The inner loop: the providers listed under the relation's name. */
    method Visit(relation: string, result: set<string>, queue: seq<string>)
      returns (ok: bool, found: bool, result': set<string>, queue': seq<string>)
      requires Valid()
      modifies this`comparisons
      ensures Valid() && (Answers(vercmp) ==> ok)
      ensures ok ==> (found <==> !Unsatisfied(vercmp, installed, relation))
      ensures ok ==> forall name :: name in result' <==>
                name in result || exists pkg :: pkg in installed && pkg.name == name && Matches(vercmp, pkg, relation)
      ensures ok ==> forall d :: d in queue ==> d in queue'
      ensures ok ==> forall d :: d in queue' ==>
                d in queue || exists pkg :: pkg in installed && Matches(vercmp, pkg, relation) && d in pkg.depends
      ensures ok ==> forall pkg, d ::
                pkg in installed && pkg.name in result' && pkg.name !in result && d in pkg.depends ==> d in queue'
      ensures ok && result' == result ==> queue' == queue
    {
      IndexSuffices(vercmp, providers, installed, relation);
      var listed := Listed(providers, DependencyParts(relation).name);
      found, result', queue' := false, result, queue;
      for i := 0 to |listed|
        invariant Valid() && Visited(vercmp, installed, relation, listed[..i], result, queue, found, result', queue')
      {
        var pkg := listed[i];
        assert pkg in listed && pkg in installed;
        assert listed[..i + 1] == listed[..i] + [pkg];
        var matches: bool;
        ok, matches := Satisfies(pkg, relation);
        if !ok {
          return;
        }
        if !matches {
          VisitSkips(vercmp, installed, relation, listed[..i], pkg, result, queue, found, result', queue');
          continue;
        }
        VisitAdds(vercmp, installed, relation, listed[..i], pkg, result, queue, found, result', queue');
        found := true;
        if pkg.name !in result' {
          result', queue' := result' + {pkg.name}, queue' + pkg.depends;
        }
      }
      assert listed[..|listed|] == listed;
      VisitDone(vercmp, installed, relation, listed, result, queue, found, result', queue');
      ok := true;
    }

    /** Exactly the required packages, and each reachable relation without a package once. */
    method Closure(relations: seq<string>) returns (ok: bool, result: set<string>, missing: seq<string>)
      requires Valid()
      modifies this`comparisons
      ensures Valid() && (Answers(vercmp) ==> ok)
      ensures ok ==> forall name :: name in result <==>
                exists pkg :: pkg in installed && pkg.name == name && Required(vercmp, installed, relations, pkg)
      ensures ok ==> Distinct(missing)
      ensures ok ==> forall relation :: relation in missing <==>
                Reachable(vercmp, installed, relations, relation) && Unsatisfied(vercmp, installed, relation)
    {
      var seen: set<string>, queue := {}, relations;
      ghost var names := InstalledNames(installed);
      result, missing := {}, [];
      InitialProgress(vercmp, installed, relations);
      while |queue| > 0
        invariant Valid() && result <= names
        invariant Progress(vercmp, installed, relations, seen, queue, result, missing)
        decreases names - result, |queue|
      {
        var relation := queue[0];
        ghost var before := queue;
        queue := queue[1..];
        if relation in seen {
          SkipSeen(vercmp, installed, relations, seen, before, result, missing);
          continue;
        }
        var found, result', queue';
        ok, found, result', queue' := Visit(relation, result, queue);
        if !ok {
          return;
        }
        RelationVisited(vercmp, installed, relations, seen, before, result, missing, result', queue');
        if !found {
          missing := missing + [relation];
        }
        seen, result, queue := seen + {relation}, result', queue';
      }
      ok := true;
      ProgressDone(vercmp, installed, relations, seen, result, missing);
    }
  }

  /** What looking at some listed packages has added to the result and the queue. */
  ghost predicate Visited(vercmp: Vercmp, installed: seq<Package>, relation: string, done: seq<Package>,
                          result: set<string>, queue: seq<string>, found: bool, result': set<string>,
                              queue': seq<string>) {
    && (found <==> exists pkg :: pkg in done && Matches(vercmp, pkg, relation))
    && (forall name :: name in result' <==>
          name in result || exists pkg :: pkg in done && pkg.name == name && Matches(vercmp, pkg, relation))
    && (forall d :: d in queue ==> d in queue')
    && (forall d :: d in queue' ==>
          d in queue || exists pkg :: pkg in installed && Matches(vercmp, pkg, relation) && d in pkg.depends)
    && (forall pkg, d :: pkg in installed && pkg.name in result' && pkg.name !in result && d in pkg.depends ==>
          d in queue')
    && (result' == result ==> queue' == queue)
  }

  lemma VisitSkips(vercmp: Vercmp, installed: seq<Package>, relation: string, done: seq<Package>, pkg: Package,
                   result: set<string>, queue: seq<string>, found: bool, result': set<string>, queue': seq<string>)
    requires Visited(vercmp, installed, relation, done, result, queue, found, result', queue')
    requires !Matches(vercmp, pkg, relation)
    ensures Visited(vercmp, installed, relation, done + [pkg], result, queue, found, result', queue')
  {
    assert forall p :: p in done + [pkg] <==> p in done || p == pkg;
  }

  lemma VisitAdds(vercmp: Vercmp, installed: seq<Package>, relation: string, done: seq<Package>, pkg: Package,
                  result: set<string>, queue: seq<string>, found: bool, result': set<string>, queue': seq<string>)
    requires Visited(vercmp, installed, relation, done, result, queue, found, result', queue')
    requires DistinctPackages(installed) && pkg in installed && Matches(vercmp, pkg, relation)
    ensures pkg.name in result' ==>
              Visited(vercmp, installed, relation, done + [pkg], result, queue, true, result', queue')
    ensures pkg.name !in result' ==>
              Visited(vercmp, installed, relation, done + [pkg], result, queue, true, result' + {pkg.name},
                      queue' + pkg.depends)
  {
    assert forall p :: p in done + [pkg] <==> p in done || p == pkg;
    OnlyOneNamed(installed, pkg);
  }

  /** All that is listed under the relation's name is all that can match it. */
  lemma VisitDone(vercmp: Vercmp, installed: seq<Package>, relation: string, listed: seq<Package>,
                  result: set<string>, queue: seq<string>, found: bool, result': set<string>, queue': seq<string>)
    requires Visited(vercmp, installed, relation, listed, result, queue, found, result', queue')
    requires forall pkg :: pkg in listed ==> pkg in installed
    requires forall pkg :: pkg in installed && Matches(vercmp, pkg, relation) ==> pkg in listed
    ensures found <==> !Unsatisfied(vercmp, installed, relation)
    ensures forall name :: name in result' <==>
              name in result || exists pkg :: pkg in installed && pkg.name == name && Matches(vercmp, pkg, relation)
  {
  }

  ghost function InstalledNames(installed: seq<Package>): set<string> {
    set pkg | pkg in installed :: pkg.name
  }

  /** What the worklist has established: everything handled or queued is reachable, and what is
      still owed is queued. */
  ghost predicate Progress(vercmp: Vercmp, installed: seq<Package>, relations: seq<string>,
                           seen: set<string>, queue: seq<string>, result: set<string>, missing: seq<string>) {
    && (forall r :: r in seen || r in queue ==> Reachable(vercmp, installed, relations, r))
    && (forall r :: r in relations ==> r in seen || r in queue)
    && (forall name :: name in result <==>
          exists pkg, r :: pkg in installed && pkg.name == name && r in seen && Matches(vercmp, pkg, r))
    && (forall pkg, d :: pkg in installed && pkg.name in result && d in pkg.depends ==> d in seen || d in queue)
    && Distinct(missing)
    && (forall r :: r in missing <==> r in seen && Unsatisfied(vercmp, installed, r))
  }

  lemma InitialProgress(vercmp: Vercmp, installed: seq<Package>, relations: seq<string>)
    ensures Progress(vercmp, installed, relations, {}, relations, {}, [])
  {
    forall r | r in relations ensures Reachable(vercmp, installed, relations, r) {
      ReachableInitial(vercmp, installed, relations, r);
    }
  }

  lemma SkipSeen(vercmp: Vercmp, installed: seq<Package>, relations: seq<string>,
                 seen: set<string>, queue: seq<string>, result: set<string>, missing: seq<string>)
    requires queue != [] && queue[0] in seen && Progress(vercmp, installed, relations, seen, queue, result, missing)
    ensures Progress(vercmp, installed, relations, seen, queue[1..], result, missing)
  {
    assert forall r :: r in queue <==> r == queue[0] || r in queue[1..];
  }

  lemma RelationVisited(vercmp: Vercmp, installed: seq<Package>, relations: seq<string>,
                        seen: set<string>, queue: seq<string>, result: set<string>, missing: seq<string>,
                        result': set<string>, queue': seq<string>)
    requires queue != [] && queue[0] !in seen && Progress(vercmp, installed, relations, seen, queue, result, missing)
    requires forall name :: name in result' <==>
               name in result || exists pkg :: pkg in installed && pkg.name == name && Matches(vercmp, pkg, queue[0])
    requires forall d :: d in queue[1..] ==> d in queue'
    requires forall d :: d in queue' ==>
               d in queue[1..] || exists pkg :: pkg in installed && Matches(vercmp, pkg, queue[0]) && d in pkg.depends
    requires forall pkg, d :: pkg in installed && pkg.name in result' && pkg.name !in result && d in pkg.depends ==>
              d in queue'
    ensures var missing' := if Unsatisfied(vercmp, installed, queue[0]) then missing + [queue[0]] else missing;
            Progress(vercmp, installed, relations, seen + {queue[0]}, queue', result', missing')
  {
    var relation := queue[0];
    assert forall r :: r in queue <==> r == relation || r in queue[1..];
    forall d | d in queue' ensures Reachable(vercmp, installed, relations, d) {
      if d !in queue[1..] {
        var pkg :| pkg in installed && Matches(vercmp, pkg, relation) && d in pkg.depends;
        ReachableStep(vercmp, installed, relations, relation, pkg, d);
      }
    }
    assert forall r :: r in missing + [relation] <==> r in missing || r == relation;
  }

  lemma ProgressDone(vercmp: Vercmp, installed: seq<Package>, relations: seq<string>,
                     seen: set<string>, result: set<string>, missing: seq<string>)
    requires Progress(vercmp, installed, relations, seen, [], result, missing)
    ensures forall name :: name in result <==>
              exists pkg :: pkg in installed && pkg.name == name && Required(vercmp, installed, relations, pkg)
    ensures Distinct(missing)
    ensures forall r :: r in missing <==>
              Reachable(vercmp, installed, relations, r) && Unsatisfied(vercmp, installed, r)
  {
    SeenIsReachable(vercmp, installed, relations, seen, result, missing);
    forall name | name in result
      ensures exists pkg :: pkg in installed && pkg.name == name && Required(vercmp, installed, relations, pkg)
    {
      var pkg, r :| pkg in installed && pkg.name == name && r in seen && Matches(vercmp, pkg, r);
      assert Required(vercmp, installed, relations, pkg);
    }
  }

  lemma SeenIsReachable(vercmp: Vercmp, installed: seq<Package>, relations: seq<string>,
                        seen: set<string>, result: set<string>, missing: seq<string>)
    requires Progress(vercmp, installed, relations, seen, [], result, missing)
    ensures forall r :: r in seen <==> Reachable(vercmp, installed, relations, r)
  {
    assert Closed(vercmp, installed, relations, seen);
    forall r | Reachable(vercmp, installed, relations, r) ensures r in seen {
      var chain :| IsChain(vercmp, installed, relations, chain) && chain[|chain| - 1] == r;
      ClosedHoldsReachable(vercmp, installed, relations, seen, chain);
    }
  }

  lemma OnlyOneNamed(installed: seq<Package>, pkg: Package)
    requires DistinctPackages(installed) && pkg in installed
    ensures forall other :: other in installed && other.name == pkg.name ==> other == pkg
  {
  }
}
