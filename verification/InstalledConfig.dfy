/** The rewrite of omarchy/manifest-client/config.go inside the protocol of transaction.go: what the
    configuration holds between a commit and the user's next edit, whatever crashes in between. */
module InstalledConfig {
  import opened Values
  import opened ConfigLines
  import opened PacmanConfig
  import opened RewrittenLayout
  import opened RewriteEndings
  import opened RewriteGuarantees
  import opened RewriteResults
  import opened StagedTransaction

  /** The rewrite as the protocol calls it. */
  function RewriteAs(input: string, repositories: seq<Repository>): Option<string> {
    ParsedIsConfig(SplitAfter(input));
    var c := Parsed(SplitAfter(input));
    if Rewritable(c, repositories) then Some(Output(c, repositories)) else None
  }

  predicate IsSignedServer(d: Config, owned: map<string, Repository>, j: nat, line: string)
    requires j < |d.sections|
  {
    d.sections[j].name in owned && line == ServerLine(owned[d.sections[j].name].packageBaseURL)
  }

  predicate IsTheSection(d: Config, name: string, j: nat) {
    j < |d.sections| && forall k :: 0 <= k < |d.sections| ==> (d.sections[k].name == name <==> k == j)
  }

  ghost predicate HasOneSection(d: Config, name: string) {
    exists j: nat :: IsTheSection(d, name, j)
  }

  /** Every active server or include directive is a signed one, every signed repository has one section,
      and that section requires signatures. */
  ghost predicate SignedOnly(bytes: string, repositories: seq<Repository>) {
    var d, owned := Parsed(SplitAfter(bytes)), OwnedBy(repositories);
    && (forall j, line ::
          0 <= j < |d.sections| && d.sections[j].lines != [] && line in d.sections[j].lines[1..] && IsActive(line) ==>
            IsSignedServer(d, owned, j, line))
    && (forall r :: r in repositories ==> HasOneSection(d, r.name)) && AllOwnedSettled(d, owned)
  }

  /** The guard of the rewrite on a configuration that is still to be parsed. */
  ghost predicate InputEndsWell(input: string, repositories: seq<Repository>) {
    ParsedIsConfig(SplitAfter(input));
    EndsWell(Parsed(SplitAfter(input)), OwnedBy(repositories))
  }

  lemma RewriteIsSigned(input: string, repositories: seq<Repository>)
    requires InputEndsWell(input, repositories) && Signed(repositories) && RewriteAs(input, repositories).Some?
    ensures SignedOnly(RewriteAs(input, repositories).value, repositories)
  {
    ParsedIsConfig(SplitAfter(input));
    var d, owned := OutputConfig(Parsed(SplitAfter(input)), repositories), OwnedBy(repositories);
    forall j, line | 0 <= j < |d.sections| && d.sections[j].lines != [] && line in d.sections[j].lines[1..]
          && IsActive(line)
      ensures IsSignedServer(d, owned, j, line)
    {
      OnlySignedServers(input, repositories, j, line);
    }
    SettledIff(input, repositories);
    forall r | r in repositories ensures HasOneSection(d, r.name) {
      var j := OneSectionEach(input, repositories, r);
      assert IsTheSection(d, r.name, j);
    }
  }

  /** The configuration of the pair has only the signed servers of the manifest with that digest. */
  ghost predicate Holds(env: Env, pair: Pair, digest: string) {
    pair.config.Some? && SignedOnly(pair.config.value.bytes, env.repositories(digest))
  }

  /** The event at `k` is a commit, made from a configuration that ends well and for repositories that
      are well formed; nothing but idling follows. */
  ghost predicate LastCommit(env: Env, start: Pair, trace: seq<AtomicEvent>, k: nat) {
    && k < |trace| && trace[k].Commits? && Signed(env.repositories(trace[k].commit.tx.digest))
    && (forall i :: k < i < |trace| ==> trace[i].Idle?)
    && var pair := AtomicPlay(env, start, trace[..k]);
       && pair.Some? && pair.value.config.Some?
       && InputEndsWell(pair.value.config.value.bytes, env.repositories(trace[k].commit.tx.digest))
  }

  lemma {:induction false} HoldsWhileIdle(env: Env, start: Pair, trace: seq<AtomicEvent>, k: nat)
    requires env.rewrite == RewriteAs && LastCommit(env, start, trace, k) && AtomicPlay(env, start, trace).Some?
    ensures Holds(env, AtomicPlay(env, start, trace).value, trace[k].commit.tx.digest)
  {
    var before := trace[..|trace| - 1];
    if k == |trace| - 1 {
      var pair := AtomicPlay(env, start, before).value;
      RewriteIsSigned(pair.config.value.bytes, env.repositories(trace[k].commit.tx.digest));
    } else {
      assert before[..k] == trace[..k];
      HoldsWhileIdle(env, start, before, k);
    }
  }

  /** From a commit until the next edit or commit, the configuration that clients observe has only the
      signed servers of the committed manifest, however often recovery is cut short in between. */
  lemma InstalledIsSigned(env: Env, texts: set<string>, d: Disk, events: seq<Event>, k: nat)
    requires Setting(env, texts, d, events) && env.rewrite == RewriteAs
    requires LastCommit(env, Committed(d), Trace(env, d, events), k)
    ensures Holds(env, Committed(Play(env, d, events)), Trace(env, d, events)[k].commit.tx.digest)
  {
    RunRefinesAtomic(env, texts, d, events);
    HoldsWhileIdle(env, Committed(d), Trace(env, d, events), k);
  }
}
