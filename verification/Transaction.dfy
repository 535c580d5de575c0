/** `Stage`, `Apply` and `recoverPending` of omarchy/manifest-client/transaction.go as sequences of
    atomic file replacements, any of which may be the last one before a crash. */
module StagedTransaction {
  import opened Hexadecimal
  import opened ChannelState
  import opened Values

  /** The foreign functions: SHA-256 in hex, the configuration rewrite, and the repositories that
      the signed bytes with a given digest name. */
  datatype Env = Env(sha: string -> string, rewrite: (string, seq<Repository>) -> Option<string>,
                     repositories: string -> seq<Repository>)

  datatype File = File(bytes: string, mode: int)

  datatype Metadata = Metadata(schemaVersion: int, manifestSha: string, channel: string, baseConfigSha: string,
                               planSha: string)

  datatype Marker = Marker(schemaVersion: int, configMode: int, state: LocalState)

  /** The six files of one set of options. A file that does not parse counts as schema 0. */
  datatype Disk = Disk(config: Option<File>, state: Option<LocalState>, marker: Option<Marker>,
                       staged: Option<string>, plan: Option<string>, metadata: Option<Metadata>)

  // ----- the steps -----

  predicate Readable(state: LocalState) {
    state.schemaVersion == 1 && IsSha256(state.entry.manifestSha) && state.entry.sequence != 0
  }

  /** `readState`: an absent file reads as no state, an invalid one is an error. */
  function ReadState(d: Disk): Option<LocalState> {
    if d.state.None? then Some(NO_STATE) else if Readable(d.state.value) then d.state else None
  }

  predicate Recoverable(env: Env, d: Disk)
    requires d.marker.Some?
  {
    var m := d.marker.value;
    m.schemaVersion == 1 && d.staged.Some? && m.state.entry.configSha != ""
          && env.sha(d.staged.value) == m.state.entry.configSha
  }

  function RecoveredConfig(d: Disk): File
    requires d.marker.Some? && d.staged.Some?
  {
    var mode := d.marker.value.configMode;
    File(d.staged.value, if mode == 0 then 0x1A4 else mode)
  }

  /** The disks that `recoverPending` passes through, from its start to its end. */
  function RecoverDisks(env: Env, d: Disk): (disks: seq<Disk>)
    ensures disks != [] && disks[0] == d
  {
    if d.marker.None? || !Recoverable(env, d) then [d]
    else
      var d1 := d.(config := Some(RecoveredConfig(d)));
      var d2 := d1.(state := Some(d.marker.value.state));
      [d, d1, d2, d2.(marker := None)]
  }

  function Last(disks: seq<Disk>): Disk
    requires disks != []
  {
    disks[|disks| - 1]
  }

  /** `tx` is None when resolution or its checks fail; `removed` answers say whether the two
      ignored removals took effect. */
  datatype StageInput = StageInput(tx: Option<Transaction>, snapshotsOk: bool, stageDirOk: bool,
                                   metadataRemoved: bool, planRemoved: bool, preview: string, previewOk: bool)

  /** What `Stage` renders, if it gets past all its checks. */
  function Rendered(env: Env, d: Disk, input: StageInput): Option<string> {
    var stored := ReadState(d);
    if input.tx.None? || stored.None? || d.config.None? || !input.snapshotsOk || !input.stageDirOk then None
    else
      var tx := input.tx.value;
      var state := StateForChannel(stored.value, tx.channel);
      if ValidateFreshness(state, tx, RollbackAllowed(state, tx)) != Fresh then None
      else env.rewrite(d.config.value.bytes, env.repositories(tx.digest))
  }

  function StagedMetadata(env: Env, d: Disk, input: StageInput): Metadata
    requires input.tx.Some? && d.config.Some?
  {
    Metadata(1, input.tx.value.digest, input.tx.value.channel, env.sha(d.config.value.bytes), env.sha(input.preview))
  }

  /** The disks after each of its writes. */
  function StageWrites(env: Env, d: Disk, input: StageInput, rendered: string): seq<Disk>
    requires input.tx.Some? && d.config.Some?
  {
    var d1 := if input.metadataRemoved then d.(metadata := None) else d;
    var d2 := if input.planRemoved then d1.(plan := None) else d1;
    var d3 := d2.(staged := Some(rendered));
    var d4 := d3.(plan := Some(input.preview));
    [d1, d2, d3, d4] + if input.previewOk then [d4.(metadata := Some(StagedMetadata(env, d, input)))] else []
  }

  function StageDisks(env: Env, d: Disk, input: StageInput): seq<Disk> {
    var r := RecoverDisks(env, d);
    var e := Last(r);
    if e.marker.Some? || Rendered(env, e, input).None? then r
    else r + StageWrites(env, e, input, Rendered(env, e, input).value)
  }

  /** `tx` is what the staged manifest URL resolves to now. */
  datatype ApplyInput = ApplyInput(tx: Option<Transaction>, snapshotsOk: bool, pacmanOk: bool, now: int)

  predicate ApplyAdmits(env: Env, d: Disk, input: ApplyInput) {
    var stored := ReadState(d);
    && d.metadata.Some? && input.tx.Some? && stored.Some?
    && d.config.Some? && d.plan.Some? && d.staged.Some?
    && var m, tx := d.metadata.value, input.tx.value;
       var state := StateForChannel(stored.value, tx.channel);
    && m.schemaVersion == 1 && m.manifestSha != "" && tx.digest == m.manifestSha
    && (m.channel != "" ==> m.channel == tx.channel)
    && ValidateFreshness(state, tx, RollbackAllowed(state, tx)) == Fresh
    && env.sha(d.config.value.bytes) == m.baseConfigSha
    && m.planSha != "" && env.sha(d.plan.value) == m.planSha
    && input.snapshotsOk && input.pacmanOk
  }

  function CommitOf(env: Env, d: Disk, input: ApplyInput): Commit
    requires input.tx.Some? && d.staged.Some?
  {
    Commit(input.tx.value, input.now, env.sha(d.staged.value))
  }

  /** The disk once the commit marker is written. */
  function Marked(env: Env, d: Disk, input: ApplyInput): Disk
    requires ApplyAdmits(env, d, input)
  {
    d.(marker := Some(Marker(1, d.config.value.mode, After(ReadState(d).value, CommitOf(env, d, input)))))
  }

  function ApplyDisks(env: Env, d: Disk, input: ApplyInput): seq<Disk> {
    var r := RecoverDisks(env, d);
    var e := Last(r);
    if e.marker.Some? || !ApplyAdmits(env, e, input) then r
    else r + RecoverDisks(env, Marked(env, e, input))
  }

  // ----- the programs, crashing after a given number of writes -----

  datatype Outcome = Crashed | Failed | Done

  function Upto(disks: seq<Disk>, writes: nat): Disk
    requires disks != []
  {
    if writes < |disks| then disks[writes] else Last(disks)
  }

  class Machine {
    var disk: Disk
    /** Atomic writes left before the crash. */
    var writes: nat

    constructor (disk: Disk, writes: nat)
      ensures this.disk == disk && this.writes == writes
    {
      this.disk, this.writes := disk, writes;
    }

    /** One atomic replacement or removal. */
    method Write(next: Disk) returns (alive: bool)
      modifies this
      ensures alive == (old(writes) > 0)
      ensures disk == (if alive then next else old(disk)) && writes == (if alive then old(writes) - 1 else 0)
    {
      alive := writes > 0;
      if alive {
        disk, writes := next, writes - 1;
      }
    }

    method RecoverPending(env: Env) returns (r: Outcome)
      modifies this
      ensures var t := RecoverDisks(env, old(disk));
              && disk == Upto(t, old(writes))
              && (r == Crashed <==> old(writes) < |t| - 1)
              && (r == Done <==> old(writes) >= |t| - 1 && Last(t).marker.None?)
              && (r != Crashed ==> writes == old(writes) - (|t| - 1))
    {
      if disk.marker.None? {
        return Done;
      }
      var m := disk.marker.value;
      if m.schemaVersion != 1 || disk.staged.None? {
        return Failed;
      }
      var config := disk.staged.value;
      if m.state.entry.configSha == "" || env.sha(config) != m.state.entry.configSha {
        return Failed;
      }
      var mode := m.configMode;
      if mode == 0 {
        mode := 0x1A4;
      }
      var alive := Write(disk.(config := Some(File(config, mode))));
      if !alive {
        return Crashed;
      }
      alive := Write(disk.(state := Some(m.state)));
      if !alive {
        return Crashed;
      }
      alive := Write(disk.(marker := None));
      if !alive {
        return Crashed;
      }
      return Done;
    }

    /** The checks of `Stage`, and what it renders if none fails. */
    method Render(env: Env, input: StageInput) returns (rendered: Option<string>)
      ensures rendered == Rendered(env, disk, input)
    {
      if input.tx.None? {
        return None;
      }
      var tx, stored := input.tx.value, ReadState(disk);
      if stored.None? {
        return None;
      }
      var state := StateForChannel(stored.value, tx.channel);
      var rollbackAuthorized := RollbackAllowed(state, tx);
      if ValidateFreshness(state, tx, rollbackAuthorized) != Fresh {
        return None;
      }
      if disk.config.None? {
        return None;
      }
      rendered := env.rewrite(disk.config.value.bytes, env.repositories(tx.digest));
      if rendered.None? {
        return None;
      }
      if !input.snapshotsOk || !input.stageDirOk {
        return None;
      }
    }

    /** The checks of `Apply`, the run of pacman being the last. */
    method Admit(env: Env, input: ApplyInput) returns (ok: bool)
      ensures ok == ApplyAdmits(env, disk, input)
    {
      if disk.metadata.None? || disk.metadata.value.schemaVersion != 1 {
        return false;
      }
      var metadata := disk.metadata.value;
      if metadata.manifestSha == "" || input.tx.None? {
        return false;
      }
      var tx := input.tx.value;
      if tx.digest != metadata.manifestSha {
        return false;
      }
      if metadata.channel != "" && metadata.channel != tx.channel {
        return false;
      }
      var stored := ReadState(disk);
      if stored.None? {
        return false;
      }
      var state := StateForChannel(stored.value, tx.channel);
      var rollbackAuthorized := RollbackAllowed(state, tx);
      if ValidateFreshness(state, tx, rollbackAuthorized) != Fresh {
        return false;
      }
      if disk.config.None? || env.sha(disk.config.value.bytes) != metadata.baseConfigSha {
        return false;
      }
      if metadata.planSha == "" || disk.plan.None? || env.sha(disk.plan.value) != metadata.planSha {
        return false;
      }
      if disk.staged.None? {
        return false;
      }
      return input.snapshotsOk && input.pacmanOk;
    }

    method Stage(env: Env, input: StageInput) returns (r: Outcome)
      modifies this
      ensures disk == Upto(StageDisks(env, old(disk), input), old(writes))
      ensures var e := Last(RecoverDisks(env, old(disk)));
              r == Done <==> old(writes) >= |StageDisks(env, old(disk), input)| - 1 &&
                             e.marker.None? && Rendered(env, e, input).Some? && input.previewOk
    {
      r := RecoverPending(env);
      if r != Done {
        return;
      }
      var rendered := Render(env, input);
      if rendered.None? {
        return Failed;
      }
      var metadata := StagedMetadata(env, disk, input);
      var alive := Write(if input.metadataRemoved then disk.(metadata := None) else disk);
      if !alive {
        return Crashed;
      }
      alive := Write(if input.planRemoved then disk.(plan := None) else disk);
      if !alive {
        return Crashed;
      }
      alive := Write(disk.(staged := rendered));
      if !alive {
        return Crashed;
      }
      alive := Write(disk.(plan := Some(input.preview)));
      if !alive {
        return Crashed;
      }
      if !input.previewOk {
        return Failed;
      }
      alive := Write(disk.(metadata := Some(metadata)));
      return if alive then Done else Crashed;
    }

    method Apply(env: Env, input: ApplyInput) returns (r: Outcome)
      modifies this
      ensures disk == Upto(ApplyDisks(env, old(disk), input), old(writes))
      ensures var e := Last(RecoverDisks(env, old(disk)));
              r == Done <==> e.marker.None? && ApplyAdmits(env, e, input) && disk.marker.None? &&
                             old(writes) >= |ApplyDisks(env, old(disk), input)| - 1
    {
      r := RecoverPending(env);
      if r != Done {
        return;
      }
      var admitted := Admit(env, input);
      if !admitted {
        return Failed;
      }
      var stored := new StoredState(ReadState(disk).value);
      var channel := input.tx.value.channel;
      var state := StateForChannel(stored.state, channel);
      var newConfig := disk.staged.value;
      stored.SaveChannelState(channel, Applied(state, input.tx.value, input.now, env.sha(newConfig)));
      var alive := Write(disk.(marker := Some(Marker(1, disk.config.value.mode, stored.state))));
      if !alive {
        return Crashed;
      }
      r := RecoverPending(env);
    }
  }

  // ----- what is true of every disk a client can leave behind -----

  /** Digests are 64 hex characters, and no two of the configurations that occur collide. */
  ghost predicate Hashes(env: Env, texts: set<string>) {
    && (forall s :: IsSha256(env.sha(s)))
    && (forall s, t :: s in texts && t in texts && env.sha(s) == env.sha(t) ==> s == t)
  }

  /** The configuration that an operation finds once it has recovered. */
  function Found(env: Env, d: Disk): set<string> {
    var e := Last(RecoverDisks(env, d));
    if e.config.Some? then {e.config.value.bytes} else {}
  }

  ghost predicate StagedFrom(env: Env, d: Disk, base: string)
    requires d.metadata.Some?
  {
    && env.sha(base) == d.metadata.value.baseConfigSha
    && env.rewrite(base, env.repositories(d.metadata.value.manifestSha)) == d.staged
    && d.staged.Some?
  }

  /** Metadata on disk vouches for what lies beside it: its plan digest is that of the plan, and the
      staged configuration is the rewrite, for its manifest, of a configuration with its digest. */
  ghost predicate Coherent(env: Env, texts: set<string>, d: Disk) {
    d.metadata.Some? ==>
      && d.plan.Some? && env.sha(d.plan.value) == d.metadata.value.planSha
      && exists base :: base in texts && StagedFrom(env, d, base)
  }

  ghost predicate Inv(env: Env, texts: set<string>, d: Disk) {
    && Coherent(env, texts, d)
    && (d.state.Some? ==> Readable(d.state.value) && Keyed(d.state.value))
    && (d.marker.Some? ==> Recoverable(env, d) && Readable(d.marker.value.state) && Keyed(d.marker.value.state))
  }

  /** The pair a client observes once recovery is over. */
  datatype Pair = Pair(config: Option<File>, state: Option<LocalState>)

  function Committed(d: Disk): Pair {
    if d.marker.None? || d.staged.None? then Pair(d.config, d.state)
    else Pair(Some(RecoveredConfig(d)), Some(d.marker.value.state))
  }

  /** At every point of a recovery the committed pair is the same and recovery remains possible;
      at its end the files are that pair. So recovering again changes nothing, and recovering
      after a crash in mid-recovery ends the same way. */
  lemma RecoveryIsAtomic(env: Env, texts: set<string>, d: Disk, i: nat)
    requires Inv(env, texts, d) && i < |RecoverDisks(env, d)|
    ensures var disks := RecoverDisks(env, d);
            && Inv(env, texts, disks[i]) && Committed(disks[i]) == Committed(d)
            && Last(disks).marker.None? && Pair(Last(disks).config, Last(disks).state) == Committed(d)
            && Last(RecoverDisks(env, disks[i])) == Last(disks)
            && RecoverDisks(env, Last(disks)) == [Last(disks)]
  {
    var e := RecoverDisks(env, d)[i];
    assert e.metadata == d.metadata && e.staged == d.staged && e.plan == d.plan;
    if d.metadata.Some? {
      var base :| base in texts && StagedFrom(env, d, base);
      assert StagedFrom(env, e, base);
    }
  }

  lemma CoherentIsLocal(env: Env, texts: set<string>, d: Disk, e: Disk)
    requires Coherent(env, texts, d) && e.metadata == d.metadata && e.staged == d.staged && e.plan == d.plan
    ensures Coherent(env, texts, e)
  {
    if d.metadata.Some? {
      var base :| base in texts && StagedFrom(env, d, base);
      assert StagedFrom(env, e, base);
    }
  }

  /** Wherever staging stops, the committed pair is untouched and metadata vouches, provided that
      the metadata of an earlier stage could be removed. */
  lemma StageKeepsCommitted(env: Env, texts: set<string>, d: Disk, input: StageInput, i: nat)
    requires Inv(env, texts, d) && i < |StageDisks(env, d, input)|
    requires Found(env, d) <= texts && input.metadataRemoved
    ensures Inv(env, texts, StageDisks(env, d, input)[i])
    ensures Committed(StageDisks(env, d, input)[i]) == Committed(d)
  {
    var r := RecoverDisks(env, d);
    var e := Last(r);
    RecoveryIsAtomic(env, texts, d, |r| - 1);
    if i < |r| {
      RecoveryIsAtomic(env, texts, d, i);
    } else {
      var f := StageDisks(env, d, input)[i];
      if f.metadata.Some? {
        assert StagedFrom(env, f, e.config.value.bytes);
      }
    }
  }

  /** Wherever applying stops, the committed pair is the old one, or the new one in full: the
      rewrite of exactly the bytes found, for the resolved manifest, with the state that records
      this commit. Which of the two is decided by the write of the marker alone. */
  lemma ApplyIsAtomic(env: Env, texts: set<string>, d: Disk, input: ApplyInput, i: nat)
    requires Hashes(env, texts) && Found(env, d) <= texts && Inv(env, texts, d) && i < |ApplyDisks(env, d, input)|
    requires input.tx.Some? ==> Valid(input.tx.value)
    ensures Inv(env, texts, ApplyDisks(env, d, input)[i])
    ensures i < |RecoverDisks(env, d)| ==> Committed(ApplyDisks(env, d, input)[i]) == Committed(d)
    ensures i >= |RecoverDisks(env, d)| ==>
              var e := Last(RecoverDisks(env, d));
              && ApplyAdmits(env, e, input) && Admissible(ReadState(e).value, CommitOf(env, e, input))
              && var new_ := Committed(ApplyDisks(env, d, input)[i]);
                 && new_.state == Some(After(ReadState(e).value, CommitOf(env, e, input)))
                 && new_.config.Some?
                 && env.rewrite(e.config.value.bytes,
                                env.repositories(input.tx.value.digest)) == Some(new_.config.value.bytes)
  {
    var r := RecoverDisks(env, d);
    var e := Last(r);
    RecoveryIsAtomic(env, texts, d, |r| - 1);
    if i < |r| {
      RecoveryIsAtomic(env, texts, d, i);
    } else {
      var m := Marked(env, e, input);
      CoherentIsLocal(env, texts, e, m);
      MarkedIsRecoverable(env, texts, e, input);
      RecoveryIsAtomic(env, texts, m, i - |r|);
      var base :| base in texts && StagedFrom(env, e, base);
      assert base == e.config.value.bytes;
    }
  }

  /** Recovery never meets a staged configuration whose digest differs from the marker's. */
  lemma MarkedIsRecoverable(env: Env, texts: set<string>, e: Disk, input: ApplyInput)
    requires Hashes(env, texts) && ApplyAdmits(env, e, input) && Valid(input.tx.value)
    ensures Recoverable(env, Marked(env, e, input))
    ensures Readable(Marked(env, e, input).marker.value.state) && Keyed(Marked(env, e, input).marker.value.state)
  {
    assert IsSha256(env.sha(e.staged.value));
  }

  /** When neither removal takes effect, the disk with the new staged configuration still vouches
      for itself exactly if that configuration is the one already staged. */
  lemma UnremovedMetadataIff(env: Env, texts: set<string>, d: Disk, input: StageInput)
    requires Hashes(env, texts) && Inv(env, texts, d) && d.marker.None? && d.metadata.Some?
    requires Rendered(env, d, input).Some? && !input.metadataRemoved && !input.planRemoved
    ensures Coherent(env, texts, StageDisks(env, d, input)[3]) <==> Rendered(env, d, input) == d.staged
  {
    var e := StageDisks(env, d, input)[3];
    assert e == d.(staged := Rendered(env, d, input));
    var base :| base in texts && StagedFrom(env, d, base);
    if Coherent(env, texts, e) {
      var other :| other in texts && StagedFrom(env, e, other);
      assert other == base;
    }
  }

  /** If Apply then runs and admits that disk, it installs the newly staged configuration under the
      name of the old manifest: this is the old manifest's rewrite exactly in the same case. */
  lemma UnremovedInstalls(env: Env, texts: set<string>, d: Disk, input: StageInput, apply: ApplyInput)
    requires Hashes(env, texts) && Inv(env, texts, d) && Found(env, d) <= texts && d.marker.None? && d.metadata.Some?
    requires Rendered(env, d, input).Some? && !input.metadataRemoved && !input.planRemoved
    requires ApplyAdmits(env, StageDisks(env, d, input)[3], apply) && Valid(apply.tx.value)
    ensures var installed := Committed(Last(ApplyDisks(env, StageDisks(env, d, input)[3], apply)));
            && apply.tx.value.digest == d.metadata.value.manifestSha
            && installed.config.Some? && d.config.Some? && Some(installed.config.value.bytes) == Rendered(env, d, input)
            && (env.rewrite(d.config.value.bytes,
                            env.repositories(apply.tx.value.digest)) == Some(installed.config.value.bytes)
                <==> Rendered(env, d, input) == d.staged)
  {
    var e := StageDisks(env, d, input)[3];
    assert e == d.(staged := Rendered(env, d, input));
    MarkedIsRecoverable(env, texts, e, apply);
    var base :| base in texts && StagedFrom(env, d, base);
    assert base == d.config.value.bytes;
  }

  function ExampleTransaction(digit: char, sequence: nat): (tx: Transaction)
    requires IsHex(digit) && sequence > 0
    ensures Valid(tx) && tx.channel == "stable" && tx.digest == seq(64, _ => digit)
  {
    var digest := seq(64, _ => digit);
    Transaction(digest, "stable", "", "", "", "", sequence,
                ManifestRef(digest, sequence), ManifestRef(digest, sequence), Recovery("", None, false, ""))
  }

  function FirstName(repositories: seq<Repository>): string {
    if repositories == [] then "" else repositories[0].name
  }

  /** Whatever the hash, there is a disk on which that second case happens: the configuration that Apply
      installs for the old manifest was rendered for the new one. */
  lemma ForeignInstalled(sha: string -> string)
    returns (env: Env, texts: set<string>, d: Disk, input: StageInput, apply: ApplyInput)
    requires forall s :: IsSha256(sha(s))
    ensures env.sha == sha && Hashes(env, texts) && Inv(env, texts, d) && Found(env, d) <= texts
    ensures d.marker.None? && d.metadata.Some? && Rendered(env, d, input).Some?
    ensures !input.metadataRemoved && !input.planRemoved
    ensures ApplyAdmits(env, StageDisks(env, d, input)[3], apply) && Valid(apply.tx.value)
    ensures var installed := Committed(Last(ApplyDisks(env, StageDisks(env, d, input)[3], apply))).config;
            && installed.Some? && d.config.Some?
            && env.rewrite(d.config.value.bytes,
                           env.repositories(apply.tx.value.digest)) != Some(installed.value.bytes)
  {
    var older, newer := ExampleTransaction('1', 1), ExampleTransaction('2', 2);
    env := Env(sha, (config, repositories) => Some(config + FirstName(repositories)), d => [Repository(d, "")]);
    assert older.digest[0] != newer.digest[0] && ("c" + older.digest)[1] != ("c" + newer.digest)[1];
    texts := {"c"};
    d := Disk(Some(File("c", 0)), None, None, Some("c" + older.digest), Some("plan"),
              Some(Metadata(1, older.digest, "stable", sha("c"), sha("plan"))));
    input := StageInput(Some(newer), true, true, false, false, "", true);
    apply := ApplyInput(Some(older), true, true, 0);
    assert StagedFrom(env, d, "c");
    UnremovedInstalls(env, texts, d, input, apply);
  }

  /** When only the metadata stays, Apply refuses until the new plan is there, and then admits it exactly
      if it has the digest of the old plan and Apply would have admitted the disk before. */
  lemma MetadataAlone(env: Env, texts: set<string>, d: Disk, input: StageInput, apply: ApplyInput)
    requires Inv(env, texts, d) && d.marker.None? && d.metadata.Some? && Rendered(env, d, input).Some?
    requires !input.metadataRemoved && input.planRemoved
    ensures var disks := StageDisks(env, d, input);
            && !ApplyAdmits(env, disks[2], apply) && !ApplyAdmits(env, disks[3], apply)
            && (ApplyAdmits(env, disks[4], apply) <==>
                  env.sha(input.preview) == d.metadata.value.planSha && ApplyAdmits(env, d, apply))
  {
    var disks := StageDisks(env, d, input);
    assert disks[2].plan.None? && disks[3].plan.None?;
    assert disks[4] == d.(staged := Rendered(env, d, input), plan := Some(input.preview));
  }

  // ----- whole runs refine an atomic installer -----

  /** Users may edit the configuration, but not while a commit is pending. */
  datatype Op = DoStage(stage: StageInput) | DoApply(apply: ApplyInput) | Edit(file: File)

  /** An operation that is cut short after `writes` writes, if it takes more. */
  datatype Event = Event(op: Op, writes: nat)

  function OpDisks(env: Env, d: Disk, op: Op): (disks: seq<Disk>)
    ensures disks != []
  {
    match op
    case DoStage(input) => StageDisks(env, d, input)
    case DoApply(input) => ApplyDisks(env, d, input)
    case Edit(file) => if d.marker.None? then [d, d.(config := Some(file))] else [d]
  }

  function Play(env: Env, d: Disk, events: seq<Event>): Disk {
    if events == [] then d
    else
      var event := events[|events| - 1];
      Upto(OpDisks(env, Play(env, d, events[..|events| - 1]), event.op), event.writes)
  }

  /** The removals of earlier metadata take effect, and resolved transactions are valid. */
  predicate Proper(op: Op) {
    match op
    case DoStage(input) => input.metadataRemoved
    case DoApply(input) => input.tx.Some? ==> Valid(input.tx.value)
    case Edit(_) => true
  }

  /** The atomic installer: it does nothing, accepts an edit, or commits in one step. */
  datatype AtomicEvent = Idle | Edited(file: File) | Commits(commit: Commit)

  function AtomicStep(env: Env, pair: Pair, event: AtomicEvent): Option<Pair> {
    match event
    case Idle => Some(pair)
    case Edited(file) => Some(pair.(config := Some(file)))
    case Commits(c) =>
      var state := if pair.state.Some? then pair.state.value else NO_STATE;
      if pair.config.None? || !Admissible(state, c) then None
      else
        var bytes := env.rewrite(pair.config.value.bytes, env.repositories(c.tx.digest));
        if bytes.None? || env.sha(bytes.value) != c.configSha then None
        else
          var mode := pair.config.value.mode;
          Some(Pair(Some(File(bytes.value, if mode == 0 then 0x1A4 else mode)), Some(After(state, c))))
  }

  function Abstract(env: Env, d: Disk, event: Event): AtomicEvent {
    match event.op
    case DoStage(_) => Idle
    case Edit(file) => if d.marker.None? && event.writes > 0 then Edited(file) else Idle
    case DoApply(input) =>
      var r := RecoverDisks(env, d);
      if event.writes < |r| || |ApplyDisks(env, d, input)| == |r| || input.tx.None? || Last(r).staged.None? then Idle
      else Commits(CommitOf(env, Last(r), input))
  }

  /** Every operation, wherever it stops, is one step of the atomic installer. */
  lemma EventIsAtomic(env: Env, texts: set<string>, d: Disk, event: Event)
    requires Hashes(env, texts) && Found(env, d) <= texts && Inv(env, texts, d) && Proper(event.op)
    ensures var e := Upto(OpDisks(env, d, event.op), event.writes);
            Inv(env, texts, e) && AtomicStep(env, Committed(d), Abstract(env, d, event)) == Some(Committed(e))
  {
    var disks := OpDisks(env, d, event.op);
    match event.op
    case DoStage(input) =>
      StageKeepsCommitted(env, texts, d, input, if event.writes < |disks| then event.writes else |disks| - 1);
    case Edit(file) => if d.marker.None? { CoherentIsLocal(env, texts, d, d.(config := Some(file))); }
    case DoApply(input) => ApplyEventIsAtomic(env, texts, d, input, event);
  }

  lemma ApplyEventIsAtomic(env: Env, texts: set<string>, d: Disk, input: ApplyInput, event: Event)
    requires Hashes(env, texts) && Found(env, d) <= texts && Inv(env, texts, d) && event.op == DoApply(input)
    requires Proper(event.op)
    ensures var e := Upto(ApplyDisks(env, d, input), event.writes);
            Inv(env, texts, e) && AtomicStep(env, Committed(d), Abstract(env, d, event)) == Some(Committed(e))
  {
    var disks, r := ApplyDisks(env, d, input), RecoverDisks(env, d);
    var i := if event.writes < |disks| then event.writes else |disks| - 1;
    ApplyIsAtomic(env, texts, d, input, i);
    RecoveryIsAtomic(env, texts, d, |r| - 1);
    if i >= |r| {
      ApplyInstalls(env, texts, d, input, i);
      InstalledIsCommit(env, Last(r), input, Committed(disks[i]));
    }
  }

  /** Those two files are what the atomic installer's commit makes of the recovered pair. */
  lemma InstalledIsCommit(env: Env, e: Disk, input: ApplyInput, pair: Pair)
    requires ApplyAdmits(env, e, input) && Admissible(ReadState(e).value, CommitOf(env, e, input))
    requires pair == Pair(Some(RecoveredConfig(Marked(env, e, input))),
                          Some(After(ReadState(e).value, CommitOf(env, e, input))))
    requires env.rewrite(e.config.value.bytes, env.repositories(input.tx.value.digest)) == e.staged
    ensures AtomicStep(env, Pair(e.config, e.state), Commits(CommitOf(env, e, input))) == Some(pair)
  {
  }

  lemma ApplyInstalls(env: Env, texts: set<string>, d: Disk, input: ApplyInput, i: nat)
    requires Hashes(env, texts) && Inv(env, texts, d) && |RecoverDisks(env, d)| <= i < |ApplyDisks(env, d, input)|
    requires input.tx.Some? ==> Valid(input.tx.value)
    ensures var e := Last(RecoverDisks(env, d));
            && ApplyAdmits(env, e, input)
            && Committed(ApplyDisks(env, d, input)[i]).config == Some(RecoveredConfig(Marked(env, e, input)))
  {
    var r := RecoverDisks(env, d);
    var e := Last(r);
    RecoveryIsAtomic(env, texts, d, |r| - 1);
    MarkedIsRecoverable(env, texts, e, input);
    CoherentIsLocal(env, texts, e, Marked(env, e, input));
    RecoveryIsAtomic(env, texts, Marked(env, e, input), i - |r|);
  }

  function AtomicPlay(env: Env, pair: Pair, trace: seq<AtomicEvent>): Option<Pair> {
    if trace == [] then Some(pair)
    else
      var before := AtomicPlay(env, pair, trace[..|trace| - 1]);
      if before.None? then None else AtomicStep(env, before.value, trace[|trace| - 1])
  }

  function Trace(env: Env, d: Disk, events: seq<Event>): seq<AtomicEvent> {
    if events == [] then []
    else
      var before := events[..|events| - 1];
      Trace(env, d, before) + [Abstract(env, Play(env, d, before), events[|events| - 1])]
  }

  function CommitsIn(trace: seq<AtomicEvent>): seq<Commit> {
    if trace == [] then []
    else
      var last := trace[|trace| - 1];
      CommitsIn(trace[..|trace| - 1]) + if last.Commits? then [last.commit] else []
  }

  /** A disk on which no client has run: whatever configuration, and no state. */
  predicate Untouched(d: Disk) {
    d.state.None? && d.marker.None? && d.metadata.None?
  }

  /** The configurations that the operations of a run find. */
  function Configurations(env: Env, d: Disk, events: seq<Event>): set<string> {
    if events == [] then {}
    else
      var before := events[..|events| - 1];
      Configurations(env, d, before) + Found(env, Play(env, d, before))
  }

  ghost predicate Setting(env: Env, texts: set<string>, d: Disk, events: seq<Event>) {
    && Untouched(d) && (forall event :: event in events ==> Proper(event.op))
    && Hashes(env, texts) && Configurations(env, d, events) <= texts
  }

  function StoredAfter(run: seq<Commit>): Option<LocalState> {
    if run == [] then None else Some(StateAfter(run))
  }

  /** Every run of the atomic installer commits a run of admissible transactions. */
  lemma {:induction false} AtomicPlayIsRun(env: Env, pair: Pair, trace: seq<AtomicEvent>)
    requires pair.state.None? && AtomicPlay(env, pair, trace).Some?
    ensures IsRun(CommitsIn(trace))
    ensures AtomicPlay(env, pair, trace).value.state == StoredAfter(CommitsIn(trace))
  {
    if trace != [] {
      var before, last := trace[..|trace| - 1], trace[|trace| - 1];
      AtomicPlayIsRun(env, pair, before);
      if last.Commits? {
        var run := CommitsIn(before);
        assert (run + [last.commit])[..|run|] == run;
      } else {
        assert CommitsIn(before) + [] == CommitsIn(before);
      }
    }
  }

  /** The protocol refines the atomic installer: after any operations, each cut short anywhere, the
      disk keeps its invariant, the committed pair is what the installer holds after the abstract
      events, and the stored state is the one after the run of committed transactions, so that the
      guarantees of such runs apply. */
  lemma {:induction false} RunRefinesAtomic(env: Env, texts: set<string>, d: Disk, events: seq<Event>)
    requires Setting(env, texts, d, events)
    ensures Inv(env, texts, Play(env, d, events))
    ensures AtomicPlay(env, Committed(d), Trace(env, d, events)) == Some(Committed(Play(env, d, events)))
    ensures IsRun(CommitsIn(Trace(env, d, events)))
    ensures Committed(Play(env, d, events)).state == StoredAfter(CommitsIn(Trace(env, d, events)))
  {
    if events != [] {
      var before, last := events[..|events| - 1], events[|events| - 1];
      assert events == before + [last];
      RunRefinesAtomic(env, texts, d, before);
      EventIsAtomic(env, texts, Play(env, d, before), last);
      var trace := Trace(env, d, before);
      var step := Abstract(env, Play(env, d, before), last);
      assert (trace + [step])[..|trace|] == trace;
    }
    AtomicPlayIsRun(env, Committed(d), Trace(env, d, events));
  }

  /** Whenever an operation gets past its opening recovery, the two files are the committed pair. */
  lemma PastRecoveryAllOrNothing(env: Env, texts: set<string>, d: Disk, events: seq<Event>)
    requires Setting(env, texts, d, events)
    ensures var e := Last(RecoverDisks(env, Play(env, d, events)));
            && e.marker.None?
            && AtomicPlay(env, Committed(d), Trace(env, d, events)) == Some(Pair(e.config, e.state))
            && (e.state.Some? ==> ReadState(e).Some?)
  {
    RunRefinesAtomic(env, texts, d, events);
    var last := Play(env, d, events);
    RecoveryIsAtomic(env, texts, last, |RecoverDisks(env, last)| - 1);
  }

  /** And no staged manifest is committed twice, as signed bytes determine their transaction. */
  lemma NoManifestCommitsTwice(env: Env, texts: set<string>, d: Disk, events: seq<Event>, i: nat, j: nat)
    requires Setting(env, texts, d, events)
    requires var run := CommitsIn(Trace(env, d, events));
             && i < j < |run|
             && (run[i].tx.digest == run[j].tx.digest ==> run[i].tx == run[j].tx)
    ensures var run := CommitsIn(Trace(env, d, events));
            run[i].tx.digest != run[j].tx.digest
  {
    RunRefinesAtomic(env, texts, d, events);
    CommittedOnce(CommitsIn(Trace(env, d, events)), i, j);
  }
}
