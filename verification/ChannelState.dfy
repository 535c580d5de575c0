/** Per-channel high-water marks of omarchy/manifest-client/client.go: what is stored, what a new
    transaction must satisfy, and what holds over any run of commits. */
module ChannelState {
  import opened Hexadecimal
  import opened SystemVersion
  import opened Values

  datatype ManifestRef = ManifestRef(digest: string, sequence: nat)

  datatype Recovery = Recovery(fromDigest: string, target: Option<string>, authorized: bool, reason: string)

  /** A resolved, signature-checked transaction; `digest` is that of its signed bytes. */
  datatype Transaction = Transaction(
    digest: string, channel: string, releaseId: string, architecture: string,
    version: string, generation: string, sequence: nat,
    system: ManifestRef, opr: ManifestRef, recovery: Recovery)

  /** The fields that the source's `ChannelState` and `LocalState` share, except the recovery
      limits, which are only shown to users. */
  datatype ChannelState = ChannelState(
    manifestSha: string, releaseId: string, systemVersion: string, oprGeneration: string,
    systemSha: string, oprSha: string, architecture: string,
    sequence: nat, systemSequence: nat, oprSequence: nat,
    appliedAt: int, configSha: string, recoveryTarget: string)

  const NO_CHANNEL_STATE := ChannelState("", "", "", "", "", "", "", 0, 0, 0, 0, "", "")

  /** `channels` is None for the layout without a `channels` object. */
  datatype LocalState = LocalState(
    schemaVersion: int, entry: ChannelState, channel: string, channels: Option<map<string, ChannelState>>)

  /** What an absent state file reads as. */
  const NO_STATE := LocalState(0, NO_CHANNEL_STATE, "", None)

  function LocalStateFromChannel(selected: ChannelState): LocalState {
    LocalState(1, selected, "", None)
  }

  function StateForChannel(state: LocalState, channel: string): LocalState {
    if channel != "" && state.channels.Some? && channel in state.channels.value then
      LocalStateFromChannel(state.channels.value[channel])
    else if state.channel == channel || (state.channel == "" && channel == "stable") then state
    else NO_STATE
  }

  function Saved(state: LocalState, channel: string, selected: LocalState): LocalState {
    var channels := if state.channels.Some? then state.channels.value else map[];
    LocalState(selected.schemaVersion, selected.entry, channel, Some(channels[channel := selected.entry]))
  }

  function RollbackAllowed(state: LocalState, tx: Transaction): bool {
    && tx.recovery.authorized && tx.recovery.reason != "" && tx.recovery.target.Some?
    && state.entry.manifestSha != "" && tx.recovery.fromDigest == state.entry.manifestSha
    && tx.sequence > state.entry.sequence
  }

  datatype Freshness =
    | Fresh | WrongArchitecture | NotNewer | SystemBackwards | SystemReused | OprBackwards | OprReused | Downgrade

  function ValidateFreshness(state: LocalState, tx: Transaction, rollbackAuthorized: bool): Freshness {
    var s := state.entry;
    if state.schemaVersion == 0 then Fresh
    else if s.architecture != tx.architecture then WrongArchitecture
    else if tx.sequence <= s.sequence then NotNewer
    else if tx.system.sequence < s.systemSequence && (s.systemSha == "" || tx.system.digest != s.systemSha)
          && !rollbackAuthorized
      then SystemBackwards
    else if tx.system.sequence == s.systemSequence && s.systemSha != "" && tx.system.digest != s.systemSha
          && !rollbackAuthorized
      then SystemReused
    else if tx.opr.sequence < s.oprSequence && (s.oprSha == "" || tx.opr.digest != s.oprSha) && !rollbackAuthorized
      then OprBackwards
    else if tx.opr.sequence == s.oprSequence && s.oprSha != "" && tx.opr.digest != s.oprSha && !rollbackAuthorized
      then OprReused
    else if s.systemVersion != "" && Order(tx.version, s.systemVersion) < 0 && !rollbackAuthorized then Downgrade
    else Fresh
  }

  /** The checks of `validateTransactionFields` that the marks rely on. */
  predicate Valid(tx: Transaction) {
    && tx.channel in {"stable", "rc", "edge"} && tx.sequence > 0
    && IsSha256(tx.digest) && IsSha256(tx.system.digest) && IsSha256(tx.opr.digest)
  }

  function Max(a: nat, b: nat): nat {
    if a > b then a else b
  }

  /** The state `Apply` records for a channel whose state was `state`. */
  function Applied(state: LocalState, tx: Transaction, now: int, configSha: string): LocalState {
    var target := if tx.recovery.target.Some? then tx.recovery.target.value else tx.recovery.fromDigest;
    LocalState(1, ChannelState(
      tx.digest, tx.releaseId, tx.version, tx.generation, tx.system.digest, tx.opr.digest, tx.architecture,
      tx.sequence, Max(tx.system.sequence, state.entry.systemSequence), Max(tx.opr.sequence, state.entry.oprSequence),
      now, configSha, target), tx.channel, None)
  }

  // ----- the stored state as the object that `Apply` updates -----

  class StoredState {
    var state: LocalState

    constructor (initial: LocalState)
      ensures state == initial
    {
      state := initial;
    }

    /** Field by field, as the source does it. */
    method SaveChannelState(channel: string, selected: LocalState)
      modifies this
      ensures state == Saved(old(state), channel, selected)
      // Reading back gives the saved entry, and every other keyed channel as it was.
      ensures channel != "" && selected.schemaVersion == 1 ==>
                StateForChannel(state, channel) == LocalStateFromChannel(selected.entry)
      ensures forall other | other != channel && other != "" && EntryOf(old(state), other).Some? ::
                StateForChannel(state, other) == StateForChannel(old(state), other)
    {
      if state.channels.None? {
        state := state.(channels := Some(map[]));
      }
      state := state.(channels := Some(state.channels.value[channel := selected.entry]));
      state := state.(channel := channel);
      state := state.(schemaVersion := selected.schemaVersion);
      state := state.(entry := selected.entry);
    }
  }

  // ----- runs of commits -----

  datatype Commit = Commit(tx: Transaction, now: int, configSha: string)

  function After(state: LocalState, c: Commit): LocalState {
    Saved(state, c.tx.channel, Applied(StateForChannel(state, c.tx.channel), c.tx, c.now, c.configSha))
  }

  predicate Authorized(state: LocalState, c: Commit) {
    RollbackAllowed(StateForChannel(state, c.tx.channel), c.tx)
  }

  predicate Admissible(state: LocalState, c: Commit) {
    && Valid(c.tx)
    && ValidateFreshness(StateForChannel(state, c.tx.channel), c.tx, Authorized(state, c)) == Fresh
  }

  /** The stored state after a run of commits from an absent file. */
  function StateAfter(run: seq<Commit>): LocalState {
    if run == [] then NO_STATE else After(StateAfter(run[..|run| - 1]), run[|run| - 1])
  }

  predicate IsRun(run: seq<Commit>) {
    run == [] || (IsRun(run[..|run| - 1]) && Admissible(StateAfter(run[..|run| - 1]), run[|run| - 1]))
  }

  function EntryOf(state: LocalState, channel: string): Option<ChannelState> {
    if state.channels.Some? && channel in state.channels.value then Some(state.channels.value[channel]) else None
  }

  predicate OnChannel(c: Commit, channel: string) {
    c.tx.channel == channel
  }

  function LastOn(run: seq<Commit>, channel: string): Option<Commit> {
    if run == [] then None
    else
      var last := run[|run| - 1];
      if OnChannel(last, channel) then Some(last) else LastOn(run[..|run| - 1], channel)
  }

  predicate Under(e: ChannelState, tx: Transaction) {
    tx.sequence <= e.sequence && tx.system.sequence <= e.systemSequence && tx.opr.sequence <= e.oprSequence
  }

  /** The entry shows the channel's last commit. */
  predicate Shows(e: ChannelState, tx: Transaction) {
    && e.manifestSha == tx.digest && e.sequence == tx.sequence && e.systemVersion == tx.version
    && e.systemSha == tx.system.digest && e.oprSha == tx.opr.digest && e.architecture == tx.architecture
  }

  /** What the stored state knows about a run: an entry exactly for the channels committed to,
      which shows the last commit and bounds the sequences of all. */
  ghost predicate Marks(state: LocalState, run: seq<Commit>, channel: string) {
    var entry, last := EntryOf(state, channel), LastOn(run, channel);
    && (entry.Some? <==> last.Some?)
    && (entry.Some? ==>
          && Shows(entry.value, last.value.tx)
          && forall c :: c in run && OnChannel(c, channel) ==> Under(entry.value, c.tx))
  }

  /** The stored channel is always a key, which is what the layout without keys lacks. */
  predicate Keyed(state: LocalState) {
    state == NO_STATE ||
    (state.schemaVersion == 1 && state.channel != "" && EntryOf(state, state.channel) == Some(state.entry))
  }

  lemma KeyedLookup(state: LocalState, channel: string)
    requires Keyed(state) && channel != ""
    ensures StateForChannel(state, channel) ==
            if EntryOf(state, channel).Some? then LocalStateFromChannel(EntryOf(state, channel).value) else NO_STATE
  {
  }

  /** A commit replaces its own channel's entry and leaves every other untouched. */
  lemma CommitTouchesOneChannel(state: LocalState, c: Commit, channel: string)
    ensures EntryOf(After(state, c), channel) ==
            if OnChannel(c, channel) then
              Some(Applied(StateForChannel(state, channel), c.tx, c.now, c.configSha).entry)
            else EntryOf(state, channel)
  {
  }

  lemma CommitMarks(state: LocalState, run: seq<Commit>, c: Commit, channel: string)
    requires Keyed(state) && Marks(state, run, channel) && Admissible(state, c) && channel != ""
    ensures Marks(After(state, c), run + [c], channel)
  {
    assert (run + [c])[..|run|] == run;
    KeyedLookup(state, channel);
    CommitTouchesOneChannel(state, c, channel);
    NoneOnChannel(run, channel);
  }

  lemma {:induction false} NoneOnChannel(run: seq<Commit>, channel: string)
    ensures LastOn(run, channel).None? <==> forall c :: c in run ==> !OnChannel(c, channel)
  {
    if run != [] {
      assert run == run[..|run| - 1] + [run[|run| - 1]];
      NoneOnChannel(run[..|run| - 1], channel);
    }
  }

  lemma CommitKeyed(state: LocalState, c: Commit)
    requires Valid(c.tx)
    ensures Keyed(After(state, c))
  {
  }

  lemma {:induction false} RunMarks(run: seq<Commit>, channel: string)
    requires IsRun(run) && channel != ""
    ensures Keyed(StateAfter(run)) && Marks(StateAfter(run), run, channel)
  {
    if run != [] {
      var before, c := run[..|run| - 1], run[|run| - 1];
      RunMarks(before, channel);
      CommitMarks(StateAfter(before), before, c, channel);
      CommitKeyed(StateAfter(before), c);
      assert run == before + [c];
    }
  }

  // ----- what every run guarantees -----

  lemma {:induction false} RunPrefix(run: seq<Commit>, k: nat)
    requires IsRun(run) && k <= |run|
    ensures IsRun(run[..k])
    ensures k < |run| ==> Admissible(StateAfter(run[..k]), run[k])
    decreases |run|
  {
    if k == |run| {
      assert run[..k] == run;
    } else if k < |run| - 1 {
      var before := run[..|run| - 1];
      RunPrefix(before, k);
      assert before[..k] == run[..k];
    }
  }

  /** Each commit is newer than every earlier one of its channel. */
  lemma SequenceRises(run: seq<Commit>, i: nat, j: nat)
    requires IsRun(run) && i < j < |run| && run[i].tx.channel == run[j].tx.channel
    ensures run[i].tx.sequence < run[j].tx.sequence
  {
    var channel, before := run[j].tx.channel, run[..j];
    RunPrefix(run, j);
    RunMarks(before, channel);
    KeyedLookup(StateAfter(before), channel);
    assert run[i] == before[i] && run[i] in before;
    NoneOnChannel(before, channel);
  }

  /** So where digests identify transactions, no signed manifest is ever committed twice. */
  lemma CommittedOnce(run: seq<Commit>, i: nat, j: nat)
    requires IsRun(run) && i < j < |run|
    requires run[i].tx.digest == run[j].tx.digest ==> run[i].tx == run[j].tx
    ensures run[i].tx.digest != run[j].tx.digest
  {
    if run[i].tx == run[j].tx {
      SequenceRises(run, i, j);
    }
  }

  /** The stored marks of a channel never fall, whatever is committed and however authorised. */
  lemma {:induction false} MarksNeverFall(run: seq<Commit>, k: nat, channel: string)
    requires IsRun(run) && k <= |run| && channel != "" && EntryOf(StateAfter(run[..k]), channel).Some?
    ensures EntryOf(StateAfter(run), channel).Some?
    ensures var old_, new_ := EntryOf(StateAfter(run[..k]), channel).value, EntryOf(StateAfter(run), channel).value;
            old_.sequence <= new_.sequence && old_.systemSequence <= new_.systemSequence
                  && old_.oprSequence <= new_.oprSequence
    decreases |run|
  {
    if k == |run| {
      assert run[..k] == run;
    } else {
      var before, c := run[..|run| - 1], run[|run| - 1];
      assert before[..k] == run[..k];
      MarksNeverFall(before, k, channel);
      RunMarks(before, channel);
      CommitTouchesOneChannel(StateAfter(before), c, channel);
      KeyedLookup(StateAfter(before), channel);
    }
  }

  /** Each mark is exactly the highest sequence the channel ever applied. */
  lemma {:induction false} MarksAttained(run: seq<Commit>, channel: string)
    requires IsRun(run) && channel != "" && EntryOf(StateAfter(run), channel).Some?
    ensures var e := EntryOf(StateAfter(run), channel).value;
            && (exists c :: c in run && OnChannel(c, channel) && c.tx.system.sequence == e.systemSequence)
            && (exists c :: c in run && OnChannel(c, channel) && c.tx.opr.sequence == e.oprSequence)
  {
    RunMarks(run, channel);
    if run != [] {
      var before, last := run[..|run| - 1], run[|run| - 1];
      assert run == before + [last];
      RunMarks(before, channel);
      CommitTouchesOneChannel(StateAfter(before), last, channel);
      KeyedLookup(StateAfter(before), channel);
      if EntryOf(StateAfter(before), channel).Some? {
        MarksAttained(before, channel);
      }
      assert OnChannel(last, channel) ==> last in run;
    }
  }

  /** Selecting other system or OPR bytes without authorised recovery takes a sequence above every
      one that the channel ever applied, not just above the last. */
  lemma ChangedBytesAreNewer(run: seq<Commit>, c: Commit, last: Commit)
    requires IsRun(run) && Admissible(StateAfter(run), c) && !Authorized(StateAfter(run), c)
    requires LastOn(run, c.tx.channel) == Some(last)
    ensures c.tx.system.digest != last.tx.system.digest ==>
              forall d :: d in run && OnChannel(d, c.tx.channel) ==> d.tx.system.sequence < c.tx.system.sequence
    ensures c.tx.opr.digest != last.tx.opr.digest ==>
              forall d :: d in run && OnChannel(d, c.tx.channel) ==> d.tx.opr.sequence < c.tx.opr.sequence
  {
    var channel := c.tx.channel;
    RunMarks(run, channel);
    KeyedLookup(StateAfter(run), channel);
    LastIsValid(run, channel);
  }

  lemma {:induction false} LastIsValid(run: seq<Commit>, channel: string)
    requires IsRun(run) && LastOn(run, channel).Some?
    ensures Valid(LastOn(run, channel).value.tx)
  {
    if !OnChannel(run[|run| - 1], channel) {
      LastIsValid(run[..|run| - 1], channel);
    }
  }

  /** No commit of the channel between the two used authorised recovery. */
  ghost predicate NoRecovery(run: seq<Commit>, i: nat, channel: string) {
    forall k {:trigger run[k]} :: i < k < |run| && OnChannel(run[k], channel) ==>
          !Authorized(StateAfter(run[..k]), run[k])
  }

  lemma VersionStep(run: seq<Commit>, c: Commit, last: Commit)
    requires IsRun(run) && Admissible(StateAfter(run), c) && !Authorized(StateAfter(run), c)
    requires LastOn(run, c.tx.channel) == Some(last)
    ensures Order(last.tx.version, c.tx.version) <= 0
  {
    RunMarks(run, c.tx.channel);
    KeyedLookup(StateAfter(run), c.tx.channel);
    OrderTotal(c.tx.version, last.tx.version);
    EmptyLeast(c.tx.version);
  }

  /** Without authorised recovery a channel's system version never decreases, not even through
      commits that name no version. */
  lemma {:induction false} VersionNeverFalls(run: seq<Commit>, i: nat, channel: string)
    requires IsRun(run) && i < |run| && OnChannel(run[i], channel) && channel != ""
    requires NoRecovery(run, i, channel)
    ensures LastOn(run, channel).Some? && Order(run[i].tx.version, LastOn(run, channel).value.tx.version) <= 0
    decreases |run|
  {
    var before, last := run[..|run| - 1], run[|run| - 1];
    if i == |run| - 1 {
      OrderTotal(run[i].tx.version, run[i].tx.version);
      return;
    }
    forall k | i < k < |before| && OnChannel(before[k], channel)
      ensures !Authorized(StateAfter(before[..k]), before[k])
    {
      assert before[k] == run[k] && before[..k] == run[..k];
    }
    VersionNeverFalls(before, i, channel);
    if OnChannel(last, channel) {
      var v := LastOn(before, channel).value.tx.version;
      assert run[..|run| - 1] == before && !Authorized(StateAfter(before), last);
      VersionStep(before, last, LastOn(before, channel).value);
      OrderTransitive(run[i].tx.version, v, last.tx.version);
    }
  }

  // ----- the layout without keys -----

  function Owner(state: LocalState): string {
    if state.channel == "" then "stable" else state.channel
  }

  /** A commit preserves what every other channel reads exactly when the top-level state is empty,
      is keyed, or belongs to the channel committed to. */
  lemma CommitPreservesOthersIff(state: LocalState, c: Commit)
    requires Valid(c.tx)
    ensures (forall other :: other != c.tx.channel && other != "" ==>
               StateForChannel(After(state, c), other) == StateForChannel(state, other))
       <==> state == NO_STATE || EntryOf(state, Owner(state)).Some? || Owner(state) == c.tx.channel
  {
    var owner := Owner(state);
    if owner != c.tx.channel && EntryOf(state, owner).None? {
      assert StateForChannel(state, owner) == state;
      assert StateForChannel(After(state, c), owner) == NO_STATE;
    }
  }

  /** So an unkeyed stable state is forgotten by a commit to another channel, after which every
      stable transaction is fresh again, however old. */
  lemma UnkeyedStableForgotten(state: LocalState, c: Commit, old_: Transaction)
    requires state.schemaVersion == 1 && state.channel == "" && state.channels.None?
    requires Valid(c.tx) && c.tx.channel == "edge" && old_.channel == "stable"
    ensures ValidateFreshness(StateForChannel(After(state, c), "stable"), old_, false) == Fresh
  {
    assert EntryOf(After(state, c), "stable").None?;
  }
}
