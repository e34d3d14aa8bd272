/**
 * The versioned storage-migration runner of the agent-client-protocol
 * extension, as a reference state machine over a key-value store.
 *
 * Reading the stored schema version (absent or unreadable means 0.0.0),
 * choosing the pending steps of an ascending registry, writing a backup
 * snapshot, applying the steps one after another, and finally recording the
 * target version. Failures are reported as data, never thrown: a failed
 * backup write stops the run before any step, a step that cannot interpret
 * the stored conversations stops the batch (earlier steps' writes stay), and
 * a failed final version write leaves the version untouched.
 */
module Migrations {

  import opened Base
  import opened Strings
  import opened Seqs
  import opened SemVer
  import opened Fresh

  // ---------------------------------------------------------------------
  // Stored data
  // ---------------------------------------------------------------------

  datatype Metadata = Metadata(sequence: Option<nat>)

  datatype Message = Message(id: string, role: string, content: string, timestamp: int, metadata: Metadata)

  datatype Conversation = Conversation(
    sessionId: string,
    messages: seq<Message>,
    agentConnectionId: Option<string>,
    agentConfigId: Option<string>)

  /**
   * A stored value. The store holds strings; the conversation list and the
   * backup snapshot are JSON there and appear here in decoded form. `Text`
   * under the conversations key stands for a record the steps cannot read.
   */
  datatype Value =
    | Text(text: string)
    | Conversations(list: seq<Conversation>)
    | Snapshot(entries: map<string, Value>)

  type Store = map<string, Value>

  /** Stand-ins for the reserved keys; the runner relies only on them being distinct and outside the backup namespace. */
  const VersionKey: string := "storage-version"
  const ConversationsKey: string := "conversations"
  const BackupPrefix: string := "backup_"

  lemma ReservedKeys()
    ensures VersionKey != ConversationsKey
    ensures !StartsWith(VersionKey, BackupPrefix) && !StartsWith(ConversationsKey, BackupPrefix)
  {
    assert VersionKey[0] != BackupPrefix[0];
    assert ConversationsKey[0] != BackupPrefix[0];
  }

  // ---------------------------------------------------------------------
  // Version record
  // ---------------------------------------------------------------------

  /** The stored schema version; a missing or unreadable record counts as 0.0.0. */
  function CurrentVersion(store: Store): (v: Version)
    ensures VersionKey !in store ==> v == Zero
    ensures (VersionKey in store && store[VersionKey].Text? && Parse(store[VersionKey].text).Some?) ==>
              v == Parse(store[VersionKey].text).value
    ensures (VersionKey in store && !store[VersionKey].Text?) ==> v == Zero
  {
    if VersionKey in store && store[VersionKey].Text? then
      Parse(store[VersionKey].text).GetOr(Zero)
    else Zero
  }

  /** Writing a version's text form makes it the current version. */
  lemma CurrentVersionAfterWrite(store: Store, v: Version)
    ensures CurrentVersion(store[VersionKey := Text(Format(v))]) == v
  {
    ParseFormat(v);
  }

  // ---------------------------------------------------------------------
  // Registry
  // ---------------------------------------------------------------------

  datatype Step =
    | Identity          // marks a version boundary without data changes
    | AddSequence       // numbers every message of a conversation from 0
    | RenameAgentField  // agentConnectionId becomes agentConfigId

  datatype Migration = Migration(version: Version, step: Step)

  const Registry: seq<Migration> := [
    Migration(Version(1, 0, 0), Identity),
    Migration(Version(1, 1, 0), AddSequence),
    Migration(Version(1, 2, 0), RenameAgentField)
  ]

  /** The application's schema version as the suite pins it. */
  const StorageVersion := Version(1, 2, 0)

  /** Strictly increasing versions, so each appears at most once. */
  predicate Ascending(ms: seq<Migration>)
  {
    forall i, j :: 0 <= i < j < |ms| ==> Less(ms[i].version, ms[j].version)
  }

  lemma RegistryAscending()
    ensures Ascending(Registry)
  {
  }

  /** The steps strictly above `current` and at most `target`, in registry order. */
  function Pending(registry: seq<Migration>, current: Version, target: Version): (r: seq<Migration>)
    ensures forall m :: m in r <==> m in registry && Less(current, m.version) && LessEq(m.version, target)
  {
    Filter(registry, (m: Migration) => Less(current, m.version) && LessEq(m.version, target))
  }

  lemma {:induction false} FilterAscending(ms: seq<Migration>, p: Migration -> bool)
    requires Ascending(ms)
    ensures Ascending(Filter(ms, p))
    decreases |ms|
  {
    if |ms| > 0 {
      FilterAscending(ms[1..], p);
      var rest := Filter(ms[1..], p);
      if p(ms[0]) {
        var r := [ms[0]] + rest;
        forall i, j | 0 <= i < j < |r|
          ensures Less(r[i].version, r[j].version)
        {
          if i == 0 {
            assert r[j] in ms[1..];
            var k :| 0 <= k < |ms[1..]| && ms[1..][k] == r[j];
            assert ms[k + 1] == r[j];
          } else {
            assert r[i] == rest[i - 1] && r[j] == rest[j - 1];
          }
        }
      }
    }
  }

  /** The pending steps are ascending, so they run in increasing version order. */
  lemma PendingAscending(registry: seq<Migration>, current: Version, target: Version)
    requires Ascending(registry)
    ensures Ascending(Pending(registry, current, target))
  {
    FilterAscending(registry, (m: Migration) => Less(current, m.version) && LessEq(m.version, target));
  }

  /** Nothing is pending unless the target is strictly above the current version. */
  lemma NothingPendingDownward(registry: seq<Migration>, current: Version, target: Version)
    requires !Less(current, target)
    ensures Pending(registry, current, target) == []
  {
    var r := Pending(registry, current, target);
    if |r| > 0 {
      assert r[0] in r;
      if Less(r[0].version, target) {
        LessTransitive(current, r[0].version, target);
      }
      LessTrichotomy(current, target);
      assert false;
    }
  }

  // ---------------------------------------------------------------------
  // Steps
  // ---------------------------------------------------------------------

  /** Step 1.1.0 on one conversation: message i gets `metadata.sequence = i`. */
  function WithSequence(c: Conversation): Conversation
  {
    c.(messages := seq(|c.messages|, i requires 0 <= i < |c.messages| =>
                         c.messages[i].(metadata := Metadata(Some(i)))))
  }

  /** Step 1.2.0 on one conversation: the value of `agentConnectionId` moves to `agentConfigId`. */
  function WithAgentConfig(c: Conversation): Conversation
  {
    if c.agentConnectionId.Some? then c.(agentConfigId := c.agentConnectionId, agentConnectionId := None)
    else c
  }

  function Transform(step: Step, c: Conversation): Conversation
  {
    match step
    case Identity => c
    case AddSequence => WithSequence(c)
    case RenameAgentField => WithAgentConfig(c)
  }

  function TransformAll(step: Step, list: seq<Conversation>): (r: seq<Conversation>)
    ensures |r| == |list|
  {
    seq(|list|, i requires 0 <= i < |list| => Transform(step, list[i]))
  }

  /** Step 1.1.0 numbers the messages from 0 and changes nothing else. */
  lemma AddSequenceNumbers(c: Conversation)
    ensures |Transform(AddSequence, c).messages| == |c.messages|
    ensures forall i :: 0 <= i < |c.messages| ==>
              Transform(AddSequence, c).messages[i].metadata.sequence == Some(i)
              && Transform(AddSequence, c).messages[i].(metadata := c.messages[i].metadata) == c.messages[i]
    ensures Transform(AddSequence, c).(messages := c.messages) == c
  {
  }

  /** Step 1.2.0 leaves no `agentConnectionId` and carries its value over to `agentConfigId`. */
  lemma RenameMovesValue(c: Conversation)
    ensures Transform(RenameAgentField, c).agentConnectionId == None
    ensures c.agentConnectionId.Some? ==> Transform(RenameAgentField, c).agentConfigId == c.agentConnectionId
    ensures c.agentConnectionId.None? ==> Transform(RenameAgentField, c) == c
    ensures Transform(RenameAgentField, c).messages == c.messages
    ensures Transform(RenameAgentField, c).sessionId == c.sessionId
  {
  }

  /** The store's conversation record can be read by the steps (or there is none). */
  predicate ConversationsReadable(store: Store)
  {
    ConversationsKey !in store || store[ConversationsKey].Conversations?
  }

  datatype StepOutcome = Applied(store: Store, written: seq<string>) | Failed(error: string)

  /** Runs one step against the store; only the conversations record is ever rewritten. */
  function ApplyStep(step: Step, store: Store): (r: StepOutcome)
    ensures r.Failed? <==> step != Identity && !ConversationsReadable(store)
    ensures r.Applied? ==> forall k :: k != ConversationsKey ==>
              (k in r.store <==> k in store) && (k in store ==> r.store[k] == store[k])
    ensures r.Applied? ==> (ConversationsKey in r.store <==> ConversationsKey in store)
    ensures step == Identity ==> r == Applied(store, [])
    ensures r.Applied? ==> forall i :: 0 <= i < |r.written| ==> r.written[i] == ConversationsKey
    ensures r.Applied? && step != Identity && ConversationsKey in store ==>
              store[ConversationsKey].Conversations?
              && r.store[ConversationsKey] == Conversations(TransformAll(step, store[ConversationsKey].list))
  {
    if step == Identity || ConversationsKey !in store then Applied(store, [])
    else match store[ConversationsKey]
      case Conversations(list) =>
        Applied(store[ConversationsKey := Conversations(TransformAll(step, list))], [ConversationsKey])
      case _ => Failed("stored conversations could not be interpreted")
  }

  /** What applying a batch of steps did: the store, the versions applied, the keys written, the error. */
  datatype Progress = Progress(store: Store, applied: seq<string>, writes: seq<string>, error: Option<string>)

  function Versions(ms: seq<Migration>): (r: seq<string>)
    ensures |r| == |ms| && forall i :: 0 <= i < |ms| ==> r[i] == Format(ms[i].version)
  {
    seq(|ms|, i requires 0 <= i < |ms| => Format(ms[i].version))
  }

  /** The versions of a batch that ran `n + 1` steps: its first version, then those of the next `n`. */
  lemma VersionsPrefix(pending: seq<Migration>, n: nat)
    requires n < |pending|
    ensures Versions(pending[..n + 1]) == [Format(pending[0].version)] + Versions(pending[1..][..n])
  {
    var a, rest := Versions(pending[..n + 1]), Versions(pending[1..][..n]);
    var b := [Format(pending[0].version)] + rest;
    forall i | 0 <= i < |a|
      ensures a[i] == b[i]
    {
      if i > 0 {
        assert b[i] == rest[i - 1];
        assert pending[..n + 1][i] == pending[1..][..n][i - 1];
      }
    }
  }

  /**
   * Applies the steps strictly one after another, each to the store the
   * previous one left, recording each version once its step succeeded, and
   * stopping at the first failure with the earlier steps' writes kept.
   */
  function ApplyAll(pending: seq<Migration>, store: Store): (r: Progress)
    ensures |r.applied| <= |pending|
    ensures r.applied == Versions(pending[..|r.applied|])
    ensures r.error.None? <==> |r.applied| == |pending|
    ensures r.error.Some? ==> pending[|r.applied|].step != Identity
    ensures forall k :: k != ConversationsKey ==>
              (k in r.store <==> k in store) && (k in store ==> r.store[k] == store[k])
    ensures forall i :: 0 <= i < |r.writes| ==> r.writes[i] == ConversationsKey
    decreases |pending|
  {
    if |pending| == 0 then Progress(store, [], [], None)
    else match ApplyStep(pending[0].step, store)
      case Failed(e) => Progress(store, [], [], Some(e))
      case Applied(next, written) =>
        var rest := ApplyAll(pending[1..], next);
        VersionsPrefix(pending, |rest.applied|);
        Progress(rest.store, [Format(pending[0].version)] + rest.applied, written + rest.writes, rest.error)
  }

  // ---------------------------------------------------------------------
  // Backup
  // ---------------------------------------------------------------------

  /** Everything but earlier backups: what a snapshot records. */
  function WithoutBackups(store: Store): (r: Store)
    ensures forall k :: k in r <==> k in store && !StartsWith(k, BackupPrefix)
    ensures forall k :: k in r ==> r[k] == store[k]
  {
    map k | k in store && !StartsWith(k, BackupPrefix) :: store[k]
  }

  /**
   * `backup_{from}_{stamp}`, or, should that key exist already, the same with
   * the smallest suffix `_1`, `_2`, ... that is free.
   */
  function BackupKey(store: Store, from: Version, stamp: nat): (key: string)
    ensures StartsWith(key, BackupPrefix + Format(from) + "_" + NatToString(stamp))
    ensures key !in store
  {
    var base := BackupPrefix + Format(from) + "_" + NatToString(stamp);
    var key := FirstFree(base, "_", "", store.Keys);
    assert key == base || key[..|base|] == base;
    key
  }

  // ---------------------------------------------------------------------
  // Runner
  // ---------------------------------------------------------------------

  /** Input/output failures of the host store, injected as data. */
  datatype IoFaults = IoFaults(backupWriteFails: bool, versionWriteFails: bool)

  const NoFaults := IoFaults(false, false)

  datatype MigrationResult = MigrationResult(
    success: bool,
    fromVersion: string,
    toVersion: string,
    migrationsApplied: seq<string>,
    error: Option<string>)

  /** A finished run: the reported result, the store afterwards, and the keys written in order. */
  datatype Run = Run(result: MigrationResult, store: Store, writes: seq<string>)

  predicate NoOp(store: Store, target: Version, run: Run)
  {
    && run.result == MigrationResult(true, Format(CurrentVersion(store)), Format(target), [], None)
    && run.store == store
    && run.writes == []
  }

  /** All existing backups are as they were. */
  predicate BackupsKept(before: Store, after: Store)
  {
    forall k :: k in before && StartsWith(k, BackupPrefix) ==> k in after && after[k] == before[k]
  }

  /** Every key but the two reserved records and `key` is as it was, present or absent. */
  ghost predicate OthersKept(before: Store, after: Store, key: string)
  {
    forall k :: k != VersionKey && k != ConversationsKey && k != key ==>
      (k in after <==> k in before) && (k in before ==> after[k] == before[k])
  }

  /**
   * The migrating path: snapshot under `key`, apply `pending` in order, then
   * record the target version.
   */
  function Execute(store: Store, target: Version, pending: seq<Migration>, key: string, faults: IoFaults): (run: Run)
    requires key !in store && StartsWith(key, BackupPrefix)
    ensures |run.result.migrationsApplied| <= |pending|
    ensures run.result.migrationsApplied == Versions(pending[..|run.result.migrationsApplied|])
    ensures run.result.success <==> run.result.error.None?
    ensures run.result.success ==> run.result.migrationsApplied == Versions(pending)
    ensures run.result.success ==> CurrentVersion(run.store) == target
    ensures !run.result.success ==>
              (VersionKey in run.store <==> VersionKey in store)
              && (VersionKey in store ==> run.store[VersionKey] == store[VersionKey])
    ensures !faults.backupWriteFails ==>
              key in run.store && run.store[key] == Snapshot(WithoutBackups(store))
              && |run.writes| > 0 && run.writes[0] == key
    ensures faults.backupWriteFails ==> !run.result.success && run.store == store && run.result.migrationsApplied == []
    ensures BackupsKept(store, run.store)
    ensures OthersKept(store, run.store, key)
  {
    var from := Format(CurrentVersion(store));
    if faults.backupWriteFails then
      Run(MigrationResult(false, from, Format(target), [], Some("backup could not be written")), store, [])
    else
      ReservedKeys();
      var backedUp := store[key := Snapshot(WithoutBackups(store))];
      var progress := ApplyAll(pending, backedUp);
      var writes := [key] + progress.writes;
      if progress.error.Some? then
        Run(MigrationResult(false, from, Format(target), progress.applied, progress.error), progress.store, writes)
      else if faults.versionWriteFails then
        Run(MigrationResult(false, from, Format(target), progress.applied, Some("version could not be written")),
            progress.store, writes)
      else
        CurrentVersionAfterWrite(progress.store, target);
        assert pending[..|pending|] == pending;
        Run(MigrationResult(true, from, Format(target), progress.applied, None),
            progress.store[VersionKey := Text(Format(target))], writes + [VersionKey])
  }

  /**
   * `runMigrations()`: the whole run against `store`, for the application's
   * schema version `target`, the registry `registry`, the backup time stamp
   * `stamp` and the host store's failures `faults`.
   */
  function RunMigrations(store: Store, target: Version, registry: seq<Migration>, stamp: nat, faults: IoFaults): (run: Run)
    requires Ascending(registry)
    // the reported versions
    ensures run.result.fromVersion == Format(CurrentVersion(store))
    ensures run.result.toVersion == Format(target)
    // equal versions, or a store newer than the application: nothing happens
    ensures !Less(CurrentVersion(store), target) ==> NoOp(store, target, run)
    ensures Pending(registry, CurrentVersion(store), target) == [] ==> NoOp(store, target, run)
    // the applied versions are a prefix of the pending ones, all of them on success
    ensures |run.result.migrationsApplied| <= |Pending(registry, CurrentVersion(store), target)|
    ensures run.result.migrationsApplied ==
              Versions(Pending(registry, CurrentVersion(store), target)[..|run.result.migrationsApplied|])
    ensures run.result.success ==>
              run.result.migrationsApplied == Versions(Pending(registry, CurrentVersion(store), target))
    // the version record moves to the target exactly when steps ran and all succeeded
    ensures run.result.success <==> run.result.error.None?
    ensures run.result.success && run.result.migrationsApplied != [] ==> CurrentVersion(run.store) == target
    ensures !run.result.success ==>
              (VersionKey in run.store <==> VersionKey in store)
              && (VersionKey in store ==> run.store[VersionKey] == store[VersionKey])
    // a backup of the prior contents exists whenever steps were attempted
    ensures Pending(registry, CurrentVersion(store), target) != [] && !faults.backupWriteFails ==>
              var key := BackupKey(store, CurrentVersion(store), stamp);
              key in run.store && run.store[key] == Snapshot(WithoutBackups(store))
              && |run.writes| > 0 && run.writes[0] == key
    ensures faults.backupWriteFails && !run.result.success ==> run.store == store && run.result.migrationsApplied == []
    ensures BackupsKept(store, run.store)
    // nothing outside the two reserved records and the new backup changes
    ensures OthersKept(store, run.store, BackupKey(store, CurrentVersion(store), stamp))
  {
    var current := CurrentVersion(store);
    var pending := Pending(registry, current, target);
    NothingPendingWhenEqual(registry, current, target);
    if pending == [] then
      Run(MigrationResult(true, Format(current), Format(target), [], None), store, [])
    else
      var key := BackupKey(store, current, stamp);
      BackupKeyReserved(store, current, stamp);
      assert Less(current, target);
      Execute(store, target, pending, key, faults)
  }

  lemma NothingPendingWhenEqual(registry: seq<Migration>, current: Version, target: Version)
    ensures !Less(current, target) ==> Pending(registry, current, target) == []
  {
    if !Less(current, target) {
      NothingPendingDownward(registry, current, target);
    }
  }

  /** The backup key is neither reserved key, so later writes cannot clobber it. */
  lemma BackupKeyReserved(store: Store, from: Version, stamp: nat)
    ensures BackupKey(store, from, stamp) != VersionKey
    ensures BackupKey(store, from, stamp) != ConversationsKey
    ensures StartsWith(BackupKey(store, from, stamp), BackupPrefix)
  {
    var key := BackupKey(store, from, stamp);
    var base := BackupPrefix + Format(from) + "_" + NatToString(stamp);
    assert key[..|BackupPrefix|] == base[..|BackupPrefix|] == BackupPrefix;
    ReservedKeys();
  }

  // ---------------------------------------------------------------------
  // Properties across runs and the suite's scenarios
  // ---------------------------------------------------------------------

  /** The conversations after a batch of steps, applied in order. */
  function TransformSteps(pending: seq<Migration>, list: seq<Conversation>): seq<Conversation>
    decreases |pending|
  {
    if |pending| == 0 then list else TransformSteps(pending[1..], TransformAll(pending[0].step, list))
  }

  /** On a readable store every step succeeds, and the conversations go through each step in turn. */
  lemma {:induction false} ApplyAllReadable(pending: seq<Migration>, store: Store)
    requires ConversationsReadable(store)
    ensures ApplyAll(pending, store).error.None?
    ensures ConversationsKey in store ==>
              ConversationsKey in ApplyAll(pending, store).store
              && ApplyAll(pending, store).store[ConversationsKey]
                   == Conversations(TransformSteps(pending, store[ConversationsKey].list))
    ensures ConversationsKey !in store ==> ConversationsKey !in ApplyAll(pending, store).store
    decreases |pending|
  {
    if |pending| > 0 {
      var out := ApplyStep(pending[0].step, store);
      assert out.Applied?;
      if pending[0].step == Identity && ConversationsKey in store {
        var list := store[ConversationsKey].list;
        assert TransformAll(Identity, list) == list;
      }
      ApplyAllReadable(pending[1..], out.store);
    }
  }

  lemma FormatSmall()
    ensures Format(Zero) == "0.0.0"
    ensures Format(Version(1, 0, 0)) == "1.0.0"
    ensures Format(Version(1, 1, 0)) == "1.1.0"
    ensures Format(Version(1, 2, 0)) == "1.2.0"
  {
    assert NatToString(0) == "0";
    assert NatToString(1) == "1";
    assert NatToString(2) == "2";
  }

  /** A store that has never recorded a version reports "0.0.0" as where it came from. */
  lemma FirstRunFromZero(store: Store, target: Version, registry: seq<Migration>, stamp: nat, faults: IoFaults)
    requires Ascending(registry) && VersionKey !in store
    ensures RunMigrations(store, target, registry, stamp, faults).result.fromVersion == "0.0.0"
    ensures RunMigrations(store, target, registry, stamp, faults).result.toVersion == Format(target)
  {
    FormatSmall();
  }

  lemma PendingFromZero()
    ensures Pending(Registry, Zero, StorageVersion) == Registry
  {
    FilterAll(Registry, (m: Migration) => Less(Zero, m.version) && LessEq(m.version, StorageVersion));
  }

  lemma PendingFromOneZero()
    ensures Pending(Registry, Version(1, 0, 0), StorageVersion) == Registry[1..]
  {
    var p := (m: Migration) => Less(Version(1, 0, 0), m.version) && LessEq(m.version, StorageVersion);
    assert Registry == [Registry[0]] + Registry[1..];
    FilterConcat([Registry[0]], Registry[1..], p);
    FilterAll(Registry[1..], p);
    assert Filter([Registry[0]], p) == [];
  }

  /** Without faults, on a readable store, the migrating path succeeds and keeps its backup. */
  lemma ExecuteReadable(store: Store, target: Version, pending: seq<Migration>, key: string)
    requires key !in store && StartsWith(key, BackupPrefix) && ConversationsReadable(store)
    ensures var run := Execute(store, target, pending, key, NoFaults);
            && run.result.success
            && run.result.migrationsApplied == Versions(pending)
            && key in run.store
            && (ConversationsKey in store ==>
                  ConversationsKey in run.store
                  && run.store[ConversationsKey] == Conversations(TransformSteps(pending, store[ConversationsKey].list)))
  {
    ReservedKeys();
    var backedUp := store[key := Snapshot(WithoutBackups(store))];
    assert ConversationsKey in backedUp ==> backedUp[ConversationsKey] == store[ConversationsKey];
    ApplyAllReadable(pending, backedUp);
  }

  /** Migrating steps ran, so the run is the migrating path with the chosen backup key. */
  lemma RunIsExecute(store: Store, target: Version, registry: seq<Migration>, stamp: nat, faults: IoFaults)
    requires Ascending(registry) && Pending(registry, CurrentVersion(store), target) != []
    ensures var key := BackupKey(store, CurrentVersion(store), stamp);
            && key !in store && StartsWith(key, BackupPrefix)
            && RunMigrations(store, target, registry, stamp, faults)
                 == Execute(store, target, Pending(registry, CurrentVersion(store), target), key, faults)
  {
    BackupKeyReserved(store, CurrentVersion(store), stamp);
  }

  /**
   * First run against a readable store for the application version 1.2.0:
   * success, both 1.1.0 and 1.2.0 among the applied steps, and the version
   * record holds "1.2.0" afterwards.
   */
  lemma FirstRunAppliesSteps(store: Store, stamp: nat)
    requires VersionKey !in store && ConversationsReadable(store)
    ensures var run := RunMigrations(store, StorageVersion, Registry, stamp, NoFaults);
            && run.result.success
            && run.result.fromVersion == "0.0.0" && run.result.toVersion == "1.2.0"
            && "1.1.0" in run.result.migrationsApplied && "1.2.0" in run.result.migrationsApplied
            && VersionKey in run.store && run.store[VersionKey] == Text("1.2.0")
  {
    FormatSmall();
    PendingFromZero();
    RunIsExecute(store, StorageVersion, Registry, stamp, NoFaults);
    ExecuteReadable(store, StorageVersion, Registry, BackupKey(store, Zero, stamp));
    var run := RunMigrations(store, StorageVersion, Registry, stamp, NoFaults);
    assert run.result.migrationsApplied == Versions(Registry);
    assert run.result.migrationsApplied[1] == "1.1.0" && run.result.migrationsApplied[2] == "1.2.0";
  }

  /** A version record holding "1.0.0" reads as version 1.0.0. */
  lemma ReadsOneZero(store: Store)
    requires VersionKey in store && store[VersionKey] == Text("1.0.0")
    ensures CurrentVersion(store) == Version(1, 0, 0)
  {
    FormatSmall();
    ParseFormat(Version(1, 0, 0));
  }

  /** From 1.0.0, the run is the migrating path over steps 1.1.0 and 1.2.0 with a fresh backup key. */
  lemma UpgradePath(store: Store, stamp: nat)
    requires CurrentVersion(store) == Version(1, 0, 0)
    ensures var key := BackupKey(store, Version(1, 0, 0), stamp);
            && key !in store && StartsWith(key, BackupPrefix)
            && RunMigrations(store, StorageVersion, Registry, stamp, NoFaults)
                 == Execute(store, StorageVersion, Registry[1..], key, NoFaults)
  {
    PendingFromOneZero();
    RunIsExecute(store, StorageVersion, Registry, stamp, NoFaults);
  }

  /** The backup key of a 1.0.0 store contains `backup_1.0.0_`. */
  lemma BackupKeyNamesVersion(store: Store, stamp: nat)
    ensures Contains(BackupKey(store, Version(1, 0, 0), stamp), "backup_1.0.0_")
  {
    var key := BackupKey(store, Version(1, 0, 0), stamp);
    FormatSmall();
    assert StartsWith(key, BackupPrefix + "1.0.0" + "_" + NatToString(stamp));
    assert key[..|"backup_1.0.0_"|] == "backup_1.0.0_";
    assert OccursAt(key, "backup_1.0.0_", 0);
  }

  /** The versions of the steps after 1.0.0, as the runner reports them. */
  lemma UpgradeVersions()
    ensures Versions(Registry[1..]) == ["1.1.0", "1.2.0"]
  {
    FormatSmall();
    assert Versions(Registry[1..]) == [Format(Version(1, 1, 0)), Format(Version(1, 2, 0))];
  }

  /** Upgrading a readable store from 1.0.0 to 1.2.0 applies exactly 1.1.0 then 1.2.0. */
  lemma UpgradeAppliesPending(store: Store, stamp: nat)
    requires CurrentVersion(store) == Version(1, 0, 0)
    requires ConversationsReadable(store)
    ensures var run := RunMigrations(store, StorageVersion, Registry, stamp, NoFaults);
            && run.result.success
            && run.result.fromVersion == "1.0.0"
            && run.result.migrationsApplied == ["1.1.0", "1.2.0"]
  {
    UpgradePath(store, stamp);
    ExecuteReadable(store, StorageVersion, Registry[1..], BackupKey(store, Version(1, 0, 0), stamp));
    PendingFromOneZero();
    FormatSmall();
    UpgradeVersions();
  }

  /** The same upgrade leaves a key containing `backup_1.0.0_` in the store. */
  lemma UpgradeLeavesBackup(store: Store, stamp: nat)
    requires CurrentVersion(store) == Version(1, 0, 0)
    requires ConversationsReadable(store)
    ensures var run := RunMigrations(store, StorageVersion, Registry, stamp, NoFaults);
            exists k :: k in run.store && Contains(k, "backup_1.0.0_")
  {
    var key := BackupKey(store, Version(1, 0, 0), stamp);
    PendingFromOneZero();
    BackupKeyNamesVersion(store, stamp);
    assert key in RunMigrations(store, StorageVersion, Registry, stamp, NoFaults).store;
  }

  /** The same upgrade numbers the messages and then moves the agent field, in that order. */
  lemma UpgradeMigratesConversations(store: Store, stamp: nat)
    requires CurrentVersion(store) == Version(1, 0, 0)
    requires ConversationsReadable(store) && ConversationsKey in store
    ensures var run := RunMigrations(store, StorageVersion, Registry, stamp, NoFaults);
            && ConversationsKey in run.store
            && run.store[ConversationsKey] == Conversations(
                 TransformAll(RenameAgentField, TransformAll(AddSequence, store[ConversationsKey].list)))
  {
    var pending := Registry[1..];
    UpgradePath(store, stamp);
    ExecuteReadable(store, StorageVersion, pending, BackupKey(store, Version(1, 0, 0), stamp));
    var list := store[ConversationsKey].list;
    assert TransformSteps(pending, list) == TransformAll(RenameAgentField, TransformAll(AddSequence, list)) by {
      assert pending[0].step == AddSequence && pending[1..][0].step == RenameAgentField;
      assert pending[1..][1..] == [];
    }
  }

  /** The suite's upgrade record: one conversation, one message, the old agent field. */
  const SuiteConversation := Conversation(
    "sess-1", [Message("msg-1", "user", "test", 0, Metadata(None))], Some("agent-conn-1"), None)

  lemma SuiteConversationSteps()
    ensures TransformAll(RenameAgentField, TransformAll(AddSequence, [SuiteConversation]))
            == [SuiteConversationAfter]
  {
    var numbered := WithSequence(SuiteConversation);
    assert numbered.messages == [Message("msg-1", "user", "test", 0, Metadata(Some(0)))];
    assert TransformAll(AddSequence, [SuiteConversation]) == [numbered];
  }

  /** The migrated form of the suite's record. */
  const SuiteConversationAfter := Conversation(
    "sess-1", [Message("msg-1", "user", "test", 0, Metadata(Some(0)))], None, Some("agent-conn-1"))

  /**
   * A store at "1.0.0" holding the suite's record comes out with the first
   * message numbered 0 and the agent id moved to `agentConfigId`.
   */
  lemma SuiteConversationMigrated(store: Store, stamp: nat)
    requires VersionKey in store && store[VersionKey] == Text("1.0.0")
    requires ConversationsKey in store && store[ConversationsKey] == Conversations([SuiteConversation])
    ensures var run := RunMigrations(store, StorageVersion, Registry, stamp, NoFaults);
            && ConversationsKey in run.store
            && run.store[ConversationsKey] == Conversations([SuiteConversationAfter])
  {
    ReadsOneZero(store);
    UpgradeMigratesConversations(store, stamp);
    SuiteConversationSteps();
  }

  /** When the stored version is the application's, the run succeeds with no step and no write. */
  lemma MatchingVersionIsNoOp(store: Store, target: Version, registry: seq<Migration>, stamp: nat, faults: IoFaults)
    requires Ascending(registry) && CurrentVersion(store) == target
    ensures var run := RunMigrations(store, target, registry, stamp, faults);
            run.result.success && run.result.migrationsApplied == [] && run.writes == [] && run.store == store
  {
    LessIrreflexive(target);
  }

  /** A successful run leaves the store where an immediate second run does nothing. */
  lemma Idempotent(store: Store, target: Version, registry: seq<Migration>, stamp: nat, faults: IoFaults,
                   stamp2: nat, faults2: IoFaults)
    requires Ascending(registry)
    requires RunMigrations(store, target, registry, stamp, faults).result.success
    ensures var after := RunMigrations(store, target, registry, stamp, faults).store;
            NoOp(after, target, RunMigrations(after, target, registry, stamp2, faults2))
  {
    var run := RunMigrations(store, target, registry, stamp, faults);
    if run.result.migrationsApplied == [] {
      assert Versions(Pending(registry, CurrentVersion(store), target)) == [];
      assert run.store == store;
    } else {
      LessIrreflexive(target);
    }
  }
}
