/**
  backup-production.ts: one backup followed by the verification of exactly the object it
  uploaded, under one lock of its own.
 */
module ProductionBackup {
  import opened Wrappers
  import opened Envelope
  import opened BackupLock
  import opened BackupWorld
  import opened BackupDatabase
  import opened RestoreVerify
  import Freshness
  import opened BackupKeys

  const PRODUCTION_DATABASE := "tms_dev"
  const PRODUCTION_LOCK := ".backup-production.lock"

  datatype BackupConfig = BackupConfig(dir: string, dbName: string, kmsKeyId: string, prefix: string)

  datatype VerifyConfig = VerifyConfig(workDir: string, maintenanceDb: string, forbidden: seq<string>)

  /** A verification run changes no object, so what a backup kept stays kept. */
  lemma VerifyingKeepsObjects(
    was: seq<Snapshot>, mid: seq<Snapshot>, now: seq<Snapshot>, bucket: map<string, Bytes>,
    later: map<string, Bytes>, databases: map<string, Database>, name: string)
    requires KeepsObjects(mid, was, bucket) && Extends(later, bucket)
    requires TouchesOnlyOwn(now, mid, later, databases, name)
    ensures KeepsObjects(now, was, bucket)
    ensures |was| <= |mid| <= |now| && now[..|mid|] == mid
  {
    assert now[..|was|] == now[..|mid|][..|was|];
    assert forall i :: 0 <= i < |mid| ==> now[i] == now[..|mid|][i];
  }

  /** The very bytes this run dumped are stored at the key, and were restored and checked. */
  ghost predicate ProvenGood(w: World, key: string, since: nat, name: string)
    reads w`bucket, w`lastDump, w`history
  {
    && w.lastDump != []
    && key in w.bucket && Opens(w.codec, w.unwrap, w.bucket[key], w.lastDump)
    && EverRestored(w.history, since, name, w.lastDump)
    && Healthy(w.tablesOf(w.lastDump))
  }

  /** The backup step succeeded: an upload was confirmed, and its hook returned. */
  ghost predicate Confirmed(w: World, confirmed: seq<string>, thrown: nat)
    reads w`confirmed, w`thrown
  {
    |w.confirmed| == |confirmed| + 1 && w.confirmed[..|confirmed|] == confirmed && w.thrown == thrown
  }

  // ---- locks ----

  /** The lock files and what was logged about them. */
  datatype LockView = LockView(
    locks: map<Path, LockFile>, taken: seq<Path>, releases: seq<Path>, stuck: set<Path>, faults: nat)

  ghost function LocksOf(w: World): LockView
    reads w`locks, w`taken, w`releases, w`stuck, w`faults
  {
    LockView(w.locks, w.taken, w.releases, w.stuck, w.faults)
  }

  /** The file is gone, or deleting it was tried and failed. */
  ghost predicate Freed(now: LockView, was: LockView, lock: Path) {
    lock in now.locks ==> lock in now.stuck && was.faults < now.faults
  }

  /** Exactly these locks were taken, one after the other, and each was given back; no other file changed. */
  ghost predicate TookAndGave(now: LockView, was: LockView, locks: seq<Path>, touched: set<Path>) {
    && now.taken == was.taken + locks && now.releases == was.releases + locks
    && was.stuck <= now.stuck && was.faults <= now.faults
    && SameExcept(now.locks, was.locks, touched)
    && forall i :: 0 <= i < |locks| ==> locks[i] in touched && Freed(now, was, locks[i])
  }

  lemma TookInTurn(
    now: LockView, mid: LockView, was: LockView, first: seq<Path>, second: seq<Path>, these: set<Path>,
    those: set<Path>)
    requires TookAndGave(mid, was, first, these) && TookAndGave(now, mid, second, those) && these !! those
    ensures TookAndGave(now, was, first + second, these + those)
  {
    assert was.taken + (first + second) == was.taken + first + second;
    assert was.releases + (first + second) == was.releases + first + second;
    var locks := first + second;
    forall i | 0 <= i < |locks| ensures locks[i] in these + those && Freed(now, was, locks[i]) {
      if i < |first| {
        assert first[i] !in those;
      } else {
        assert locks[i] == second[i - |first|];
      }
    }
  }

  lemma Untouched(now: LockView, was: LockView, locks: seq<Path>, touched: set<Path>, path: Path)
    requires TookAndGave(now, was, locks, touched) && path !in touched
    ensures FileAt(now.locks, path) == FileAt(was.locks, path)
  {
  }

  function BackupLockOf(backup: BackupConfig): Path {
    Path(backup.dir, BACKUP_LOCK)
  }

  function VerifyLockOf(verify: VerifyConfig): Path {
    Path(verify.workDir, RESTORE_LOCK)
  }

  function StepPaths(backup: BackupConfig, verify: Option<VerifyConfig>): set<Path> {
    {BackupLockOf(backup)} + if verify.Some? then {VerifyLockOf(verify.value)} else {}
  }

  /** The locks of the steps that began; only a run that took both can return 0. */
  ghost predicate Steps(locks: seq<Path>, backup: BackupConfig, verify: Option<VerifyConfig>, exitCode: int) {
    || (locks == [] && exitCode != 0)
    || (locks == [BackupLockOf(backup)] && exitCode != 0)
    || (verify.Some? && locks == [BackupLockOf(backup)] + [VerifyLockOf(verify.value)])
  }

  ghost predicate StepLocks(
    now: LockView, was: LockView, backup: BackupConfig, verify: Option<VerifyConfig>, exitCode: int)
  {
    exists locks :: Steps(locks, backup, verify, exitCode) && TookAndGave(now, was, locks, StepPaths(backup, verify))
  }

  /** Nothing was taken; or the production lock was taken first and given back last, the steps' in between. */
  ghost predicate AllGivenBack(
    now: LockView, was: LockView, backup: BackupConfig, verify: Option<VerifyConfig>, exitCode: int)
  {
    var lock := Path(backup.dir, PRODUCTION_LOCK);
    || (now.taken == was.taken && now.releases == was.releases && exitCode == 1)
    || exists locks ::
         && Steps(locks, backup, verify, exitCode)
         && now.taken == was.taken + ([lock] + locks) && now.releases == was.releases + (locks + [lock])
         && Freed(now, was, lock) && forall i :: 0 <= i < |locks| ==> Freed(now, was, locks[i])
  }

  /** A run whose second step never began. */
  lemma OneStep(
    now: LockView, was: LockView, locks: seq<Path>, backup: BackupConfig, verify: Option<VerifyConfig>, exitCode: int)
    requires TookAndGave(now, was, locks, {BackupLockOf(backup)}) && exitCode != 0
    requires locks == [] || locks == [BackupLockOf(backup)]
    ensures StepLocks(now, was, backup, verify, exitCode)
  {
    assert Steps(locks, backup, verify, exitCode);
    assert SameExcept(now.locks, was.locks, StepPaths(backup, verify));
    assert TookAndGave(now, was, locks, StepPaths(backup, verify));
  }

  lemma BothSteps(
    now: LockView, mid: LockView, was: LockView, second: seq<Path>, backup: BackupConfig, verify: VerifyConfig,
    exitCode: int)
    requires TookAndGave(mid, was, [BackupLockOf(backup)], {BackupLockOf(backup)})
    requires TookAndGave(now, mid, second, {VerifyLockOf(verify)})
    requires second == [VerifyLockOf(verify)] || (second == [] && exitCode != 0)
    ensures StepLocks(now, was, backup, Some(verify), exitCode)
  {
    assert BACKUP_LOCK != RESTORE_LOCK;
    TookInTurn(now, mid, was, [BackupLockOf(backup)], second, {BackupLockOf(backup)}, {VerifyLockOf(verify)});
    assert [BackupLockOf(backup)] + [] == [BackupLockOf(backup)];
    assert Steps([BackupLockOf(backup)] + second, backup, Some(verify), exitCode);
  }

  lemma ProductionLockIsApart(backup: BackupConfig, verify: Option<VerifyConfig>)
    ensures Path(backup.dir, PRODUCTION_LOCK) !in StepPaths(backup, verify)
  {
    assert PRODUCTION_LOCK != BACKUP_LOCK && PRODUCTION_LOCK != RESTORE_LOCK;
  }

  lemma AroundTheSteps(
    now: LockView, mid: LockView, held: LockView, was: LockView, backup: BackupConfig, verify: Option<VerifyConfig>,
    exitCode: int)
    requires var lock := Path(backup.dir, PRODUCTION_LOCK);
             && held.taken == was.taken + [lock] && held.releases == was.releases && was.faults <= held.faults
             && StepLocks(mid, held, backup, verify, exitCode)
             && now.taken == mid.taken && now.releases == mid.releases + [lock] && mid.stuck <= now.stuck
             && mid.faults <= now.faults && SameExcept(now.locks, mid.locks, {lock})
             && (lock in now.locks ==> lock in now.stuck && mid.faults < now.faults)
    ensures AllGivenBack(now, was, backup, verify, exitCode)
  {
    var lock := Path(backup.dir, PRODUCTION_LOCK);
    var locks :| Steps(locks, backup, verify, exitCode) && TookAndGave(mid, held, locks, StepPaths(backup, verify));
    ProductionLockIsApart(backup, verify);
    assert was.taken + [lock] + locks == was.taken + ([lock] + locks);
    assert was.releases + locks + [lock] == was.releases + (locks + [lock]);
    forall i | 0 <= i < |locks| ensures Freed(now, was, locks[i]) {
      assert Freed(mid, held, locks[i]) && locks[i] != lock;
    }
  }

  // ---- what a verification may change ----

  datatype VerifyLog = VerifyLog(
    downloads: seq<string>, names: seq<string>, creates: seq<Report>, drops: seq<Report>, made: nat, gone: nat,
    databases: map<string, Database>)

  ghost function VerifyLogOf(w: World): VerifyLog
    reads w`downloads, w`names, w`creates, w`drops, w`made, w`gone, w`databases
  {
    VerifyLog(w.downloads, w.names, w.creates, w.drops, w.made, w.gone, w.databases)
  }

  /** Verification read exactly the confirmed key; or it never began, and did nothing. */
  ghost predicate VerifiedOrNot(w: World, was: VerifyLog, confirmed: seq<string>, thrown: nat, exitCode: int)
    reads w`confirmed, w`thrown, w`downloads, w`names, w`creates, w`drops, w`made, w`gone, w`databases
  {
    || (VerifyLogOf(w) == was && exitCode != 0)
    || (Confirmed(w, confirmed, thrown) && w.downloads == was.downloads + [w.confirmed[|confirmed|]])
  }

  /** The freshness monitor calls a listing with this object Healthy until it passes the threshold. */
  ghost predicate KeepsMonitorHealthy(key: string, prefix: string) {
    forall objects: seq<Freshness.Object>, modified: int, now: int, thresholdHours: real ::
      Freshness.Object(key, modified) in objects && Freshness.YoungEnough(modified, now, thresholdHours) ==>
        Freshness.Evaluate(objects, prefix, now, thresholdHours) == Freshness.Verdict.Healthy
  }

  /** The backup step's success: this run's dump is the one new object, under a key the monitor knows. */
  ghost predicate Captured(
    w: World, confirmed: seq<string>, thrown: nat, bucket: map<string, Bytes>, backup: BackupConfig)
    reads w`confirmed, w`thrown, w`bucket, w`lastDump
  {
    && Confirmed(w, confirmed, thrown)
    && var key := w.confirmed[|confirmed|];
       && key !in bucket && key in w.bucket && w.lastDump != []
       && Opens(w.codec, w.unwrap, w.bucket[key], w.lastDump)
       && Labelled(w.codec, w.bucket[key], backup.kmsKeyId, backup.dbName)
       && IsBackupKey(key, backup.dbName, backup.prefix)
       && (backup.dbName == PRODUCTION_DATABASE ==> KeepsMonitorHealthy(key, backup.prefix))
  }

  /**
    How a run ends.  Verification began only after a backup that succeeded, and not without a
    configuration or against a forbidden maintenance database; a database left behind made the
    run fail; and 0 means the dump is stored, was restored and is healthy.
   */
  ghost predicate Outcome(
    w: World, was: VerifyLog, confirmed: seq<string>, thrown: nat, bucket: map<string, Bytes>, since: nat,
    backup: BackupConfig, verify: Option<VerifyConfig>, name: string, exitCode: int)
    reads w`confirmed, w`thrown, w`downloads, w`names, w`creates, w`drops, w`made, w`gone, w`databases, w`bucket
    reads w`lastDump, w`history
  {
    && VerifiedOrNot(w, was, confirmed, thrown, exitCode)
    && LeftBehindExactly(w, was.databases, was.made, was.gone, exitCode)
    && (verify.None? || ForbiddenMaintenance(verify.value.maintenanceDb, verify.value.forbidden) ==>
          VerifyLogOf(w) == was && exitCode != 0)
    && (exitCode == 0 ==>
          && Captured(w, confirmed, thrown, bucket, backup)
          && ProvenGood(w, w.confirmed[|confirmed|], since, name)
          && w.databases == was.databases)
  }

  lemma OutcomeOfFailure(
    w: World, confirmed: seq<string>, thrown: nat, bucket: map<string, Bytes>, since: nat, backup: BackupConfig,
    verify: Option<VerifyConfig>, name: string, exitCode: int)
    requires exitCode != 0
    ensures Outcome(w, VerifyLogOf(w), confirmed, thrown, bucket, since, backup, verify, name, exitCode)
  {
  }

  // ---- what can stand in the way ----

  /** Nothing but chance can stop a run: locks and limits are as it needs them. */
  ghost predicate Unobstructed(w: World, backup: BackupConfig, verify: Option<VerifyConfig>)
    reads w`locks
  {
    && verify.Some?
    && w.CanTake(FileAt(w.locks, BackupLockOf(backup))) && w.CanTake(FileAt(w.locks, VerifyLockOf(verify.value)))
    && HeadersFit(w.codec, backup.kmsKeyId, backup.dbName)
    && IsSafeMaintenanceName(verify.value.maintenanceDb, verify.value.forbidden)
  }

  /** No key or name drawn in the run was in use or forbidden, and the dump was healthy. */
  ghost predicate Lucky(
    w: World, collisions: seq<string>, clashes: seq<string>, names: seq<string>, verify: Option<VerifyConfig>)
    reads w`collisions, w`clashes, w`names, w`lastDump
  {
    && w.collisions == collisions && w.clashes == clashes
    && (verify.Some? ==> Drawable(w.names, names, verify.value.forbidden))
    && Healthy(w.tablesOf(w.lastDump))
  }

  // ---- the two steps ----

  /** Verification of an uploaded key: success proves the dump good. */
  method VerifyUploaded(w: World, key: string, verify: VerifyConfig, ghost since: nat)
    returns (exitCode: int, ghost name: string, ghost locks: seq<Path>)
    requires key in w.bucket && Opens(w.codec, w.unwrap, w.bucket[key], w.lastDump) && w.lastDump != []
    requires since <= |w.history|
    modifies w`disk, w`keyMemory, w`databases, w`history, w`writes, w`downloads
    modifies w`names, w`creates, w`made, w`clashes, w`drops, w`gone, w`stuck, w`faults, w`locks, w`taken, w`releases
    ensures old(w.faults) <= w.faults
    ensures (w.faults == old(w.faults) && w.clashes == old(w.clashes)
             && w.CanTake(FileAt(old(w.locks), VerifyLockOf(verify)))
             && IsSafeMaintenanceName(verify.maintenanceDb, verify.forbidden)
             && Drawable(w.names, old(w.names), verify.forbidden) && Healthy(w.tablesOf(w.lastDump))) ==> exitCode == 0
    ensures exitCode == 0 ==> ProvenGood(w, key, since, name) && w.databases == old(w.databases)
    ensures TouchesOnlyOwn(w.history, old(w.history), w.bucket, old(w.databases), name)
    ensures LeftBehindExactly(w, old(w.databases), old(w.made), old(w.gone), exitCode)
    ensures TookAndGave(LocksOf(w), old(LocksOf(w)), locks, {VerifyLockOf(verify)})
    ensures locks == [VerifyLockOf(verify)] || (locks == [] && exitCode != 0)
    ensures locks == [] ==> VerifyLogOf(w) == old(VerifyLogOf(w)) && exitCode != 0
    ensures locks != [] ==> w.downloads == old(w.downloads) + [key]
    ensures ForbiddenMaintenance(verify.maintenanceDb, verify.forbidden) ==> locks == []
  {
    hide Opens, Healthy, EverRestored, TouchesOnlyOwn, IsSafeMaintenanceName, SameExcept, PlaintextGone, Drawable;
    hide Clashed, GoodBackup, OnlyOwn, DropsEnded, AllZero, Conserved, ForbiddenMaintenance, Disposable;
    GoodMeansHealthy(w, key, w.lastDump);
    ghost var plaintext: Bytes;
    exitCode, name, plaintext :=
      RunRestoreVerification(w, key, verify.workDir, verify.maintenanceDb, verify.forbidden);
    locks := if w.taken == old(w.taken) then [] else [VerifyLockOf(verify)];
    if exitCode == 0 {
      OpensToOne(w.codec, w.unwrap, w.bucket[key], plaintext, w.lastDump);
      TouchesOnlyOwnGrows(w.history, old(w.history), w.bucket, old(w.databases), name);
      StaysRestored(w.history, w.history, |old(w.history)|, since, name, w.lastDump);
    }
  }

  /** The backup, with the hook that captures the key. */
  method BackupAndCapture(w: World, backup: BackupConfig, now: int) returns (exitCode: int, ghost locks: seq<Path>)
    requires Lawful(w.codec)
    modifies w`disk, w`bucket, w`keyMemory, w`history, w`dumps, w`dumpedAt, w`lastDump, w`writes, w`unlisted
    modifies w`validated, w`confirmed, w`collisions, w`hooks, w`thrown, w`uploadedKey, w`stuck, w`faults
    modifies w`locks, w`taken, w`releases
    ensures old(w.faults) <= w.faults
    ensures (w.faults == old(w.faults) && w.collisions == old(w.collisions)
             && w.CanTake(FileAt(old(w.locks), BackupLockOf(backup)))
             && HeadersFit(w.codec, backup.kmsKeyId, backup.dbName)) ==> exitCode == 0
    ensures KeepsObjects(w.history, old(w.history), old(w.bucket)) && Extends(w.bucket, old(w.bucket))
    ensures exitCode == 0 ==>
              && Captured(w, old(w.confirmed), old(w.thrown), old(w.bucket), backup)
              && w.uploadedKey == Some(w.confirmed[|old(w.confirmed)|])
    ensures TookAndGave(LocksOf(w), old(LocksOf(w)), locks, {BackupLockOf(backup)})
    ensures locks == [BackupLockOf(backup)] || (locks == [] && exitCode != 0)
  {
    hide Opens, Labelled, Lawful, KeepsObjects, Extends, HeadersFit, SameExcept, NeverLost, SweptOnly, Attempted;
    hide KeepsEnvelopes, Acknowledged, NoneLeft, IsBackupKey, DumpedAs, KeepsMonitorHealthy;
    w.uploadedKey := None;
    ghost var path, key;
    exitCode, path, key := RunBackup(w, backup.dir, backup.dbName, backup.kmsKeyId, backup.prefix, now);
    locks := if w.taken == old(w.taken) then [] else [BackupLockOf(backup)];
    if exitCode == 0 && backup.dbName == PRODUCTION_DATABASE {
      BackupKeyKeepsHealthy(key, backup.prefix);
    }
  }

  lemma BackupKeyKeepsHealthy(key: string, prefix: string)
    requires IsBackupKey(key, PRODUCTION_DATABASE, prefix)
    ensures KeepsMonitorHealthy(key, prefix)
  {
    var second :| InFourDigitYears(second) && key == BuildS3ObjectKey(PRODUCTION_DATABASE, prefix, second);
    forall objects: seq<Freshness.Object>, modified: int, now: int, thresholdHours: real
      | Freshness.Object(key, modified) in objects && Freshness.YoungEnough(modified, now, thresholdHours)
      ensures Freshness.Evaluate(objects, prefix, now, thresholdHours) == Freshness.Verdict.Healthy
    {
      Freshness.UploadKeepsHealthy(objects, prefix, second, modified, now, thresholdHours);
    }
  }

  /** The verification step after a backup that succeeded since the given state. */
  method VerifyCaptured(
    w: World, backup: BackupConfig, verify: VerifyConfig, ghost was: LockView, ghost confirmed: seq<string>,
    ghost thrown: nat, ghost bucket: map<string, Bytes>, ghost history: seq<Snapshot>)
    returns (exitCode: int, ghost name: string)
    requires KeepsObjects(w.history, history, bucket) && Extends(w.bucket, bucket)
    requires Captured(w, confirmed, thrown, bucket, backup) && w.uploadedKey == Some(w.confirmed[|confirmed|])
    requires TookAndGave(LocksOf(w), was, [BackupLockOf(backup)], {BackupLockOf(backup)})
    modifies w`disk, w`keyMemory, w`databases, w`history, w`writes, w`downloads
    modifies w`names, w`creates, w`made, w`clashes, w`drops, w`gone, w`stuck, w`faults, w`locks, w`taken, w`releases
    ensures old(w.faults) <= w.faults
    ensures (w.faults == old(w.faults) && w.clashes == old(w.clashes)
             && w.CanTake(FileAt(old(w.locks), VerifyLockOf(verify)))
             && IsSafeMaintenanceName(verify.maintenanceDb, verify.forbidden)
             && Drawable(w.names, old(w.names), verify.forbidden) && Healthy(w.tablesOf(w.lastDump))) ==> exitCode == 0
    ensures KeepsObjects(w.history, history, bucket)
    ensures Outcome(w, old(VerifyLogOf(w)), confirmed, thrown, bucket, |history|, backup, Some(verify),
                    name, exitCode)
    ensures StepLocks(LocksOf(w), was, backup, Some(verify), exitCode)
  {
    hide Opens, Healthy, KeepsObjects, TouchesOnlyOwn, Extends, IsSafeMaintenanceName, Drawable, ProvenGood;
    hide FileAt, StepLocks, TookAndGave, VerifiedOrNot, LeftBehindExactly, World.CanTake, LocksOf;
    hide IsBackupKey, KeepsMonitorHealthy, ForbiddenMaintenance, Labelled;
    LocksSeen(w);
    ghost var history1, locks1 := w.history, LocksOf(w);
    HistoryGrew(history1, history, bucket);
    ghost var second;
    exitCode, name, second := VerifyUploaded(w, w.uploadedKey.value, verify, |history|);
    VerifyingKeepsObjects(history, history1, w.history, bucket, w.bucket, old(w.databases), name);
    VerifiedKey(w, old(VerifyLogOf(w)), confirmed, thrown, exitCode);
    BothSteps(LocksOf(w), locks1, was, second, backup, verify, exitCode);
  }

  /** Backup, then verification of the captured key. */
  method BackupThenVerify(w: World, backup: BackupConfig, verify: Option<VerifyConfig>, now: int)
    returns (exitCode: int, ghost name: string)
    requires Lawful(w.codec)
    modifies w
    // when no call fails and nothing obstructs the run, a healthy dump passes
    ensures old(w.faults) <= w.faults
    ensures (w.faults == old(w.faults) && old(Unobstructed(w, backup, verify))
             && Lucky(w, old(w.collisions), old(w.clashes), old(w.names), verify)) ==> exitCode == 0
    ensures KeepsObjects(w.history, old(w.history), old(w.bucket)) && Extends(w.bucket, old(w.bucket))
    ensures Outcome(w, old(VerifyLogOf(w)), old(w.confirmed), old(w.thrown), old(w.bucket), |old(w.history)|,
                    backup, verify, name, exitCode)
    ensures StepLocks(LocksOf(w), old(LocksOf(w)), backup, verify, exitCode)
  {
    hide Lawful, Healthy, KeepsObjects, Extends, HeadersFit, IsSafeMaintenanceName, Drawable, FileAt, StepLocks;
    hide BackupLockOf, VerifyLockOf, TookAndGave, World.CanTake, Unobstructed, Lucky, LocksOf, VerifyLogOf;
    hide Captured, Outcome;
    LocksSeen(w);
    name := "";
    UnobstructedMeans(w, backup, verify);
    var backupExitCode;
    ghost var first;
    backupExitCode, first := BackupAndCapture(w, backup, now);
    ghost var locks1 := LocksOf(w);
    LocksSeen(w);
    LuckyMeans(w, old(w.collisions), old(w.clashes), old(w.names), verify);
    if backupExitCode != 0 {
      OneStep(locks1, old(LocksOf(w)), first, backup, verify, backupExitCode);
      OutcomeOfFailure(w, old(w.confirmed), old(w.thrown), old(w.bucket), |old(w.history)|, backup, verify, name,
                       backupExitCode);
      return backupExitCode, name;
    }
    if w.uploadedKey.None? || verify.None? {
      OneStep(locks1, old(LocksOf(w)), first, backup, verify, 1);
      OutcomeOfFailure(w, old(w.confirmed), old(w.thrown), old(w.bucket), |old(w.history)|, backup, verify,
                       name, 1);
      return 1, name;
    }
    LocksDiffer(backup, verify.value);
    Untouched(locks1, old(LocksOf(w)), first, {BackupLockOf(backup)}, VerifyLockOf(verify.value));
    exitCode, name := VerifyCaptured(
      w, backup, verify.value, old(LocksOf(w)), old(w.confirmed), old(w.thrown), old(w.bucket), old(w.history));
    LuckyMeans(w, old(w.collisions), old(w.clashes), old(w.names), verify);
  }

  lemma LocksSeen(w: World)
    ensures LocksOf(w).locks == w.locks
  {
  }

  lemma UnobstructedMeans(w: World, backup: BackupConfig, verify: Option<VerifyConfig>)
    ensures Unobstructed(w, backup, verify) ==>
              && verify.Some?
              && w.CanTake(FileAt(w.locks, BackupLockOf(backup)))
              && w.CanTake(FileAt(w.locks, VerifyLockOf(verify.value)))
              && HeadersFit(w.codec, backup.kmsKeyId, backup.dbName)
              && IsSafeMaintenanceName(verify.value.maintenanceDb, verify.value.forbidden)
  {
  }

  lemma LuckyMeans(
    w: World, collisions: seq<string>, clashes: seq<string>, names: seq<string>, verify: Option<VerifyConfig>)
    ensures Lucky(w, collisions, clashes, names, verify) ==>
              && w.collisions == collisions && w.clashes == clashes && Healthy(w.tablesOf(w.lastDump))
              && (verify.Some? ==> Drawable(w.names, names, verify.value.forbidden))
  {
  }

  lemma VerifiedKey(w: World, was: VerifyLog, confirmed: seq<string>, thrown: nat, exitCode: int)
    requires Confirmed(w, confirmed, thrown)
    requires (VerifyLogOf(w) == was && exitCode != 0) || w.downloads == was.downloads + [w.confirmed[|confirmed|]]
    ensures VerifiedOrNot(w, was, confirmed, thrown, exitCode)
  {
  }

  lemma LocksDiffer(backup: BackupConfig, verify: VerifyConfig)
    ensures BackupLockOf(backup) != VerifyLockOf(verify)
  {
    assert BACKUP_LOCK != RESTORE_LOCK;
  }

  /**
    runProductionBackupAndVerify.  Returning 0 means the bytes dumped in this run are stored,
    were restored from storage and passed every check.  Every lock taken is given back once.
   */
  method RunProductionBackupAndVerify(
    w: World, backup: Option<BackupConfig>, verify: Option<VerifyConfig>, now: int)
    returns (exitCode: int, ghost name: string)
    requires Lawful(w.codec)
    modifies w
    // when no call fails and nothing obstructs the run, a healthy dump passes
    ensures (w.faults == old(w.faults) && backup.Some? && backup.value.dbName == PRODUCTION_DATABASE
             && old(w.Available(Path(backup.value.dir, PRODUCTION_LOCK)))
             && old(Unobstructed(w, backup.value, verify))
             && Lucky(w, old(w.collisions), old(w.clashes), old(w.names), verify)) ==> exitCode == 0
    ensures KeepsObjects(w.history, old(w.history), old(w.bucket)) && Extends(w.bucket, old(w.bucket))
    // verification only after a successful backup; nothing left behind on success; 0 proves the dump good
    ensures backup.Some? ==>
              Outcome(w, old(VerifyLogOf(w)), old(w.confirmed), old(w.thrown), old(w.bucket), |old(w.history)|,
                      backup.value, verify, name, exitCode)
    // every lock taken is given back exactly once, and its file is gone unless deleting it failed
    ensures backup.Some? ==> AllGivenBack(LocksOf(w), old(LocksOf(w)), backup.value, verify, exitCode)
    // any other target database is refused before anything happens
    ensures backup.None? || backup.value.dbName != PRODUCTION_DATABASE ==>
              exitCode == 1 && w.disk == old(w.disk) && w.bucket == old(w.bucket) && w.locks == old(w.locks)
              && w.taken == old(w.taken) && VerifyLogOf(w) == old(VerifyLogOf(w))
  {
    hide Lawful, Healthy, KeepsObjects, Extends, HeadersFit, IsSafeMaintenanceName, Drawable;
    hide SameExcept, Lucky, World.CanTake, StepLocks, StepPaths, AllGivenBack, Outcome, VerifyLogOf;
    name := "";
    NothingLost(w.history, w.bucket);
    if backup.Some? {
      OutcomeOfFailure(w, w.confirmed, w.thrown, w.bucket, |w.history|, backup.value, verify, name, 1);
    }
    if backup.None? || backup.value.dbName != PRODUCTION_DATABASE {
      NothingGivenBack(LocksOf(w), LocksOf(w), backup, verify);
      return 1, name;
    }
    var lock := w.PrepareAndLock(Path(backup.value.dir, PRODUCTION_LOCK), true);
    if lock == null {
      NothingGivenBack(LocksOf(w), old(LocksOf(w)), backup, verify);
      return 1, name;
    }
    OtherLocksKept(w.locks, old(w.locks), backup.value, verify);
    ghost var held := LocksOf(w);
    exitCode, name := BackupThenVerify(w, backup.value, verify, now);
    ghost var mid := LocksOf(w);
    ProductionLockKept(mid, held, backup.value, verify, exitCode);
    w.Release(lock);
    AroundTheSteps(LocksOf(w), mid, held, old(LocksOf(w)), backup.value, verify, exitCode);
  }

  lemma NothingGivenBack(now: LockView, was: LockView, backup: Option<BackupConfig>, verify: Option<VerifyConfig>)
    requires now.taken == was.taken && now.releases == was.releases
    ensures backup.Some? ==> AllGivenBack(now, was, backup.value, verify, 1)
  {
  }

  lemma OtherLocksKept(
    now: map<Path, LockFile>, was: map<Path, LockFile>, backup: BackupConfig, verify: Option<VerifyConfig>)
    requires SameExcept(now, was, {Path(backup.dir, PRODUCTION_LOCK)})
    ensures FileAt(now, BackupLockOf(backup)) == FileAt(was, BackupLockOf(backup))
    ensures verify.Some? ==> FileAt(now, VerifyLockOf(verify.value)) == FileAt(was, VerifyLockOf(verify.value))
  {
    ProductionLockIsApart(backup, verify);
  }

  lemma ProductionLockKept(
    now: LockView, held: LockView, backup: BackupConfig, verify: Option<VerifyConfig>, exitCode: int)
    requires StepLocks(now, held, backup, verify, exitCode)
    ensures var lock := Path(backup.dir, PRODUCTION_LOCK);
            FileAt(now.locks, lock) == FileAt(held.locks, lock)
  {
    ProductionLockIsApart(backup, verify);
  }
}
