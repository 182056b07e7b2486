/**
  backup-database.ts: dump, validate, encrypt, upload.  What the contracts follow through
  every failure is the dump's bytes: where they can still be recovered from, and what is
  left on disk in the clear.
 */
module BackupDatabase {
  import opened Wrappers
  import opened Envelope
  import opened BackupWorld
  import opened BackupKeys

  /** How an asynchronous step ends: with an exit code, or by throwing. */
  datatype Exit = Code(code: int) | Threw

  function EncryptedPath(path: Path): Path {
    Path(path.dir, path.name + ".enc")
  }

  /** An envelope of these bytes is on the disk or in the bucket. */
  ghost predicate IntactCopy(w: World, s: Snapshot, path: Path, key: string, dump: Bytes) {
    || (EncryptedPath(path) in s.disk && Opens(w.codec, w.unwrap, s.disk[EncryptedPath(path)].data, dump))
    || (key in s.bucket && Opens(w.codec, w.unwrap, s.bucket[key], dump))
  }

  /** The dump itself is still there, or an envelope of it is. */
  ghost predicate Recoverable(w: World, s: Snapshot, path: Path, key: string, dump: Bytes) {
    (path in s.disk && s.disk[path].data == dump) || IntactCopy(w, s, path, key, dump)
  }

  /** Every object of the earlier bucket is in the later one, unchanged. */
  predicate Extends(later: map<string, Bytes>, earlier: map<string, Bytes>) {
    forall k :: k in earlier ==> k in later && later[k] == earlier[k]
  }

  /** The history only grew, and in every world since then the bucket kept its objects. */
  ghost predicate KeepsObjects(now: seq<Snapshot>, was: seq<Snapshot>, bucket: map<string, Bytes>) {
    && |was| <= |now| && now[..|was|] == was
    && forall i :: |was| <= i < |now| ==> Extends(now[i].bucket, bucket)
  }

  lemma KeepsObjectsOn(was: seq<Snapshot>, mid: seq<Snapshot>, now: seq<Snapshot>, bucket: map<string, Bytes>)
    requires KeepsObjects(mid, was, bucket) && KeepsObjects(now, mid, bucket)
    ensures KeepsObjects(now, was, bucket)
  {
    assert now[..|was|] == now[..|mid|][..|was|];
    assert forall i :: 0 <= i < |mid| ==> now[i] == now[..|mid|][i];
  }

  lemma NothingLost(history: seq<Snapshot>, bucket: map<string, Bytes>)
    ensures KeepsObjects(history, history, bucket) && Extends(bucket, bucket)
  {
  }

  /** The one write made since then was of this file, and was acknowledged. */
  predicate Acknowledged(now: seq<Write>, was: seq<Write>, path: Path) {
    now == was + [Write(path, true)]
  }

  /** No write, or one of this file. */
  predicate Attempted(now: seq<Write>, was: seq<Write>, path: Path) {
    now == was || now == was + [Write(path, false)] || Acknowledged(now, was, path)
  }

  lemma FailureIsNotAcknowledged(was: seq<Write>, path: Path)
    ensures Attempted(was, was, path)
    ensures !Acknowledged(was, was, path) && !Acknowledged(was + [Write(path, false)], was, path)
  {
    assert (was + [Write(path, false)])[|was|] != (was + [Write(path, true)])[|was|];
  }

  ghost predicate RecoverableSince(w: World, since: nat, path: Path, key: string, dump: Bytes)
    reads w`history
  {
    forall i :: since <= i < |w.history| ==> Recoverable(w, w.history[i], path, key, dump)
  }

  /** Reads and encrypts the dump; whenever that fails, the dump is deleted. */
  method EncryptDump(w: World, path: Path, dbName: string, kmsKeyId: string)
    returns (envelope: Option<Bytes>)
    requires Lawful(w.codec)
    modifies w`disk, w`keyMemory, w`history, w`stuck, w`faults
    ensures old(w.faults) <= w.faults && old(w.stuck) <= w.stuck
    ensures (w.faults == old(w.faults) && path in old(w.disk) && old(w.disk)[path].data != []
             && HeadersFit(w.codec, kmsKeyId, dbName)) ==> envelope.Some?
    ensures AllZero(w.keyMemory) || w.keyMemory == old(w.keyMemory)
    ensures envelope.Some? ==>
              && w.disk == old(w.disk) && w.history == old(w.history)
              && path in w.disk && w.disk[path].data != []
              && Opens(w.codec, w.unwrap, envelope.value, w.disk[path].data)
              && Labelled(w.codec, envelope.value, kmsKeyId, dbName)
    ensures envelope.None? ==>
              && (path in w.disk ==> path in w.stuck && old(w.faults) < w.faults)
              && SameExcept(w.disk, old(w.disk), {path})
              && (w.history == old(w.history) || w.history == old(w.history) + [w.Now()])
  {
    hide Opens, Labelled, Decrypt, Parse, Lawful, HeadersFit, Encrypt;
    envelope := None;
    var stats := w.Stat(path);
    if stats.None? {
      return;
    }
    if |stats.value.data| == 0 {
      w.CleanupPartialOutput(path);
      return;
    }
    var key := w.GenerateDataKey();
    if key.None? {
      w.CleanupPartialOutput(path);
      return;
    }
    var sealed: Result<Bytes, EnvelopeError> := Err(AuthenticationFailed);
    var plaintext := w.ReadFile(path);
    if plaintext.Some? {
      var iv := w.RandomBytes(IV_LENGTH);
      var now := w.ClockText();
      sealed := Encrypt(w.codec, plaintext.value, key.value.plain, key.value.encrypted, kmsKeyId, dbName, iv, now);
      if sealed.Ok? {
        EncryptedOpens(w.codec, w.unwrap, plaintext.value, key.value, kmsKeyId, dbName, iv, now);
      } else {
        EncryptFailsOnlyThen(w.codec, plaintext.value, key.value, kmsKeyId, dbName, iv, now);
      }
    }
    w.ZeroKey();
    if sealed.Err? {
      w.CleanupPartialOutput(path);
      return;
    }
    envelope := Some(sealed.value);
  }

  lemma EncryptedOpens(
    codec: Codec, unwrap: Bytes -> Bytes, plaintext: Bytes, key: DataKey, kmsKeyId: string, dbName: string,
    iv: Bytes, now: string)
    requires Lawful(codec) && |iv| == IV_LENGTH && unwrap(key.encrypted) == key.plain
    requires Encrypt(codec, plaintext, key.plain, key.encrypted, kmsKeyId, dbName, iv, now).Ok?
    ensures var envelope := Encrypt(codec, plaintext, key.plain, key.encrypted, kmsKeyId, dbName, iv, now).value;
            Opens(codec, unwrap, envelope, plaintext) && Labelled(codec, envelope, kmsKeyId, dbName)
  {
    hide Encrypt, Parse, Decrypt;
    DecryptOfEncrypt(codec, plaintext, key.plain, key.encrypted, kmsKeyId, dbName, iv, now);
  }

  /** No header for this key and database reaches 2^32 bytes. */
  ghost predicate HeadersFit(c: Codec, kmsKeyId: string, dbName: string) {
    forall encrypted: Bytes, iv: Bytes, tag: Bytes, now: string ::
      |encrypted| <= MAX_ENCRYPTED_KEY && |iv| == IV_LENGTH && |tag| == AUTH_TAG_LENGTH && |now| == ISO_LENGTH ==>
        |c.toJson(Header(1, "AES-256-GCM", kmsKeyId, c.toBase64(encrypted),
                         c.toBase64(iv), c.toBase64(tag), dbName, now))| < UINT32
  }

  lemma EncryptFailsOnlyThen(
    codec: Codec, plaintext: Bytes, key: DataKey, kmsKeyId: string, dbName: string, iv: Bytes, now: string)
    requires Lawful(codec) && |iv| == IV_LENGTH && |now| == ISO_LENGTH
    requires Encrypt(codec, plaintext, key.plain, key.encrypted, kmsKeyId, dbName, iv, now).Err?
    ensures || |key.plain| != DATA_KEY_LENGTH || |key.encrypted| > MAX_ENCRYPTED_KEY
            || !HeadersFit(codec, kmsKeyId, dbName)
  {
  }

  /** Writes the envelope, then deletes the dump; a failed write deletes both. */
  method StoreEnvelope(w: World, path: Path, envelope: Bytes, ghost key: string, ghost dump: Bytes)
    returns (ok: bool)
    requires path in w.disk && w.disk[path].data == dump && Opens(w.codec, w.unwrap, envelope, dump)
    modifies w`disk, w`history, w`writes, w`stuck, w`faults
    ensures old(w.faults) <= w.faults && (w.faults == old(w.faults) ==> ok)
    ensures w.writes == old(w.writes) + [Write(EncryptedPath(path), ok)]
    ensures old(w.stuck) <= w.stuck
    ensures path in w.disk ==> path in w.stuck && old(w.faults) < w.faults
    ensures SameExcept(w.disk, old(w.disk), {path, EncryptedPath(path)})
    ensures KeepsObjects(w.history, old(w.history), w.bucket)
    ensures !ok && EncryptedPath(path) in w.disk ==> EncryptedPath(path) in w.stuck
    ensures ok ==>
              && EncryptedPath(path) in w.disk && w.disk[EncryptedPath(path)].data == envelope
              && RecoverableSince(w, |old(w.history)|, path, key, dump)
  {
    hide Opens;
    PathsDiffer(path);
    ok := w.WriteFile(EncryptedPath(path), envelope);
    assert w.disk[path].data == dump;
    if !ok {
      w.CleanupPartialOutput(path);
      w.CleanupPartialOutput(EncryptedPath(path));
      return;
    }
    w.CleanupPartialOutput(path);
  }

  lemma PathsDiffer(path: Path)
    ensures EncryptedPath(path) != path
  {
    assert |EncryptedPath(path).name| == |path.name| + 4;
  }

  /** Uploads; only an acknowledged upload lets the local envelope go and fires the hook. */
  method ShipEnvelope(w: World, path: Path, key: string, envelope: Bytes, ghost dump: Bytes)
    returns (exit: Exit)
    requires EncryptedPath(path) in w.disk && w.disk[EncryptedPath(path)].data == envelope
    requires Opens(w.codec, w.unwrap, envelope, dump)
    modifies w`disk, w`bucket, w`history, w`confirmed, w`collisions
    modifies w`hooks, w`thrown, w`uploadedKey, w`stuck, w`faults
    ensures old(w.faults) <= w.faults
    ensures w.faults == old(w.faults) && w.collisions == old(w.collisions) ==> exit == Code(0)
    ensures w.collisions == if key in old(w.bucket) then old(w.collisions) + [key] else old(w.collisions)
    ensures SameExcept(w.disk, old(w.disk), {EncryptedPath(path)})
    ensures old(w.stuck) <= w.stuck
    ensures KeepsObjects(w.history, old(w.history), old(w.bucket)) && Extends(w.bucket, old(w.bucket))
    ensures RecoverableSince(w, |old(w.history)|, path, key, dump)
    ensures w.confirmed == old(w.confirmed) || w.confirmed == old(w.confirmed) + [key]
    ensures w.hooks == if w.confirmed == old(w.confirmed) then old(w.hooks) else old(w.hooks) + [key]
    ensures w.uploadedKey == if w.confirmed == old(w.confirmed) then old(w.uploadedKey) else Some(key)
    ensures w.thrown == if exit == Threw then old(w.thrown) + 1 else old(w.thrown)
    ensures exit == Code(1) <==> w.confirmed == old(w.confirmed)
    ensures exit == Code(0) || exit == Code(1) || exit == Threw
    ensures w.confirmed != old(w.confirmed) ==> key !in old(w.bucket) && w.bucket == old(w.bucket)[key := envelope]
    ensures w.confirmed == old(w.confirmed) ==>
              EncryptedPath(path) in w.disk && w.disk[EncryptedPath(path)].data == envelope
    ensures w.confirmed != old(w.confirmed) && EncryptedPath(path) in w.disk ==>
              EncryptedPath(path) in w.stuck && old(w.faults) < w.faults
  {
    hide Opens;
    var ok := w.UploadObject(key, envelope);
    if !ok {
      return Code(1);
    }
    w.CleanupPartialOutput(EncryptedPath(path));
    var threw := w.OnUploadSuccess(key);
    return if threw then Threw else Code(0);
  }

  /**
    From a validated dump to an uploaded envelope.  Once the envelope's write is
    acknowledged, some copy of the dump can always be recovered.
   */
  method EncryptAndUploadDump(w: World, path: Path, dbName: string, kmsKeyId: string, key: string)
    returns (exit: Exit)
    requires Lawful(w.codec)
    modifies w`disk, w`bucket, w`keyMemory, w`history, w`writes, w`confirmed, w`collisions
    modifies w`hooks, w`thrown, w`uploadedKey, w`stuck, w`faults
    // when no call fails, a non-empty dump under a new key is uploaded
    ensures old(w.faults) <= w.faults && old(w.stuck) <= w.stuck
    ensures (w.faults == old(w.faults) && w.collisions == old(w.collisions) && path in old(w.disk)
             && old(w.disk)[path].data != [] && HeadersFit(w.codec, kmsKeyId, dbName)) ==> exit == Code(0)
    ensures w.collisions == old(w.collisions) || (w.collisions == old(w.collisions) + [key] && key in old(w.bucket))
    // no plaintext is left unless examining or deleting it failed; the data key is wiped
    ensures path in w.disk ==> path in w.stuck && old(w.faults) < w.faults
    ensures AllZero(w.keyMemory) || w.keyMemory == old(w.keyMemory)
    // nothing else is touched, and no stored object ever changes
    ensures SameExcept(w.disk, old(w.disk), {path, EncryptedPath(path)})
    ensures KeepsObjects(w.history, old(w.history), old(w.bucket)) && Extends(w.bucket, old(w.bucket))
    // once the envelope is written, the dump is never lost; before that, nothing is shipped
    ensures Attempted(w.writes, old(w.writes), EncryptedPath(path))
    ensures Acknowledged(w.writes, old(w.writes), EncryptedPath(path)) ==>
              && path in old(w.disk) && old(w.disk)[path].data != []
              && RecoverableSince(w, |old(w.history)|, path, key, old(w.disk)[path].data)
    ensures !Acknowledged(w.writes, old(w.writes), EncryptedPath(path)) ==>
              exit == Code(1) && w.bucket == old(w.bucket) && w.confirmed == old(w.confirmed)
    // success means: upload acknowledged, hook called exactly once and returned
    ensures w.confirmed == old(w.confirmed) || w.confirmed == old(w.confirmed) + [key]
    ensures w.hooks == if w.confirmed == old(w.confirmed) then old(w.hooks) else old(w.hooks) + [key]
    ensures w.uploadedKey == if w.confirmed == old(w.confirmed) then old(w.uploadedKey) else Some(key)
    ensures w.thrown == if exit == Threw then old(w.thrown) + 1 else old(w.thrown)
    ensures exit == Code(1) <==> w.confirmed == old(w.confirmed)
    ensures exit == Code(0) || exit == Code(1) || exit == Threw
    ensures w.confirmed != old(w.confirmed) ==>
              && path in old(w.disk) && key !in old(w.bucket) && key in w.bucket
              && Opens(w.codec, w.unwrap, w.bucket[key], old(w.disk)[path].data)
              && Labelled(w.codec, w.bucket[key], kmsKeyId, dbName)
    // a local envelope stays only while it is the only copy; then it does stay
    ensures w.writes != old(w.writes) && EncryptedPath(path) in w.disk ==>
              EncryptedPath(path) in w.stuck
              || (Acknowledged(w.writes, old(w.writes), EncryptedPath(path)) && w.confirmed == old(w.confirmed))
    ensures Acknowledged(w.writes, old(w.writes), EncryptedPath(path)) && w.confirmed == old(w.confirmed) ==>
              && EncryptedPath(path) in w.disk
              && Opens(w.codec, w.unwrap, w.disk[EncryptedPath(path)].data, old(w.disk)[path].data)
  {
    hide Opens, Labelled, Lawful, HeadersFit;
    var envelope := EncryptDump(w, path, dbName, kmsKeyId);
    FailureIsNotAcknowledged(w.writes, EncryptedPath(path));
    if envelope.None? {
      return Code(1);
    }
    ghost var dump := w.disk[path].data;
    var stored := StoreEnvelope(w, path, envelope.value, key, dump);
    if !stored {
      return Code(1);
    }
    exit := ShipEnvelope(w, path, key, envelope.value, dump);
  }

  // ---- the stale sweep ----

  const STALE_AGE_MS := 3600000

  /** A plaintext dump old enough that no running backup can still be writing it. */
  predicate Sweepable(dir: string, path: Path, file: File, now: int) {
    path.dir == dir && IsPlaintextDump(path.name) && file.regular && now - file.modified >= 60 * 60 * 1000
  }

  /** Outside the given files, the disk lost only sweepable files and changed nothing else. */
  ghost predicate SweptOnly(disk: map<Path, File>, was: map<Path, File>, dir: string, now: int, others: set<Path>) {
    && (forall p :: p in disk && p !in others ==> p in was && disk[p] == was[p])
    && (forall p :: p in was && p !in disk && p !in others ==> Sweepable(dir, p, was[p], now))
  }

  lemma SweptThenWritten(
    disk: map<Path, File>, swept: map<Path, File>, was: map<Path, File>, dir: string, now: int, others: set<Path>)
    requires SweptOnly(swept, was, dir, now, {}) && SameExcept(disk, swept, others)
    ensures SweptOnly(disk, was, dir, now, others)
  {
  }

  /** No sweep ever deletes an encrypted copy. */
  lemma EnvelopeIsNeverSwept(dir: string, path: Path, file: File, now: int)
    ensures !Sweepable(dir, EncryptedPath(path), file, now)
  {
    hide IsPlaintextDump;
    EncryptedNameIsNotSwept(path.name);
  }

  /** Every envelope of the earlier disk, but this run's own, is still there and unchanged. */
  ghost predicate KeepsEnvelopes(disk: map<Path, File>, was: map<Path, File>, own: Path) {
    forall p :: EncryptedPath(p) in was && EncryptedPath(p) != EncryptedPath(own) ==>
      EncryptedPath(p) in disk && disk[EncryptedPath(p)] == was[EncryptedPath(p)]
  }

  ghost predicate IsNoEnvelope(path: Path) {
    forall p :: EncryptedPath(p) != path
  }

  /** A dump's own name never reads as an envelope's. */
  lemma DumpIsNoEnvelope(path: Path, dir: string, dbName: string)
    requires path.name == "" || IsDumpPath(path, dir, dbName)
    ensures IsNoEnvelope(path)
  {
    hide InFourDigitYears, StampOf;
    forall p ensures EncryptedPath(p) != path {
      var name := EncryptedPath(p).name;
      assert name[|name| - 1] == 'c';
      if path.name != "" {
        var second, millis: nat :|
          InFourDigitYears(second) && path == Path(dir, DumpFileName(dbName, StampOf(second), millis));
        assert path.name[|path.name| - 1] == 'p';
      }
    }
  }

  lemma SweepKeepsEnvelopes(disk: map<Path, File>, was: map<Path, File>, dir: string, now: int, own: Path)
    requires SweptOnly(disk, was, dir, now, {own, EncryptedPath(own)})
    requires IsNoEnvelope(own)
    ensures KeepsEnvelopes(disk, was, own)
  {
    hide Sweepable;
    forall p | EncryptedPath(p) in was && EncryptedPath(p) != EncryptedPath(own)
      ensures EncryptedPath(p) in disk && disk[EncryptedPath(p)] == was[EncryptedPath(p)]
    {
      EnvelopeIsNeverSwept(dir, p, was[EncryptedPath(p)], now);
    }
  }

  /** One entry of the listing. */
  method SweepOne(w: World, dir: string, name: string, now: int)
    modifies w`disk, w`history, w`stuck, w`faults
    ensures old(w.faults) <= w.faults && old(w.stuck) <= w.stuck
    ensures w.disk == old(w.disk)
            || (Path(dir, name) in old(w.disk) && w.disk == old(w.disk) - {Path(dir, name)}
                && Sweepable(dir, Path(dir, name), old(w.disk)[Path(dir, name)], now))
    ensures Path(dir, name) in w.disk && Sweepable(dir, Path(dir, name), w.disk[Path(dir, name)], now) ==>
              Path(dir, name) in w.stuck && old(w.faults) < w.faults
    ensures w.history == old(w.history) || w.history == old(w.history) + [w.Now()]
  {
    hide IsPlaintextDump;
    if IsPlaintextDump(name) {
      var file := w.Stat(Path(dir, name));
      if file.Some? && file.value.regular && now - file.value.modified >= STALE_AGE_MS {
        var _ := w.Unlink(Path(dir, name));
      }
    }
  }

  /** Deletes every plaintext dump left by an interrupted run, and nothing else. */
  method CleanupStalePlaintextDumps(w: World, dir: string, now: int)
    modifies w`disk, w`history, w`unlisted, w`stuck, w`faults
    ensures old(w.faults) <= w.faults && old(w.stuck) <= w.stuck
    ensures SweptOnly(w.disk, old(w.disk), dir, now, {})
    ensures NoneLeft(w.unlisted == old(w.unlisted), w.disk, w.stuck, old(w.faults) < w.faults, dir, now, {})
    ensures w.unlisted != old(w.unlisted) ==> w.unlisted == old(w.unlisted) + 1 && w.disk == old(w.disk)
    ensures KeepsObjects(w.history, old(w.history), w.bucket)
  {
    hide IsPlaintextDump;
    var names := w.ReadDir(dir);
    if names.None? {
      return;
    }
    var entries := names.value;
    for i := 0 to |entries|
      invariant SweptOnly(w.disk, old(w.disk), dir, now, {})
      invariant forall p :: p in w.disk && Sweepable(dir, p, w.disk[p], now) ==>
                  (p in w.stuck && old(w.faults) < w.faults) || p.name in entries[i..]
      invariant KeepsObjects(w.history, old(w.history), w.bucket)
      invariant old(w.stuck) <= w.stuck && old(w.faults) <= w.faults && w.unlisted == old(w.unlisted)
    {
      assert forall p: Path :: p.name in entries[i..] ==> p.name == entries[i] || p.name in entries[i + 1..];
      SweepOne(w, dir, entries[i], now);
    }
  }

  // ---- the whole run ----

  const BACKUP_LOCK := ".backup.lock"

  /** pg_dump and its validation; None means the run goes on, and a failing status is passed on. */
  method DumpAndValidate(w: World, path: Path) returns (failure: Option<int>, ghost dumped: DumpOutcome)
    modifies w`disk, w`history, w`dumps, w`dumpedAt, w`lastDump, w`validated, w`stuck, w`faults
    ensures w.validated == if failure.None? then old(w.validated) + [path] else old(w.validated)
    ensures old(w.faults) <= w.faults && (w.faults == old(w.faults) ==> failure.None?)
    ensures old(w.stuck) <= w.stuck
    ensures w.dumps == old(w.dumps) + [path] && w.dumpedAt == |old(w.history)|
    ensures SameExcept(w.disk, old(w.disk), {path})
    ensures KeepsObjects(w.history, old(w.history), w.bucket)
    ensures dumped != Exited(Some(0)) ==>
              failure == Some(if dumped.Exited? && dumped.status.Some? then dumped.status.value else 1)
    ensures dumped == Exited(Some(0)) ==> failure == None || failure == Some(1)
    ensures failure.Some? ==> failure.value != 0 && (path in w.disk ==> path in w.stuck && old(w.faults) < w.faults)
    ensures failure.None? ==>
              && path in w.disk && w.disk[path].data != [] && w.lastDump == w.disk[path].data
              && w.history == old(w.history) + [w.Now()]
  {
    var r := w.PgDump(path);
    dumped := r;
    if r.LaunchError? {
      w.CleanupPartialOutput(path);
      return Some(1), dumped;
    }
    if r.status != Some(0) {
      w.CleanupPartialOutput(path);
      return Some(if r.status.Some? then r.status.value else 1), dumped;
    }
    if path !in w.disk {
      return Some(1), dumped;
    }
    var stats := w.Stat(path);
    if stats.None? {
      return Some(1), dumped;  // statSync throws; the catch-all reports failure
    }
    if |stats.value.data| == 0 {
      w.CleanupPartialOutput(path);
      return Some(1), dumped;
    }
    var readable := w.PgRestoreList(path);
    if !readable {
      w.CleanupPartialOutput(path);
      return Some(1), dumped;
    }
    return None, dumped;
  }

  /** From the dump itself on, through every later step. */
  lemma RecoverableFromDump(w: World, dumped: nat, path: Path, key: string, dump: Bytes)
    requires dumped < |w.history|
    requires path in w.history[dumped].disk && w.history[dumped].disk[path].data == dump
    requires RecoverableSince(w, dumped + 1, path, key, dump)
    ensures RecoverableSince(w, dumped, path, key, dump)
  {
    hide IntactCopy;
  }

  /** What a backup run reports: 0 exactly when its dump's upload was confirmed and the hook returned. */
  ghost predicate BackedUp(
    w: World, exitCode: int, key: string, kmsKeyId: string, dbName: string, confirmed: seq<string>,
    hooks: seq<string>, uploadedKey: Option<string>, thrown: nat, bucket: map<string, Bytes>)
    reads w`confirmed, w`hooks, w`uploadedKey, w`thrown, w`bucket, w`lastDump
  {
    && (w.confirmed == confirmed || w.confirmed == confirmed + [key])
    && w.hooks == (if w.confirmed == confirmed then hooks else hooks + [key])
    && w.uploadedKey == (if w.confirmed == confirmed then uploadedKey else Some(key))
    && (exitCode == 0 <==> w.confirmed != confirmed && w.thrown == thrown)
    && (w.thrown == thrown || (w.thrown == thrown + 1 && w.confirmed != confirmed))
    && (w.confirmed != confirmed ==>
          && key !in bucket && key in w.bucket && w.lastDump != []
          && Opens(w.codec, w.unwrap, w.bucket[key], w.lastDump)
          && Labelled(w.codec, w.bucket[key], kmsKeyId, dbName))
  }

  /** Once the envelope's write is acknowledged, every world since the dump has a copy of it. */
  ghost predicate NeverLost(
    w: World, writes: seq<Write>, dumps: seq<Path>, since: nat, path: Path, key: string)
    reads w`history, w`writes, w`dumps, w`dumpedAt, w`lastDump, w`disk, w`bucket, w`databases
  {
    Acknowledged(w.writes, writes, EncryptedPath(path)) ==>
      && w.dumps == dumps + [path] && since <= w.dumpedAt < |w.history| && w.lastDump != []
      && RecoverableSince(w, w.dumpedAt, path, key, w.lastDump)
      && IntactCopy(w, w.Now(), path, key, w.lastDump)
  }

  lemma NothingWritten(disk: map<Path, File>, was: map<Path, File>, dir: string, now: int, others: set<Path>)
    requires SweptOnly(disk, was, dir, now, {})
    ensures SweptOnly(disk, was, dir, now, others)
  {
  }

  lemma SweptThenShipped(
    now: map<Path, File>, mid: map<Path, File>, was: map<Path, File>, dir: string, time: int, others: set<Path>)
    requires SweptOnly(mid, was, dir, time, others) && SameExcept(now, mid, others)
    ensures SweptOnly(now, was, dir, time, others)
  {
  }

  /** If listed, every sweepable dump but the given files is gone, or was examined or deleted in vain. */
  ghost predicate NoneLeft(
    listed: bool, disk: map<Path, File>, stuck: set<Path>, faulted: bool, dir: string, now: int, others: set<Path>)
  {
    listed ==> forall p :: p in disk && p !in others && Sweepable(dir, p, disk[p], now) ==> p in stuck && faulted
  }

  lemma NoneLeftLater(
    listed: bool, disk: map<Path, File>, stuck: set<Path>, faulted: bool, mid: map<Path, File>, midStuck: set<Path>,
    midFaulted: bool, dir: string, now: int, some: set<Path>, others: set<Path>)
    requires NoneLeft(listed, mid, midStuck, midFaulted, dir, now, some) && some <= others
    requires disk == mid || SameExcept(disk, mid, others)
    requires midStuck <= stuck && (midFaulted ==> faulted)
    ensures NoneLeft(listed, disk, stuck, faulted, dir, now, others)
  {
    hide Sweepable;
  }

  /** A dump file of this database, named for some second and millisecond. */
  ghost predicate IsDumpPath(path: Path, dir: string, dbName: string) {
    exists second, millis: nat ::
      InFourDigitYears(second) && path == Path(dir, DumpFileName(dbName, StampOf(second), millis))
  }

  /** The object key of this database under the prefix, for some second. */
  ghost predicate IsBackupKey(key: string, dbName: string, prefix: string) {
    exists second :: InFourDigitYears(second) && key == BuildS3ObjectKey(dbName, prefix, second)
  }

  /** No dump, or one of a file named for this database. */
  ghost predicate DumpedAs(dumps: seq<Path>, was: seq<Path>, path: Path, dir: string, dbName: string) {
    dumps == was || (dumps == was + [path] && IsDumpPath(path, dir, dbName))
  }

  /** Each step was of this run's own dump: listed before it was encrypted, written before it was uploaded. */
  ghost predicate StepsTaken(
    w: World, dumps: seq<Path>, validated: seq<Path>, writes: seq<Write>, confirmed: seq<string>,
    path: Path, key: string, dir: string, dbName: string, prefix: string)
    reads w`dumps, w`validated, w`writes, w`confirmed
  {
    && DumpedAs(w.dumps, dumps, path, dir, dbName)
    && (w.writes != writes ==> w.dumps != dumps && w.validated == validated + [path])
    && Attempted(w.writes, writes, EncryptedPath(path))
    && (w.confirmed != confirmed ==>
          Acknowledged(w.writes, writes, EncryptedPath(path)) && IsBackupKey(key, dbName, prefix))
  }

  lemma DumpPathOf(dir: string, dbName: string, second: int, millis: nat)
    requires InFourDigitYears(second)
    ensures IsDumpPath(Path(dir, DumpFileName(dbName, StampOf(second), millis)), dir, dbName)
  {
  }

  lemma BackupKeyOf(dbName: string, prefix: string, second: int)
    requires InFourDigitYears(second)
    ensures IsBackupKey(BuildS3ObjectKey(dbName, prefix, second), dbName, prefix)
  {
  }

  /** A dump that a crash left behind becomes sweepable after an hour, exactly for one-line database names. */
  lemma AbandonedDumpIsSwept(path: Path, dir: string, dbName: string, file: File, now: int)
    requires IsDumpPath(path, dir, dbName) && file.regular && now - file.modified >= STALE_AGE_MS
    ensures Sweepable(dir, path, file, now)
            <==> dbName != "" && forall i :: 0 <= i < |dbName| ==> !IsLineBreak(dbName[i])
  {
    hide IsPlaintextDump, DumpFileName, InFourDigitYears, StampOf, IsLineBreak;
    var second, millis: nat :|
      InFourDigitYears(second) && path == Path(dir, DumpFileName(dbName, StampOf(second), millis));
    DumpNameIsRecognised(dbName, StampOf(second), millis);
  }

  lemma HistoryGrew(now: seq<Snapshot>, was: seq<Snapshot>, bucket: map<string, Bytes>)
    requires KeepsObjects(now, was, bucket)
    ensures |was| <= |now|
  {
  }

  lemma WrittenInTurn(
    now: map<Path, File>, mid: map<Path, File>, was: map<Path, File>, path: Path, other: Path)
    requires SameExcept(now, mid, {path, other}) && SameExcept(mid, was, {path})
    ensures SameExcept(now, was, {path, other})
  {
  }

  lemma DumpStaysInHistory(now: seq<Snapshot>, mid: seq<Snapshot>, at: nat, bucket: map<string, Bytes>)
    requires KeepsObjects(now, mid, bucket) && at < |mid|
    ensures at < |now| && now[at] == mid[at]
  {
    assert now[..|mid|][at] == mid[at];
  }

  /** The sweep and the dump; None means the run goes on. */
  method SweepAndDump(w: World, dir: string, dbName: string, now: int)
    returns (failure: Option<int>, path: Path)
    modifies w`disk, w`history, w`dumps, w`dumpedAt, w`lastDump, w`validated, w`unlisted, w`stuck, w`faults
    ensures old(w.faults) <= w.faults && (w.faults == old(w.faults) ==> failure.None?)
    ensures old(w.stuck) <= w.stuck
    ensures IsNoEnvelope(path)
    ensures DumpedAs(w.dumps, old(w.dumps), path, dir, dbName)
    ensures w.validated == if failure.None? then old(w.validated) + [path] else old(w.validated)
    ensures SweptOnly(w.disk, old(w.disk), dir, now, {path, EncryptedPath(path)})
    ensures NoneLeft(w.unlisted == old(w.unlisted), w.disk, w.stuck, old(w.faults) < w.faults, dir, now,
                     {path, EncryptedPath(path)})
    ensures KeepsObjects(w.history, old(w.history), w.bucket)
    ensures failure.Some? ==>
              && failure.value != 0
              && (w.dumps != old(w.dumps) && path in w.disk ==> path in w.stuck && old(w.faults) < w.faults)
    ensures failure.None? ==>
              && w.dumps == old(w.dumps) + [path] && path in w.disk && w.disk[path].data == w.lastDump != []
              && |old(w.history)| <= w.dumpedAt == |w.history| - 1 && w.history[w.dumpedAt] == w.Now()
  {
    hide InFourDigitYears, StampOf, DumpFileName, Sweepable, KeepsObjects, SweptOnly, SameExcept, EncryptedPath;
    hide NoneLeft, IsDumpPath, IsNoEnvelope;
    path := Path(dir, "");
    DumpIsNoEnvelope(path, dir, dbName);
    CleanupStalePlaintextDumps(w, dir, now);
    ghost var history1, disk1, stuck1, faulted1 := w.history, w.disk, w.stuck, old(w.faults) < w.faults;
    HistoryGrew(history1, old(w.history), w.bucket);
    NothingWritten(disk1, old(w.disk), dir, now, {path, EncryptedPath(path)});
    var second := w.Clock();
    var millis: nat := *;
    var malformed := w.Fails();
    if malformed {
      NoneLeftLater(w.unlisted == old(w.unlisted), w.disk, w.stuck, true, disk1, stuck1, faulted1, dir, now,
                    {}, {path, EncryptedPath(path)});
      return Some(1), path;  // a malformed connection URL throws here
    }
    path := Path(dir, DumpFileName(dbName, StampOf(second), millis));
    DumpPathOf(dir, dbName, second, millis);
    DumpIsNoEnvelope(path, dir, dbName);
    ghost var dumped;
    failure, dumped := DumpAndValidate(w, path);
    KeepsObjectsOn(old(w.history), history1, w.history, w.bucket);
    WrittenInTurn(w.disk, w.disk, disk1, path, EncryptedPath(path));
    SweptThenWritten(w.disk, disk1, old(w.disk), dir, now, {path, EncryptedPath(path)});
    NoneLeftLater(w.unlisted == old(w.unlisted), w.disk, w.stuck, old(w.faults) < w.faults, disk1, stuck1, faulted1,
                  dir, now, {}, {path, EncryptedPath(path)});
  }

  lemma NothingShipped(
    w: World, exitCode: int, dumps: seq<Path>, validated: seq<Path>, since: nat, path: Path, key: string,
    dir: string, dbName: string, kmsKeyId: string, prefix: string)
    requires exitCode != 0 && DumpedAs(w.dumps, dumps, path, dir, dbName)
    ensures BackedUp(w, exitCode, key, kmsKeyId, dbName, w.confirmed, w.hooks, w.uploadedKey, w.thrown, w.bucket)
    ensures NeverLost(w, w.writes, dumps, since, path, key)
    ensures StepsTaken(w, dumps, validated, w.writes, w.confirmed, path, key, dir, dbName, prefix)
  {
    FailureIsNotAcknowledged(w.writes, EncryptedPath(path));
  }

  /** From the run's own dump, just made and listed, to its upload. */
  method UploadDump(
    w: World, path: Path, dbName: string, kmsKeyId: string, prefix: string, ghost dir: string,
    ghost dumps: seq<Path>, ghost validated: seq<Path>, ghost since: nat)
    returns (exitCode: int, ghost key: string)
    requires Lawful(w.codec) && path in w.disk && w.disk[path].data == w.lastDump != []
    requires w.dumps == dumps + [path] && DumpedAs(w.dumps, dumps, path, dir, dbName)
    requires w.validated == validated + [path]
    requires since <= w.dumpedAt == |w.history| - 1 && w.history[w.dumpedAt] == w.Now()
    modifies w`disk, w`bucket, w`keyMemory, w`history, w`writes, w`confirmed, w`collisions
    modifies w`hooks, w`thrown, w`uploadedKey, w`stuck, w`faults
    ensures old(w.faults) <= w.faults && old(w.stuck) <= w.stuck
    ensures (w.faults == old(w.faults) && w.collisions == old(w.collisions)
             && HeadersFit(w.codec, kmsKeyId, dbName)) ==> exitCode == 0
    ensures w.collisions == old(w.collisions) || (w.collisions == old(w.collisions) + [key] && key in old(w.bucket))
    ensures BackedUp(w, exitCode, key, kmsKeyId, dbName, old(w.confirmed), old(w.hooks), old(w.uploadedKey),
                     old(w.thrown), old(w.bucket))
    ensures KeepsObjects(w.history, old(w.history), old(w.bucket)) && Extends(w.bucket, old(w.bucket))
    ensures path in w.disk ==> path in w.stuck && old(w.faults) < w.faults
    ensures SameExcept(w.disk, old(w.disk), {path, EncryptedPath(path)})
    ensures StepsTaken(w, dumps, validated, old(w.writes), old(w.confirmed), path, key, dir, dbName, prefix)
    ensures NeverLost(w, old(w.writes), dumps, since, path, key)
  {
    hide Opens, Labelled, Lawful, BuildS3ObjectKey, InFourDigitYears, RecoverableSince, KeepsObjects, HeadersFit;
    hide SameExcept;
    hide EncryptedPath, Extends, Acknowledged, Attempted, IsBackupKey, IsDumpPath;
    var second := w.Clock();
    var objectKey := BuildS3ObjectKey(dbName, prefix, second);
    key := objectKey;
    BackupKeyOf(dbName, prefix, second);
    var exit := EncryptAndUploadDump(w, path, dbName, kmsKeyId, objectKey);
    if Acknowledged(w.writes, old(w.writes), EncryptedPath(path)) {
      DumpStaysInHistory(w.history, old(w.history), w.dumpedAt, old(w.bucket));
      RecoverableFromDump(w, w.dumpedAt, path, key, w.lastDump);
    }
    exitCode := if exit.Code? then exit.code else 1;
  }

  /** The section of runBackup that runs under the lock. */
  method LockedBackup(w: World, dir: string, dbName: string, kmsKeyId: string, prefix: string, now: int)
    returns (exitCode: int, ghost path: Path, ghost key: string)
    requires Lawful(w.codec)
    modifies w`disk, w`bucket, w`keyMemory, w`history, w`dumps, w`dumpedAt, w`lastDump, w`writes, w`unlisted
    modifies w`validated, w`confirmed, w`collisions, w`hooks, w`thrown, w`uploadedKey, w`stuck, w`faults
    ensures old(w.faults) <= w.faults && old(w.stuck) <= w.stuck
    ensures (w.faults == old(w.faults) && w.collisions == old(w.collisions)
             && HeadersFit(w.codec, kmsKeyId, dbName)) ==> exitCode == 0
    ensures w.collisions == old(w.collisions) || (w.collisions == old(w.collisions) + [key] && key in old(w.bucket))
    ensures BackedUp(w, exitCode, key, kmsKeyId, dbName, old(w.confirmed), old(w.hooks), old(w.uploadedKey),
                     old(w.thrown), old(w.bucket))
    ensures KeepsObjects(w.history, old(w.history), old(w.bucket)) && Extends(w.bucket, old(w.bucket))
    ensures StepsTaken(w, old(w.dumps), old(w.validated), old(w.writes), old(w.confirmed), path, key,
                       dir, dbName, prefix)
    ensures w.dumps != old(w.dumps) && path in w.disk ==> path in w.stuck && old(w.faults) < w.faults
    ensures SweptOnly(w.disk, old(w.disk), dir, now, {path, EncryptedPath(path)})
    ensures KeepsEnvelopes(w.disk, old(w.disk), path)
    ensures NoneLeft(w.unlisted == old(w.unlisted), w.disk, w.stuck, old(w.faults) < w.faults, dir, now,
                     {path, EncryptedPath(path)})
    ensures NeverLost(w, old(w.writes), old(w.dumps), |old(w.history)|, path, key)
  {
    hide Opens, Lawful, RecoverableSince, Sweepable, KeepsObjects, HeadersFit, SweptOnly, SameExcept, EncryptedPath;
    hide Extends, NoneLeft, StepsTaken, NeverLost, BackedUp, DumpedAs, IsNoEnvelope, KeepsEnvelopes;
    key := "";
    NothingLost(w.history, w.bucket);
    var failure, output := SweepAndDump(w, dir, dbName, now);
    path := output;
    ghost var history2, disk2, stuck2, faulted2 := w.history, w.disk, w.stuck, old(w.faults) < w.faults;
    if failure.Some? {
      SweepKeepsEnvelopes(w.disk, old(w.disk), dir, now, path);
      NothingShipped(w, failure.value, old(w.dumps), old(w.validated), |old(w.history)|, path, key,
                     dir, dbName, kmsKeyId, prefix);
      return failure.value, path, key;
    }
    exitCode, key := UploadDump(
      w, output, dbName, kmsKeyId, prefix, dir, old(w.dumps), old(w.validated), |old(w.history)|);
    KeepsObjectsOn(old(w.history), history2, w.history, old(w.bucket));
    SweptThenShipped(w.disk, disk2, old(w.disk), dir, now, {path, EncryptedPath(path)});
    SweepKeepsEnvelopes(w.disk, old(w.disk), dir, now, path);
    NoneLeftLater(w.unlisted == old(w.unlisted), w.disk, w.stuck, old(w.faults) < w.faults, disk2, stuck2, faulted2,
                  dir, now, {path, EncryptedPath(path)}, {path, EncryptedPath(path)});
  }

  /** The lock was not taken, or was taken once and given back once. */
  ghost predicate TakenAndReleased(
    w: World, lock: Path, taken: seq<Path>, releases: seq<Path>, faults: nat)
    reads w`taken, w`releases, w`locks, w`stuck, w`faults
  {
    || (w.taken == taken && w.releases == releases)
    || (w.taken == taken + [lock] && w.releases == releases + [lock]
        && (lock in w.locks ==> lock in w.stuck && faults < w.faults))
  }

  lemma NothingDone(
    w: World, dir: string, now: int, path: Path, key: string, dbName: string, kmsKeyId: string, prefix: string)
    ensures BackedUp(w, 1, key, kmsKeyId, dbName, w.confirmed, w.hooks, w.uploadedKey, w.thrown, w.bucket)
    ensures NeverLost(w, w.writes, w.dumps, |w.history|, path, key)
    ensures SweptOnly(w.disk, w.disk, dir, now, {path, EncryptedPath(path)})
    ensures KeepsObjects(w.history, w.history, w.bucket) && Extends(w.bucket, w.bucket)
    ensures KeepsEnvelopes(w.disk, w.disk, path)
    ensures StepsTaken(w, w.dumps, w.validated, w.writes, w.confirmed, path, key, dir, dbName, prefix)
    ensures forall faulted :: NoneLeft(false, w.disk, w.stuck, faulted, dir, now, {path, EncryptedPath(path)})
  {
    FailureIsNotAcknowledged(w.writes, EncryptedPath(path));
  }

  /** The locked section, and the release that follows it on every path. */
  method HeldBackup(
    w: World, lock: LockHandle, dir: string, dbName: string, kmsKeyId: string, prefix: string, now: int)
    returns (exitCode: int, ghost path: Path, ghost key: string)
    requires Lawful(w.codec) && !lock.released && w.OwnPid(w.LockAt(lock.path))
    modifies lock, w`locks, w`releases
    modifies w`disk, w`bucket, w`keyMemory, w`history, w`dumps, w`dumpedAt, w`lastDump, w`writes, w`unlisted
    modifies w`validated, w`confirmed, w`collisions, w`hooks, w`thrown, w`uploadedKey, w`stuck, w`faults
    ensures old(w.faults) <= w.faults && old(w.stuck) <= w.stuck
    ensures (w.faults == old(w.faults) && w.collisions == old(w.collisions)
             && HeadersFit(w.codec, kmsKeyId, dbName)) ==> exitCode == 0
    ensures w.collisions == old(w.collisions) || (w.collisions == old(w.collisions) + [key] && key in old(w.bucket))
    ensures BackedUp(w, exitCode, key, kmsKeyId, dbName, old(w.confirmed), old(w.hooks), old(w.uploadedKey),
                     old(w.thrown), old(w.bucket))
    ensures KeepsObjects(w.history, old(w.history), old(w.bucket)) && Extends(w.bucket, old(w.bucket))
    ensures StepsTaken(w, old(w.dumps), old(w.validated), old(w.writes), old(w.confirmed), path, key,
                       dir, dbName, prefix)
    ensures w.dumps != old(w.dumps) && path in w.disk ==> path in w.stuck && old(w.faults) < w.faults
    ensures SweptOnly(w.disk, old(w.disk), dir, now, {path, EncryptedPath(path)})
    ensures KeepsEnvelopes(w.disk, old(w.disk), path)
    ensures NoneLeft(w.unlisted == old(w.unlisted), w.disk, w.stuck, old(w.faults) < w.faults, dir, now,
                     {path, EncryptedPath(path)})
    ensures NeverLost(w, old(w.writes), old(w.dumps), |old(w.history)|, path, key)
    ensures SameExcept(w.locks, old(w.locks), {lock.path}) && w.releases == old(w.releases) + [lock.path]
    ensures lock.path in w.locks ==> lock.path in w.stuck && old(w.faults) < w.faults
  {
    hide Opens, Lawful, HeadersFit, BackedUp, NeverLost, KeepsObjects, Extends, SweptOnly, KeepsEnvelopes;
    hide StepsTaken, EncryptedPath, SameExcept, NoneLeft;
    exitCode, path, key := LockedBackup(w, dir, dbName, kmsKeyId, prefix, now);
    ghost var stuck, faulted := w.stuck, old(w.faults) < w.faults;
    w.Release(lock);
    NoneLeftLater(w.unlisted == old(w.unlisted), w.disk, w.stuck, old(w.faults) < w.faults, w.disk, stuck, faulted,
                  dir, now, {path, EncryptedPath(path)}, {path, EncryptedPath(path)});
  }

  /** runBackup: the lock is taken before anything else and given back on every path. */
  method RunBackup(w: World, dir: string, dbName: string, kmsKeyId: string, prefix: string, now: int)
    returns (exitCode: int, ghost path: Path, ghost key: string)
    requires Lawful(w.codec)
    modifies w`disk, w`bucket, w`keyMemory, w`history, w`dumps, w`dumpedAt, w`lastDump, w`writes, w`unlisted
    modifies w`validated, w`confirmed, w`collisions, w`hooks, w`thrown, w`uploadedKey, w`stuck, w`faults
    modifies w`locks, w`taken, w`releases
    // with the lock available, no call failing and a new key, the run succeeds
    ensures old(w.faults) <= w.faults && old(w.stuck) <= w.stuck
    ensures (w.faults == old(w.faults) && w.collisions == old(w.collisions)
             && old(w.Available(Path(dir, BACKUP_LOCK))) && HeadersFit(w.codec, kmsKeyId, dbName)) ==> exitCode == 0
    ensures w.collisions == old(w.collisions) || (w.collisions == old(w.collisions) + [key] && key in old(w.bucket))
    ensures BackedUp(w, exitCode, key, kmsKeyId, dbName, old(w.confirmed), old(w.hooks), old(w.uploadedKey),
                     old(w.thrown), old(w.bucket))
    // objects, files and the dump's bytes
    ensures KeepsObjects(w.history, old(w.history), old(w.bucket)) && Extends(w.bucket, old(w.bucket))
    ensures StepsTaken(w, old(w.dumps), old(w.validated), old(w.writes), old(w.confirmed), path, key,
                       dir, dbName, prefix)
    ensures w.dumps != old(w.dumps) && path in w.disk ==> path in w.stuck && old(w.faults) < w.faults
    ensures SweptOnly(w.disk, old(w.disk), dir, now, {path, EncryptedPath(path)})
    ensures KeepsEnvelopes(w.disk, old(w.disk), path)
    ensures NoneLeft(w.taken != old(w.taken) && w.unlisted == old(w.unlisted), w.disk, w.stuck,
                     old(w.faults) < w.faults, dir, now, {path, EncryptedPath(path)})
    ensures NeverLost(w, old(w.writes), old(w.dumps), |old(w.history)|, path, key)
    // the lock
    ensures SameExcept(w.locks, old(w.locks), {Path(dir, BACKUP_LOCK)})
    ensures TakenAndReleased(w, Path(dir, BACKUP_LOCK), old(w.taken), old(w.releases), old(w.faults))
    ensures w.taken == old(w.taken) ==> exitCode == 1 && w.disk == old(w.disk) && w.dumps == old(w.dumps)
  {
    hide Opens, Lawful, HeadersFit, BackedUp, NeverLost, KeepsObjects, Extends, SweptOnly, KeepsEnvelopes;
    hide StepsTaken, EncryptedPath, SameExcept, NoneLeft;
    path, key := Path(dir, ""), "";
    NothingDone(w, dir, now, path, key, dbName, kmsKeyId, prefix);
    var lock := w.PrepareAndLock(Path(dir, BACKUP_LOCK), true);
    if lock == null {
      return 1, path, key;
    }
    ghost var locked, since := w.locks, w.faults;
    exitCode, path, key := HeldBackup(w, lock, dir, dbName, kmsKeyId, prefix, now);
    NoneLeftLater(w.unlisted == old(w.unlisted), w.disk, w.stuck, old(w.faults) < w.faults, w.disk, w.stuck,
                  since < w.faults, dir, now, {path, EncryptedPath(path)}, {path, EncryptedPath(path)});
    SameExceptInTurn(w.locks, locked, old(w.locks), {Path(dir, BACKUP_LOCK)});
  }
}
