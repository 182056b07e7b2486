/**
  The world the backup scripts act on: a disk, an object store, a database catalogue, lock
  files and KMS.  Every call to it may fail, and some calls may take effect although they
  report failure.  The ghost history records the world after each change, so that "at every
  step" can be said of a whole run.  Ghost logs record what the calls reported, so that a
  contract can say which calls a run made; the ghost fault count says whether any went wrong.
 */
module BackupWorld {
  import opened Wrappers
  import opened Envelope
  import opened BackupLock
  import opened BackupKeys

  datatype Path = Path(dir: string, name: string)

  datatype File = File(data: Bytes, modified: int, regular: bool)

  /** A database, and the dump that was restored into it, if any. */
  datatype Database = Database(restored: Option<Bytes>)

  datatype Snapshot = Snapshot(
    disk: map<Path, File>, bucket: map<string, Bytes>, databases: map<string, Database>)

  datatype DataKey = DataKey(plain: Bytes, encrypted: Bytes)

  datatype DumpOutcome = LaunchError | Exited(status: Option<int>)

  /** A call on a file or a database, and whether it was acknowledged. */
  datatype Write = Write(path: Path, ok: bool)
  datatype Report = Report(name: string, ok: bool)

  datatype CreateOutcome = Created | AlreadyExists | CreateFailed

  /** The envelope parses, and decrypts to the given bytes under the key KMS unwraps for it. */
  predicate Opens(codec: Codec, unwrap: Bytes -> Bytes, envelope: Bytes, plaintext: Bytes) {
    var parsed := Parse(codec, envelope);
    parsed.Ok? &&
    var h := parsed.value.header;
    Decrypt(codec, h, parsed.value.ciphertext, unwrap(codec.fromBase64(h.encryptedDataKey))) == Ok(plaintext)
  }

  /** An envelope opens to one plaintext only. */
  lemma OpensToOne(codec: Codec, unwrap: Bytes -> Bytes, envelope: Bytes, a: Bytes, b: Bytes)
    requires Opens(codec, unwrap, envelope, a) && Opens(codec, unwrap, envelope, b)
    ensures a == b
  {
  }

  /** The envelope's header names the KMS key it was made under and the database it is a dump of. */
  predicate Labelled(codec: Codec, envelope: Bytes, kmsKeyId: string, dbName: string) {
    var parsed := Parse(codec, envelope);
    parsed.Ok? && parsed.value.header.kmsKeyId == kmsKeyId && parsed.value.header.sourceDatabase == dbName
  }

  /** Two maps agree everywhere but at the given keys. */
  ghost predicate SameExcept<K(!new), V>(a: map<K, V>, b: map<K, V>, keys: set<K>) {
    forall k {:trigger k in a} {:trigger k in b} :: k !in keys ==> (k in a <==> k in b) && (k in a ==> a[k] == b[k])
  }

  const ISO_LENGTH := 24
  /** The longest ciphertext KMS returns. */
  const MAX_ENCRYPTED_KEY := 6144

  lemma SameExceptInTurn<K(!new), V>(now: map<K, V>, mid: map<K, V>, was: map<K, V>, keys: set<K>)
    requires SameExcept(now, mid, keys) && SameExcept(mid, was, keys)
    ensures SameExcept(now, was, keys)
  {
  }

  function FileAt(locks: map<Path, LockFile>, path: Path): LockFile {
    if path in locks then locks[path] else Absent
  }

  predicate AllZero(b: Bytes) {
    forall i :: 0 <= i < |b| ==> b[i] == 0
  }

  lemma YearZero()
    ensures InFourDigitYears(0)
  {
  }

  class World {
    const me: Process
    /** The processes a signal would find alive. */
    const living: set<Process>
    const codec: Codec
    /** KMS Decrypt: the plaintext key behind an encrypted one. */
    const unwrap: Bytes -> Bytes
    /** What restoring a dump creates: its tables, with their row counts. */
    const tablesOf: Bytes -> map<string, nat>

    var disk: map<Path, File>
    var bucket: map<string, Bytes>
    var databases: map<string, Database>
    var locks: map<Path, LockFile>
    /** The buffer that holds the plaintext data key. */
    var keyMemory: Bytes
    /** The variable the production run's success hook sets. */
    var uploadedKey: Option<string>

    ghost var history: seq<Snapshot>
    ghost var faults: nat
    /** Files that were there but could not be examined or deleted. */
    ghost var stuck: set<Path>

    // What was asked of the world, and what it answered.
    ghost var dumps: seq<Path>
    ghost var dumpedAt: nat  // where in the history the last dump is
    ghost var lastDump: Bytes
    ghost var validated: seq<Path>
    ghost var writes: seq<Write>
    ghost var unlisted: nat
    ghost var confirmed: seq<string>
    ghost var collisions: seq<string>
    ghost var hooks: seq<string>
    ghost var thrown: nat
    ghost var downloads: seq<string>
    ghost var names: seq<string>
    ghost var clashes: seq<string>
    ghost var creates: seq<Report>
    ghost var drops: seq<Report>
    ghost var made: nat  // CREATE and DROP calls that took effect, whatever they reported
    ghost var gone: nat
    ghost var taken: seq<Path>
    ghost var releases: seq<Path>

    constructor (me: Process, living: set<Process>, codec: Codec, unwrap: Bytes -> Bytes,
                 tablesOf: Bytes -> map<string, nat>)
      ensures this.me == me && this.living == living
      ensures this.codec == codec && this.unwrap == unwrap && this.tablesOf == tablesOf
      ensures disk == map[] && bucket == map[] && databases == map[] && locks == map[] && keyMemory == []
      ensures uploadedKey == None && history == [] && faults == 0 && stuck == {}
    {
      this.me, this.living, this.codec, this.unwrap, this.tablesOf := me, living, codec, unwrap, tablesOf;
      disk, bucket, databases, locks, keyMemory := map[], map[], map[], map[], [];
      uploadedKey := None;
      history, faults, stuck := [], 0, {};
    }

    ghost function Now(): Snapshot
      reads `disk, `bucket, `databases
    {
      Snapshot(disk, bucket, databases)
    }

    /** Whether the next call goes wrong. */
    method Fails() returns (b: bool)
      modifies `faults
      ensures faults == if b then old(faults) + 1 else old(faults)
    {
      b := *;
      if b {
        faults := faults + 1;
      }
    }

    // ---- files ----

    method PrepareDirectory() returns (ok: bool)
      modifies `faults
      ensures faults == if ok then old(faults) else old(faults) + 1
    {
      var fails := Fails();
      ok := !fails;
    }

    method Stat(path: Path) returns (file: Option<File>)
      modifies `stuck, `faults
      ensures file.Some? ==> path in disk && file.value == disk[path]
      ensures stuck == if file.None? && path in disk then old(stuck) + {path} else old(stuck)
      ensures old(faults) <= faults && (file.None? && path in disk ==> old(faults) < faults)
    {
      var fails := Fails();
      file := if fails || path !in disk then None else Some(disk[path]);
      if file.None? && path in disk {
        stuck := stuck + {path};
      }
    }

    /** The names in a directory, in any order. */
    method ReadDir(dir: string) returns (names: Option<seq<string>>)
      modifies `unlisted, `faults
      ensures names.Some? ==> forall p :: p in disk && p.dir == dir ==> p.name in names.value
      ensures unlisted == if names.Some? then old(unlisted) else old(unlisted) + 1
      ensures faults == if names.Some? then old(faults) else old(faults) + 1
    {
      names := None;
      var listing: seq<string> := *;
      if forall p | p in disk && p.dir == dir :: p.name in listing {
        names := Some(listing);
      } else {
        unlisted, faults := unlisted + 1, faults + 1;
      }
    }

    method ReadFile(path: Path) returns (data: Option<Bytes>)
      modifies `faults
      ensures data.Some? ==> path in disk && data.value == disk[path].data
      ensures old(faults) <= faults && (data.None? && path in disk ==> old(faults) < faults)
    {
      var fails := Fails();
      data := if fails || path !in disk then None else Some(disk[path].data);
    }

    /** A failed write may leave any part of the data behind. */
    method WriteFile(path: Path, data: Bytes) returns (ok: bool)
      modifies `disk, `history, `writes, `faults
      ensures ok ==> path in disk && disk[path].data == data
      ensures writes == old(writes) + [Write(path, ok)]
      ensures SameExcept(disk, old(disk), {path})
      ensures history == old(history) + [Now()]
      ensures faults == if ok then old(faults) else old(faults) + 1
    {
      var now: int := *;
      var partial: bool := *;
      var kept: int := *;
      var fails := Fails();
      ok := !fails;
      if ok {
        disk := disk[path := File(data, now, true)];
      } else if partial {
        disk := disk[path := File(data[..if 0 <= kept <= |data| then kept else 0], now, true)];
      }
      writes := writes + [Write(path, ok)];
      history := history + [Now()];
    }

    method Unlink(path: Path) returns (ok: bool)
      modifies `disk, `history, `stuck, `faults
      ensures ok ==> path in old(disk)
      ensures disk == if ok then old(disk) - {path} else old(disk)
      ensures stuck == if !ok && path in disk then old(stuck) + {path} else old(stuck)
      ensures history == old(history) + [Now()]
      ensures old(faults) <= faults && (!ok && path in disk ==> old(faults) < faults)
    {
      var fails := Fails();
      ok := !fails && path in disk;
      if ok {
        disk := disk - {path};
      } else if path in disk {
        stuck := stuck + {path};
      }
      history := history + [Now()];
    }

    /** cleanupPartialOutput: delete the file if it is there, and only warn if that fails. */
    method CleanupPartialOutput(path: Path)
      modifies `disk, `history, `stuck, `faults
      ensures disk == old(disk) - {path} || disk == old(disk)
      ensures stuck == if path in disk then old(stuck) + {path} else old(stuck)
      ensures history == old(history) || history == old(history) + [Now()]
      ensures old(faults) <= faults && (path in disk ==> old(faults) < faults)
    {
      if path in disk {
        var _ := Unlink(path);
      }
    }

    method RandomBytes(n: nat) returns (b: Bytes)
      ensures |b| == n
    {
      b := *;
      if |b| != n {
        b := seq(n, _ => 0);
      }
    }

    /** The text of the creation time: Date.toISOString has 24 characters. */
    method ClockText() returns (text: string)
      ensures |text| == ISO_LENGTH
    {
      text := *;
      if |text| != ISO_LENGTH {
        text := seq(ISO_LENGTH, _ => '0');
      }
    }

    /** The wall clock, in whole seconds, somewhere in the years 0 to 9999. */
    method Clock() returns (second: int)
      ensures InFourDigitYears(second)
    {
      second := *;
      if !InFourDigitYears(second) {
        YearZero();
        second := 0;
      }
    }

    // ---- KMS ----

    /** An AES_256 data key: a response that KMS does not promise counts as a fault. */
    method GenerateDataKey() returns (key: Option<DataKey>)
      modifies `keyMemory, `faults
      ensures key.Some? ==> unwrap(key.value.encrypted) == key.value.plain && keyMemory == key.value.plain
      ensures key.None? ==> keyMemory == old(keyMemory)
      ensures old(faults) <= faults
      ensures key.None? || |key.value.plain| != DATA_KEY_LENGTH || |key.value.encrypted| > MAX_ENCRYPTED_KEY ==>
                old(faults) < faults
    {
      key := None;
      var fails := Fails();
      if !fails {
        var encrypted: Bytes := *;
        key := Some(DataKey(unwrap(encrypted), encrypted));
        keyMemory := key.value.plain;
        if |keyMemory| != DATA_KEY_LENGTH || |encrypted| > MAX_ENCRYPTED_KEY {
          faults := faults + 1;
        }
      }
    }

    method DecryptDataKey(encrypted: Bytes) returns (key: Option<Bytes>)
      modifies `keyMemory, `faults
      ensures key.Some? ==> key.value == unwrap(encrypted) && keyMemory == key.value
      ensures key.None? ==> keyMemory == old(keyMemory)
      ensures faults == if key.Some? then old(faults) else old(faults) + 1
    {
      key := None;
      var fails := Fails();
      if !fails {
        key := Some(unwrap(encrypted));
        keyMemory := key.value;
      }
    }

    method ZeroKey()
      modifies `keyMemory
      ensures AllZero(keyMemory)
    {
      keyMemory := seq(|keyMemory|, _ => 0);
    }

    // ---- S3 ----

    /**
      PutObject with If-None-Match: *.  An existing key is never overwritten; a rejected
      promise may still hide a stored object.
     */
    method UploadObject(key: string, body: Bytes) returns (ok: bool)
      modifies `bucket, `history, `confirmed, `collisions, `faults
      ensures ok ==> key !in old(bucket) && bucket == old(bucket)[key := body]
      ensures !ok ==> bucket == old(bucket) || (key !in old(bucket) && bucket == old(bucket)[key := body])
      ensures confirmed == if ok then old(confirmed) + [key] else old(confirmed)
      ensures collisions == if key in old(bucket) then old(collisions) + [key] else old(collisions)
      ensures history == old(history) + [Now()]
      ensures old(faults) <= faults && (!ok && key !in old(bucket) ==> old(faults) < faults)
    {
      var lost: bool := *;
      var fails := Fails();
      ok := !fails && key !in bucket;
      if key in bucket {
        collisions := collisions + [key];
      }
      if key !in bucket && (ok || lost) {
        bucket := bucket[key := body];
      }
      if ok {
        confirmed := confirmed + [key];
      }
      history := history + [Now()];
    }

    method DownloadObject(key: string) returns (body: Option<Bytes>)
      modifies `downloads, `faults
      ensures downloads == old(downloads) + [key]
      ensures body.Some? ==> key in bucket && body.value == bucket[key]
      ensures old(faults) <= faults && (body.None? && key in bucket ==> old(faults) < faults)
    {
      downloads := downloads + [key];
      var fails := Fails();
      body := if fails || key !in bucket then None else Some(bucket[key]);
    }

    /** The hook records the key, then may call on, and that call may throw. */
    method OnUploadSuccess(key: string) returns (threw: bool)
      modifies `hooks, `thrown, `uploadedKey, `faults
      ensures thrown == if threw then old(thrown) + 1 else old(thrown)
      ensures hooks == old(hooks) + [key] && uploadedKey == Some(key)
      ensures faults == if threw then old(faults) + 1 else old(faults)
    {
      hooks := hooks + [key];
      uploadedKey := Some(key);
      threw := Fails();
      if threw {
        thrown := thrown + 1;
      }
    }

    // ---- PostgreSQL ----

    /** pg_dump may leave anything, or nothing, at the path; only a non-empty dump is no fault. */
    method PgDump(path: Path) returns (r: DumpOutcome)
      modifies `disk, `history, `dumps, `dumpedAt, `lastDump, `faults
      ensures dumps == old(dumps) + [path] && dumpedAt == |old(history)|
      ensures SameExcept(disk, old(disk), {path})
      ensures path in disk ==> lastDump == disk[path].data
      ensures history == old(history) + [Now()]
      ensures old(faults) <= faults
      ensures r != Exited(Some(0)) || path !in disk || disk[path].data == [] ==> old(faults) < faults
    {
      var written: bool := *;
      var data: Bytes := *;
      var now: int := *;
      dumps, dumpedAt := dumps + [path], |history|;
      if written {
        disk := disk[path := File(data, now, true)];
      }
      if path in disk {
        lastDump := disk[path].data;
      }
      r := *;
      if r != Exited(Some(0)) || path !in disk || disk[path].data == [] {
        faults := faults + 1;
      }
      history := history + [Now()];
    }

    method PgRestoreList(path: Path) returns (ok: bool)
      modifies `validated, `faults
      ensures validated == if ok then old(validated) + [path] else old(validated)
      ensures faults == if ok then old(faults) else old(faults) + 1
    {
      var fails := Fails();
      ok := !fails;
      if ok {
        validated := validated + [path];
      }
    }

    /** A query against pg_database; None when psql fails. */
    method DatabaseExists(name: string) returns (r: Option<bool>)
      modifies `clashes, `faults
      ensures r.Some? ==> (r.value <==> name in databases)
      ensures clashes == if r == Some(true) then old(clashes) + [name] else old(clashes)
      ensures faults == if r.Some? then old(faults) else old(faults) + 1
    {
      var fails := Fails();
      r := if fails then None else Some(name in databases);
      if r == Some(true) {
        clashes := clashes + [name];
      }
    }

    /** CREATE DATABASE; a failure report may hide a created database. */
    method CreateDatabase(name: string) returns (ok: bool)
      modifies `databases, `history, `creates, `made, `faults
      ensures made == if databases == old(databases) then old(made) else old(made) + 1
      ensures creates == old(creates) + [Report(name, ok)]
      ensures || databases == old(databases)
              || (name !in old(databases) && databases == old(databases)[name := Database(None)])
      ensures ok ==> databases != old(databases) && name in databases && name !in old(databases)
      ensures history == old(history) + [Now()]
      ensures old(faults) <= faults && (!ok && name !in old(databases) ==> old(faults) < faults)
    {
      var lost: bool := *;
      var fails := Fails();
      ok := !fails && name !in databases;
      if name !in databases && (ok || lost) {
        databases := databases[name := Database(None)];
        made := made + 1;
        assert name in databases;
      }
      creates := creates + [Report(name, ok)];
      history := history + [Now()];
    }

    /** DROP DATABASE; a failure report may hide a dropped database. */
    method DropDatabase(name: string) returns (ok: bool)
      modifies `databases, `history, `drops, `gone, `faults
      ensures gone == if databases == old(databases) then old(gone) else old(gone) + 1
      ensures drops == old(drops) + [Report(name, ok)]
      ensures databases == old(databases) || databases == old(databases) - {name}
      ensures name !in old(databases) ==> databases == old(databases)
      ensures ok ==> databases == old(databases) - {name}
      ensures history == old(history) + [Now()]
      ensures old(faults) <= faults && (!ok && name in old(databases) ==> old(faults) < faults)
    {
      var lost: bool := *;
      var fails := Fails();
      ok := !fails && name in databases;
      if name in databases && (ok || lost) {
        gone := gone + 1;
        databases := databases - {name};
      }
      drops := drops + [Report(name, ok)];
      history := history + [Now()];
    }

    /** pg_restore --single-transaction into an existing database. */
    method PgRestore(path: Path, name: string) returns (ok: bool)
      modifies `databases, `history, `faults
      ensures databases == old(databases)
              || (name in old(databases) && path in disk
                  && databases == old(databases)[name := Database(Some(disk[path].data))])
      ensures ok ==> path in disk && name in databases && databases[name] == Database(Some(disk[path].data))
      ensures history == old(history) + [Now()]
      ensures old(faults) <= faults && (!ok && name in old(databases) && path in disk ==> old(faults) < faults)
    {
      var lost: bool := *;
      var fails := Fails();
      ok := !fails && name in databases && path in disk;
      if name in databases && path in disk && (ok || lost) {
        databases := databases[name := Database(Some(disk[path].data))];
      }
      history := history + [Now()];
    }

    /** The tables of a database, as information_schema shows them. */
    function Tables(name: string): map<string, nat>
      reads `databases
    {
      if name in databases && databases[name].restored.Some? then tablesOf(databases[name].restored.value) else map[]
    }

    method QueryCurrentDatabase(name: string) returns (r: Option<string>)
      modifies `faults
      ensures r.Some? ==> name in databases && r.value == name
      ensures old(faults) <= faults && (r.None? && name in databases ==> old(faults) < faults)
    {
      var fails := Fails();
      r := if fails || name !in databases then None else Some(name);
    }

    method QueryTableCount(name: string) returns (r: Option<nat>)
      modifies `faults
      ensures r.Some? ==> r.value == |Tables(name)|
      ensures faults == if r.Some? then old(faults) else old(faults) + 1
    {
      var fails := Fails();
      r := if fails then None else Some(|Tables(name)|);
    }

    method QueryTableExists(name: string, table: string) returns (r: Option<bool>)
      modifies `faults
      ensures r.Some? ==> (r.value <==> table in Tables(name))
      ensures faults == if r.Some? then old(faults) else old(faults) + 1
    {
      var fails := Fails();
      r := if fails then None else Some(table in Tables(name));
    }

    /** Counting the rows of a missing table fails. */
    method QueryRowCount(name: string, table: string) returns (r: Option<nat>)
      modifies `faults
      ensures r.Some? ==> table in Tables(name) && r.value == Tables(name)[table]
      ensures old(faults) <= faults && (r.None? && table in Tables(name) ==> old(faults) < faults)
    {
      var fails := Fails();
      r := if fails || table !in Tables(name) then None else Some(Tables(name)[table]);
    }

    // ---- lock files ----

    function LockAt(path: Path): LockFile
      reads `locks
    {
      FileAt(locks, path)
    }

    method TryCreateLock(path: Path) returns (r: CreateOutcome)
      modifies `locks, `faults
      ensures r == Created ==> path !in old(locks) && locks == old(locks)[path := ContentOf(me)]
      ensures r != Created ==> locks == old(locks)
      ensures r == AlreadyExists <==> path in old(locks)
      ensures old(faults) <= faults && (r == CreateFailed ==> old(faults) < faults)
    {
      var fails := Fails();
      if path in locks {
        r := AlreadyExists;
      } else if fails {
        r := CreateFailed;
      } else {
        r := Created;
        locks := locks[path := ContentOf(me)];
      }
    }

    /** No lock file, or one that a reader would judge stale. */
    predicate Available(path: Path)
      reads `locks
    {
      CanTake(LockAt(path))
    }

    predicate CanTake(file: LockFile) {
      file.Owned? ==> file.host in {None, Some(me.host)} && Process(file.pid, me.host) !in living
    }

    /** isLockStale: reading fails at most by a fault, and then counts as stale. */
    method IsLockStale(path: Path) returns (stale: bool)
      modifies `faults
      ensures faults == old(faults) ==> (stale <==> Available(path))
      ensures faults == old(faults) || (faults == old(faults) + 1 && stale)
      // said without the protocol's tables: no file, a malformed one, another host's, this host's
      ensures faults == old(faults) && path !in locks ==> stale
      ensures faults == old(faults) && path in locks && !locks[path].Owned? ==> stale
      ensures faults == old(faults) && path in locks && locks[path].Owned? ==>
                (stale <==> (locks[path].host == None || locks[path].host == Some(me.host))
                            && Process(locks[path].pid, me.host) !in living)
    {
      var unreadable := Fails();
      if unreadable || path !in locks {
        return true;
      }
      match AfterRead(locks[path], me) {
        case Reclaiming => return true;
        case Judging(pid) => return Process(pid, me.host) !in living;
        case _ => return false;
      }
    }

    /** Without faults, exactly the available locks are taken. */
    method AcquireBackupLock(path: Path) returns (handle: LockHandle?)
      modifies `locks, `taken, `faults
      ensures handle != null ==>
                fresh(handle) && handle.path == path && !handle.released && locks == old(locks)[path := ContentOf(me)]
      ensures handle == null ==> locks == old(locks) || locks == old(locks) - {path}
      ensures taken == if handle == null then old(taken) else old(taken) + [path]
      ensures old(faults) <= faults
      ensures faults == old(faults) ==> (handle != null <==> old(Available(path)))
      ensures faults == old(faults) && handle == null ==> locks == old(locks)
      // said without the protocol's tables: no file, a malformed one, another host's, this host's
      ensures faults == old(faults) && path !in old(locks) ==> handle != null
      ensures faults == old(faults) && path in old(locks) && !old(locks)[path].Owned? ==> handle != null
      ensures faults == old(faults) && path in old(locks) && old(locks)[path].Owned? ==>
                (handle != null <==> (old(locks)[path].host == None || old(locks)[path].host == Some(me.host))
                                     && Process(old(locks)[path].pid, me.host) !in living)
    {
      var r := TryCreateLock(path);
      if r == CreateFailed {
        return null;
      }
      if r == AlreadyExists {
        var stale := IsLockStale(path);
        if !stale {
          return null;
        }
        var fails := Fails();
        if !fails {
          locks := locks - {path};
        }
        r := TryCreateLock(path);
        if r != Created {
          return null;
        }
      }
      taken := taken + [path];
      handle := new LockHandle(path);
    }

    /** Every run's first steps: its directory, its own precondition, then its lock. */
    method PrepareAndLock(path: Path, allowed: bool) returns (handle: LockHandle?)
      modifies `locks, `taken, `faults
      ensures handle != null ==>
                fresh(handle) && handle.path == path && !handle.released && OwnPid(LockAt(path))
      ensures SameExcept(locks, old(locks), {path})
      ensures taken == if handle == null then old(taken) else old(taken) + [path]
      ensures old(faults) <= faults
      ensures faults == old(faults) ==> (handle != null <==> allowed && old(Available(path)))
      ensures handle != null ==> allowed
    {
      handle := null;
      var prepared := PrepareDirectory();
      if prepared && allowed {
        handle := AcquireBackupLock(path);
      }
    }

    method Release(handle: LockHandle)
      modifies handle, `locks, `releases, `stuck, `faults
      ensures handle.released
      ensures SameExcept(locks, old(locks), {handle.path})
      ensures old(handle.released) ==> locks == old(locks) && releases == old(releases) && stuck == old(stuck)
      ensures !old(handle.released) ==> releases == old(releases) + [handle.path]
      ensures locks == old(locks) || (locks == old(locks) - {handle.path} && OwnPid(old(LockAt(handle.path))))
      ensures stuck == old(stuck) || stuck == old(stuck) + {handle.path}
      ensures !old(handle.released) && OwnPid(old(LockAt(handle.path))) && handle.path in locks ==>
                handle.path in stuck && old(faults) < faults
      ensures old(faults) <= faults
      // a file is deleted only with the caller's pid in it, and then, without a fault, it is
      ensures locks != old(locks) ==>
                handle.path in old(locks) && old(locks)[handle.path].Owned? && old(locks)[handle.path].pid == me.pid
      ensures (!old(handle.released) && faults == old(faults) && handle.path in old(locks)
               && old(locks)[handle.path].Owned? && old(locks)[handle.path].pid == me.pid) ==> handle.path !in locks
    {
      if handle.released {
        return;
      }
      handle.released := true;
      releases := releases + [handle.path];
      var fails := Fails();
      if handle.path in locks && OwnPid(locks[handle.path]) {
        if fails {
          stuck := stuck + {handle.path};
        } else {
          locks := locks - {handle.path};
        }
      }
    }

    predicate OwnPid(file: LockFile) {
      file.Owned? && file.pid == me.pid
    }
  }

  /** What acquiring returns; releasing it twice is the same as once. */
  class LockHandle {
    const path: Path
    var released: bool

    constructor (path: Path)
      ensures this.path == path && !released
    {
      this.path := path;
      released := false;
    }
  }
}
