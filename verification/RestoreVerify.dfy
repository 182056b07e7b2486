/**
  backup-restore-verify.ts: download, decrypt, restore into a disposable database, check,
  drop.  The contracts follow the resources: the lock, the catalogue and the plaintext.
 */
module RestoreVerify {
  import opened Wrappers
  import opened Text
  import opened Envelope
  import opened BackupKeys
  import opened BackupWorld
  import opened BackupDatabase

  // ---- disposable database names ----

  const VERIFY_DB_PREFIX := "tms_restore_verify_"
  const BUILTIN_FORBIDDEN := ["tms_dev", "tms_local_test", "postgres", "template0", "template1"]
  const FORBIDDEN_MAINTENANCE := ["tms_dev", "tms_local_test"]

  predicate IsHexDigit(c: char) {
    IsDigit(c) || 'a' <= c <= 'f'
  }

  predicate IsNameStart(c: char) {
    'a' <= c <= 'z' || c == '_'
  }

  /** Lower-case letters, digits and underscores, not starting with a digit. */
  predicate IsSafeIdentifier(s: string) {
    s != "" && IsNameStart(s[0]) && forall i :: 0 <= i < |s| ==> IsNameStart(s[i]) || IsDigit(s[i])
  }

  function LowerChar(c: char): char {
    if 'A' <= c <= 'Z' then c - 'A' + 'a' else c
  }

  function Lower(s: string): string {
    seq(|s|, i requires 0 <= i < |s| => LowerChar(s[i]))
  }

  predicate Forbids(names: seq<string>, name: string) {
    exists i :: 0 <= i < |names| && Lower(names[i]) == name
  }

  predicate IsSafeVerificationName(name: string, extraForbidden: seq<string>) {
    && VERIFY_DB_PREFIX <= name && IsSafeIdentifier(name)
    && Lower(name) !in BUILTIN_FORBIDDEN && !Forbids(extraForbidden, Lower(name))
  }

  predicate IsSafeMaintenanceName(name: string, extraForbidden: seq<string>) {
    Lower(name) !in FORBIDDEN_MAINTENANCE && !Forbids(extraForbidden, Lower(name))
  }

  lemma LowerEqualExactly(a: string, b: string)
    ensures Lower(a) == Lower(b) <==> SameIgnoringCase(a, b)
  {
    if Lower(a) == Lower(b) {
      forall i | 0 <= i < |a| ensures SameLetter(a[i], b[i]) {
        assert Lower(a)[i] == Lower(b)[i];
      }
    }
  }

  /** Only a database of these names, in whatever case, is refused as the maintenance database. */
  predicate ForbiddenMaintenance(name: string, extraForbidden: seq<string>) {
    || SameIgnoringCase(name, "tms_dev") || SameIgnoringCase(name, "tms_local_test")
    || exists i :: 0 <= i < |extraForbidden| && SameIgnoringCase(extraForbidden[i], name)
  }

  lemma MaintenanceRefusedExactly(name: string, extraForbidden: seq<string>)
    ensures !IsSafeMaintenanceName(name, extraForbidden) <==> ForbiddenMaintenance(name, extraForbidden)
  {
    hide Lower, SameIgnoringCase;
    LowerEqualExactly(name, "tms_dev");
    LowerEqualExactly(name, "tms_local_test");
    LowerOfNames();
    forall i | 0 <= i < |extraForbidden|
      ensures Lower(extraForbidden[i]) == Lower(name) <==> SameIgnoringCase(extraForbidden[i], name)
    {
      LowerEqualExactly(extraForbidden[i], name);
    }
  }

  lemma LowerOfNames()
    ensures Lower("tms_dev") == "tms_dev" && Lower("tms_local_test") == "tms_local_test"
  {
  }

  /** A name made for disposal: the prefix, plain characters, and none that the configuration forbids. */
  predicate Disposable(name: string, extraForbidden: seq<string>) {
    && |name| >= 19 && name[..19] == "tms_restore_verify_"
    && (forall i :: 0 <= i < |name| ==> 'a' <= name[i] <= 'z' || '0' <= name[i] <= '9' || name[i] == '_')
    && forall i :: 0 <= i < |extraForbidden| ==> !SameIgnoringCase(extraForbidden[i], name)
  }

  /** The safety gate passes exactly the disposable names; they need no escaping in SQL. */
  lemma SafeNameIsDisposable(name: string, extraForbidden: seq<string>)
    ensures IsSafeVerificationName(name, extraForbidden) <==> Disposable(name, extraForbidden)
    ensures IsSafeVerificationName(name, extraForbidden) ==> QuoteIdentifier(name) == "\"" + name + "\""
  {
    hide SameIgnoringCase;
    forall i | 0 <= i < |extraForbidden|
      ensures Lower(extraForbidden[i]) == Lower(name) <==> SameIgnoringCase(extraForbidden[i], name)
    {
      LowerEqualExactly(extraForbidden[i], name);
    }
    assert |VERIFY_DB_PREFIX| == 19;
    if VERIFY_DB_PREFIX <= name && IsNameText(name) {
      assert name == VERIFY_DB_PREFIX + name[19..];
      assert IsNameText(name[19..]);
      NameTextIsSafe(VERIFY_DB_PREFIX, name[19..]);
      NothingToDouble(name);
    }
  }

  lemma {:induction false} NothingToDouble(s: string)
    requires IsNameText(s)
    ensures DoubleQuotes(s) == s
    decreases |s|
  {
    if s != "" {
      NothingToDouble(s[1..]);
    }
  }

  function GenerateName(s: Stamp, random: string): string {
    VERIFY_DB_PREFIX + (Pad(s.year, 4) + Pad(s.month, 2) + Pad(s.day, 2)) + "_"
    + (Pad(s.hour, 2) + Pad(s.minute, 2) + Pad(s.second, 2)) + "_" + random
  }

  /** Buffer.toString('hex'). */
  function Hex(b: Bytes): (s: string)
    ensures |s| == 2 * |b| && IsHex(s)
  {
    if b == [] then "" else [HexDigit(b[0] / 16), HexDigit(b[0] % 16)] + Hex(b[1..])
  }

  function HexDigit(d: int): (c: char)
    requires 0 <= d < 16
    ensures IsHexDigit(c)
  {
    if d < 10 then '0' + d as char else 'a' + (d - 10) as char
  }

  predicate IsHex(s: string) {
    forall i :: 0 <= i < |s| ==> IsHexDigit(s[i])
  }

  predicate IsNameText(s: string) {
    forall i :: 0 <= i < |s| ==> IsNameStart(s[i]) || IsDigit(s[i])
  }

  /** A generated name passes the safety gate unless the configuration forbids it by name. */
  lemma GeneratedNameIsSafe(s: Stamp, random: string, extraForbidden: seq<string>)
    requires IsHex(random)
    ensures IsSafeVerificationName(GenerateName(s, random), extraForbidden)
            <==> !Forbids(extraForbidden, GenerateName(s, random))
  {
    hide Pad, IsHexDigit, Forbids;
    var date := Pad(s.year, 4) + Pad(s.month, 2) + Pad(s.day, 2);
    var time := Pad(s.hour, 2) + Pad(s.minute, 2) + Pad(s.second, 2);
    HexIsNameText(random);
    assert AllDigits(date) && AllDigits(time);
    NameTextIsSafe(VERIFY_DB_PREFIX, date + "_" + time + "_" + random);
    var name := GenerateName(s, random);
    assert name == VERIFY_DB_PREFIX + (date + "_" + time + "_" + random);
  }

  lemma HexIsNameText(s: string)
    requires IsHex(s)
    ensures IsNameText(s)
  {
  }

  lemma NameTextIsSafe(prefix: string, rest: string)
    requires prefix == VERIFY_DB_PREFIX && IsNameText(rest)
    ensures IsSafeIdentifier(prefix + rest) && Lower(prefix + rest) == prefix + rest
    ensures prefix + rest !in BUILTIN_FORBIDDEN
  {
    var name := prefix + rest;
    assert IsNameText(prefix);
    assert forall i :: 0 <= i < |name| ==> LowerChar(name[i]) == name[i];
    assert name[..4] == "tms_" && name[4] == 'r';
    assert forall n :: n in BUILTIN_FORBIDDEN ==> |n| <= 14;
  }

  lemma {:induction false} HexIsInjective(a: Bytes, b: Bytes)
    requires Hex(a) == Hex(b)
    ensures a == b
    decreases |a|
  {
    assert |a| == |b|;
    if a != [] {
      assert Hex(a)[2..] == Hex(a[1..]) && Hex(b)[2..] == Hex(b[1..]);
      assert Hex(a)[0] == HexDigit(a[0] / 16) && Hex(a)[1] == HexDigit(a[0] % 16);
      assert Hex(b)[0] == HexDigit(b[0] / 16) && Hex(b)[1] == HexDigit(b[0] % 16);
      HexDigitIsInjective(a[0] / 16, b[0] / 16);
      HexDigitIsInjective(a[0] % 16, b[0] % 16);
      HexIsInjective(a[1..], b[1..]);
      assert a == [a[0]] + a[1..] && b == [b[0]] + b[1..];
    }
  }

  lemma HexDigitIsInjective(d: int, e: int)
    requires 0 <= d < 16 && 0 <= e < 16 && HexDigit(d) == HexDigit(e)
    ensures d == e
  {
  }

  /** Two generated names are equal only for the same second and the same random bytes. */
  lemma GeneratedNamesDiffer(s: int, x: Bytes, t: int, y: Bytes)
    requires InFourDigitYears(s) && InFourDigitYears(t)
    ensures GenerateName(StampOf(s), Hex(x)) == GenerateName(StampOf(t), Hex(y)) <==> s == t && x == y
  {
    hide StampOf, InFourDigitYears, Hex, Pad, GenerateName;
    if GenerateName(StampOf(s), Hex(x)) == GenerateName(StampOf(t), Hex(y)) {
      NameFields(StampOf(s), Hex(x), StampOf(t), Hex(y));
      HexIsInjective(x, y);
      StampIsUtc(s);
      StampIsUtc(t);
    }
  }

  lemma NameFields(a: Stamp, x: string, b: Stamp, y: string)
    requires GenerateName(a, x) == GenerateName(b, y)
    requires a.year <= 9999 && a.month <= 12 && a.day <= 31 && a.hour < 24 && a.minute < 60 && a.second < 60
    requires b.year <= 9999 && b.month <= 12 && b.day <= 31 && b.hour < 24 && b.minute < 60 && b.second < 60
    ensures a == b && x == y
  {
    hide Pad, Number;
    NamePlaces(a, x);
    NamePlaces(b, y);
    assert Pow10(2) == 100 && Pow10(3) == 1000 && Pow10(4) == 10000;
    NumberOfPad(a.year, 4);
    NumberOfPad(b.year, 4);
    NumberOfPad(a.month, 2);
    NumberOfPad(b.month, 2);
    NumberOfPad(a.day, 2);
    NumberOfPad(b.day, 2);
    NumberOfPad(a.hour, 2);
    NumberOfPad(b.hour, 2);
    NumberOfPad(a.minute, 2);
    NumberOfPad(b.minute, 2);
    NumberOfPad(a.second, 2);
    NumberOfPad(b.second, 2);
  }

  lemma NamePlaces(s: Stamp, random: string)
    ensures var name := GenerateName(s, random);
            && |name| == 35 + |random| && name[35..] == random
            && name[19..23] == Pad(s.year, 4) && name[23..25] == Pad(s.month, 2) && name[25..27] == Pad(s.day, 2)
            && name[28..30] == Pad(s.hour, 2) && name[30..32] == Pad(s.minute, 2) && name[32..34] == Pad(s.second, 2)
  {
    hide Pad;
    assert |VERIFY_DB_PREFIX| == 19;
  }

  // ---- quoting ----

  /** quotePostgresIdentifier: double quotes around, every embedded one doubled. */
  function DoubleQuotes(s: string): string {
    if s == "" then "" else (if s[0] == '"' then "\"\"" else [s[0]]) + DoubleQuotes(s[1..])
  }

  function QuoteIdentifier(s: string): string {
    "\"" + DoubleQuotes(s) + "\""
  }

  /** Reads a quoted identifier up to its closing quote: its name and what follows. */
  function ReadIdentifier(s: string): Option<(string, string)> {
    if s == "" then None
    else if s[0] != '"' then
      match ReadIdentifier(s[1..])
      case None => None
      case Some((name, rest)) => Some(([s[0]] + name, rest))
    else if |s| > 1 && s[1] == '"' then
      match ReadIdentifier(s[2..])
      case None => None
      case Some((name, rest)) => Some((['"'] + name, rest))
    else Some(("", s[1..]))
  }

  lemma ReadOne(c: char, t: string)
    requires ReadIdentifier(t).Some?
    ensures ReadIdentifier(DoubleQuotes([c]) + t)
            == Some(([c] + ReadIdentifier(t).value.0, ReadIdentifier(t).value.1))
    ensures |DoubleQuotes([c])| > 0
  {
    assert [c][1..] == "";
    if c == '"' {
      assert ("\"\"" + t)[2..] == t;
    } else {
      assert ([c] + t)[1..] == t;
    }
  }

  lemma DoubledInParts(name: string)
    requires name != ""
    ensures DoubleQuotes(name) == DoubleQuotes([name[0]]) + DoubleQuotes(name[1..])
  {
    assert [name[0]][1..] == "";
  }

  /** PostgreSQL reads back exactly the name that was quoted, whatever SQL follows it. */
  lemma {:induction false} QuotedNameIsReadBack(name: string, rest: string)
    requires rest == "" || rest[0] != '"'
    ensures ReadIdentifier((QuoteIdentifier(name) + rest)[1..]) == Some((name, rest))
    decreases |name|
  {
    var s := DoubleQuotes(name) + ("\"" + rest);
    assert (QuoteIdentifier(name) + rest)[1..] == s;
    if name == "" {
      assert s == "\"" + rest && s[1..] == rest;
    } else {
      hide DoubleQuotes, ReadIdentifier;
      QuotedNameIsReadBack(name[1..], rest);
      var t := DoubleQuotes(name[1..]) + ("\"" + rest);
      assert (QuoteIdentifier(name[1..]) + rest)[1..] == t;
      DoubledInParts(name);
      assert s == DoubleQuotes([name[0]]) + t;
      ReadOne(name[0], t);
      assert name == [name[0]] + name[1..];
    }
  }

  // ---- sanity checks ----

  const MIN_EXPECTED_TABLE_COUNT := 10
  const REQUIRED_TABLES := ["_prisma_migrations", "organization", "user", "load"]
  const REPRESENTATIVE_TABLES := ["organization", "user"]

  /** What a healthy restore looks like: ten tables at least, the required ones, and rows in the core two. */
  predicate Healthy(tables: map<string, nat>) {
    && |tables| >= 10
    && "_prisma_migrations" in tables && "organization" in tables && "user" in tables && "load" in tables
    && tables["organization"] > 0 && tables["user"] > 0
  }

  lemma HealthyByLists(tables: map<string, nat>)
    ensures Healthy(tables) <==>
              && |tables| >= MIN_EXPECTED_TABLE_COUNT
              && (forall t :: t in REQUIRED_TABLES ==> t in tables)
              && (forall t :: t in REPRESENTATIVE_TABLES ==> t in tables && tables[t] > 0)
  {
    assert REQUIRED_TABLES[0] == "_prisma_migrations" && REQUIRED_TABLES[1] == "organization";
    assert REQUIRED_TABLES[2] == "user" && REQUIRED_TABLES[3] == "load";
    assert REPRESENTATIVE_TABLES[0] == "organization" && REPRESENTATIVE_TABLES[1] == "user";
  }

  /** Passing means healthy; a healthy database fails only when a query fails. */
  method RunSanityChecks(w: World, name: string) returns (passed: bool)
    modifies w`faults
    ensures old(w.faults) <= w.faults
    ensures passed ==> name in w.databases && Healthy(w.Tables(name))
    ensures w.faults == old(w.faults) && name in w.databases && Healthy(w.Tables(name)) ==> passed
  {
    hide Healthy;
    HealthyByLists(w.Tables(name));
    var current := w.QueryCurrentDatabase(name);
    if current != Some(name) {
      return false;
    }
    passed := true;
    var count := w.QueryTableCount(name);
    if count.None? || count.value < MIN_EXPECTED_TABLE_COUNT {
      passed := false;
    }
    var missing: seq<string> := [];
    for i := 0 to |REQUIRED_TABLES|
      invariant missing == [] ==> forall t :: t in REQUIRED_TABLES[..i] ==> t in w.Tables(name)
      invariant old(w.faults) <= w.faults
      invariant w.faults == old(w.faults) && Healthy(w.Tables(name)) ==> missing == []
      invariant passed ==> |w.Tables(name)| >= MIN_EXPECTED_TABLE_COUNT
      invariant w.faults == old(w.faults) && Healthy(w.Tables(name)) ==> passed
    {
      var exists_ := w.QueryTableExists(name, REQUIRED_TABLES[i]);
      if exists_ != Some(true) {
        missing := missing + [REQUIRED_TABLES[i]];
      }
    }
    assert REQUIRED_TABLES[..|REQUIRED_TABLES|] == REQUIRED_TABLES;
    if |missing| > 0 {
      passed := false;
    }
    for i := 0 to |REPRESENTATIVE_TABLES|
      invariant passed ==> |w.Tables(name)| >= MIN_EXPECTED_TABLE_COUNT
                           && forall t :: t in REQUIRED_TABLES ==> t in w.Tables(name)
      invariant passed ==> forall t :: t in REPRESENTATIVE_TABLES[..i] ==> t in w.Tables(name) && w.Tables(name)[t] > 0
      invariant old(w.faults) <= w.faults
      invariant w.faults == old(w.faults) && Healthy(w.Tables(name)) ==> passed
    {
      var rows := w.QueryRowCount(name, REPRESENTATIVE_TABLES[i]);
      if rows.None? || rows.value <= 0 {
        passed := false;
      }
    }
    assert REPRESENTATIVE_TABLES[..|REPRESENTATIVE_TABLES|] == REPRESENTATIVE_TABLES;
  }

  // ---- the catalogue ----

  /** The catalogues agree, or differ only in a database that did not exist before. */
  ghost predicate OnlyOwn(now: map<string, Database>, was: map<string, Database>, name: string) {
    now == was || (name !in was && SameExcept(now, was, {name}))
  }

  /** The history only grew, touching no object and no database but the run's own. */
  ghost predicate TouchesOnlyOwn(
    now: seq<Snapshot>, was: seq<Snapshot>, bucket: map<string, Bytes>, databases: map<string, Database>, name: string)
  {
    && |was| <= |now| && now[..|was|] == was
    && forall i :: |was| <= i < |now| ==> now[i].bucket == bucket && OnlyOwn(now[i].databases, databases, name)
  }

  /** At some step since then the database held exactly this restored dump. */
  ghost predicate EverRestored(now: seq<Snapshot>, since: nat, name: string, dump: Bytes) {
    exists i :: since <= i < |now| && name in now[i].databases && now[i].databases[name] == Database(Some(dump))
  }

  lemma StaysRestored(later: seq<Snapshot>, now: seq<Snapshot>, since: nat, earlier: nat, name: string, dump: Bytes)
    requires EverRestored(now, since, name, dump) && earlier <= since
    requires |now| <= |later| && later[..|now|] == now
    ensures EverRestored(later, earlier, name, dump)
  {
    var i :| since <= i < |now| && name in now[i].databases && now[i].databases[name] == Database(Some(dump));
    assert later[i] == later[..|now|][i];
  }

  lemma RestoredNow(now: seq<Snapshot>, since: nat, name: string, dump: Bytes)
    requires since < |now| && name in now[|now| - 1].databases
    requires now[|now| - 1].databases[name] == Database(Some(dump))
    ensures EverRestored(now, since, name, dump)
  {
  }

  const DROP_MAX_ATTEMPTS := 3

  /** The drops since then were all of this database: failures, ended by a success or by giving up. */
  predicate DropsEnded(now: seq<Report>, was: seq<Report>, name: string, ok: bool) {
    && |was| < |now| <= |was| + 3 && now[..|was|] == was
    && (forall i :: |was| <= i < |now| ==> now[i] == Report(name, ok && i == |now| - 1))
    && (!ok ==> |now| == |was| + 3)
  }

  /** Three attempts; giving up is the only way to fail. */
  method DropVerificationDatabase(w: World, name: string, ghost was: map<string, Database>) returns (ok: bool)
    requires OnlyOwn(w.databases, was, name) && name !in was
    modifies w`databases, w`history, w`drops, w`gone, w`faults
    ensures old(w.faults) <= w.faults
    ensures w.faults == old(w.faults) && name in old(w.databases) ==> ok
    ensures DropsEnded(w.drops, old(w.drops), name, ok)
    ensures OnlyOwn(w.databases, was, name)
    ensures ok ==> w.databases == was
    ensures name in old(w.databases) ==> (w.databases == was <==> w.gone != old(w.gone))
    ensures TouchesOnlyOwn(w.history, old(w.history), w.bucket, was, name)
  {
    for attempt := 0 to DROP_MAX_ATTEMPTS
      invariant attempt == 0 ==> w.databases == old(w.databases)
      invariant old(w.faults) <= w.faults
      invariant attempt > 0 && name in old(w.databases) ==> old(w.faults) < w.faults
      invariant |w.drops| == |old(w.drops)| + attempt && w.drops[..|old(w.drops)|] == old(w.drops)
      invariant forall i :: |old(w.drops)| <= i < |w.drops| ==> w.drops[i] == Report(name, false)
      invariant OnlyOwn(w.databases, was, name)
      invariant old(w.gone) <= w.gone
      invariant name in old(w.databases) ==> (name in w.databases <==> w.gone == old(w.gone))
      invariant TouchesOnlyOwn(w.history, old(w.history), w.bucket, was, name)
    {
      var dropped := w.DropDatabase(name);
      if dropped {
        return true;
      }
    }
    return false;
  }

  /**
    What became of the catalogue.  Nothing was created; or creation reported failure; or it
    was acknowledged and the database dropped; or dropping it was tried three times in vain.
    Unless the catalogue is as it was, the run fails.
   */
  ghost predicate Conserved(
    w: World, databases: map<string, Database>, creates: seq<Report>, drops: seq<Report>, gone: nat, name: string,
    exitCode: int)
    reads w`databases, w`creates, w`drops, w`gone
  {
    || (w.creates == creates && w.drops == drops && w.databases == databases && exitCode == 1)
    || (w.creates == creates + [Report(name, false)] && w.drops == drops && w.gone == gone && exitCode == 1)
    || (w.creates == creates + [Report(name, true)] && DropsEnded(w.drops, drops, name, true)
        && w.databases == databases)
    || (w.creates == creates + [Report(name, true)] && DropsEnded(w.drops, drops, name, false) && exitCode == 1)
  }

  /**
    A database is left behind exactly when a CREATE took effect and no DROP did, whatever they
    reported; and then the run fails.
   */
  ghost predicate LeftBehindExactly(w: World, databases: map<string, Database>, made: nat, gone: nat, exitCode: int)
    reads w`databases, w`made, w`gone
  {
    && (w.databases != databases <==> w.made != made && w.gone == gone)
    && (w.databases != databases ==> exitCode == 1)
  }

  // ---- the run ----

  /** How the try block left things. */
  datatype Attempt = Attempt(exitCode: int, plaintextPath: Option<Path>, dbCreated: bool)

  /** Everything a successful attempt has established. */
  ghost predicate Verified(w: World, key: string, name: string, plaintext: Bytes)
    reads w`bucket, w`databases
  {
    && key in w.bucket && Opens(w.codec, w.unwrap, w.bucket[key], plaintext)
    && name in w.databases && w.databases[name] == Database(Some(plaintext))
    && Healthy(w.tablesOf(plaintext))
  }

  /** The object is an envelope whose plaintext restores to a healthy database. */
  ghost predicate GoodBackup(w: World, key: string)
    reads w`bucket
  {
    key in w.bucket && exists p :: Opens(w.codec, w.unwrap, w.bucket[key], p) && Healthy(w.tablesOf(p))
  }

  /** Download, parse, unwrap the key, decrypt. */
  method FetchPlaintext(w: World, key: string) returns (plaintext: Option<Bytes>)
    modifies w`keyMemory, w`downloads, w`faults
    ensures w.downloads == old(w.downloads) + [key]
    ensures old(w.faults) <= w.faults
    ensures w.faults == old(w.faults) && GoodBackup(w, key) ==> plaintext.Some?
    ensures AllZero(w.keyMemory) || w.keyMemory == old(w.keyMemory)
    ensures plaintext.Some? ==> key in w.bucket && Opens(w.codec, w.unwrap, w.bucket[key], plaintext.value)
  {
    hide Parse, Decrypt, Healthy;
    plaintext := None;
    ghost var good: Bytes := [];
    if GoodBackup(w, key) {
      good :| Opens(w.codec, w.unwrap, w.bucket[key], good) && Healthy(w.tablesOf(good));
    }
    var envelope := w.DownloadObject(key);
    if envelope.None? {
      return;
    }
    var parsed := ParseEnvelope(w.codec, envelope.value);
    if parsed.Err? {
      return;
    }
    var header := parsed.value.header;
    var dataKey := w.DecryptDataKey(w.codec.fromBase64(header.encryptedDataKey));
    if dataKey.None? {
      return;
    }
    var decrypted := Decrypt(w.codec, header, parsed.value.ciphertext, dataKey.value);
    w.ZeroKey();
    if decrypted.Ok? {
      plaintext := Some(decrypted.value);
    }
  }

  lemma GoodMeansHealthy(w: World, key: string, plaintext: Bytes)
    requires key in w.bucket && Opens(w.codec, w.unwrap, w.bucket[key], plaintext)
    ensures GoodBackup(w, key) <==> Healthy(w.tablesOf(plaintext))
  {
    hide Opens, Healthy;
    forall p | Opens(w.codec, w.unwrap, w.bucket[key], p)
      ensures p == plaintext
    {
      OpensToOne(w.codec, w.unwrap, w.bucket[key], p, plaintext);
    }
  }

  /** Create a database that is not there, and restore the file into it. */
  method CreateAndRestore(w: World, path: Path, name: string) returns (restored: bool, dbCreated: bool)
    requires path in w.disk && name !in w.databases
    modifies w`databases, w`history, w`creates, w`made, w`faults
    ensures old(w.faults) <= w.faults && (w.faults == old(w.faults) ==> restored)
    ensures Created(w, old(w.databases), old(w.creates), old(w.made), name, dbCreated)
    ensures TouchesOnlyOwn(w.history, old(w.history), w.bucket, old(w.databases), name)
    ensures restored ==>
              && dbCreated && name in w.databases && w.databases[name] == Database(Some(w.disk[path].data))
              && EverRestored(w.history, |old(w.history)|, name, w.disk[path].data)
  {
    restored := false;
    dbCreated := w.CreateDatabase(name);
    if !dbCreated {
      return;
    }
    restored := w.PgRestore(path, name);
    if restored {
      RestoredNow(w.history, |old(w.history)|, name, w.disk[path].data);
    }
  }

  /** Create, restore and check a database for a plaintext already on disk. */
  method RestoreAndCheck(w: World, path: Path, name: string, forbidden: seq<string>) returns (ok: bool, dbCreated: bool)
    requires path in w.disk
    modifies w`databases, w`history, w`creates, w`made, w`clashes, w`faults
    ensures old(w.faults) <= w.faults
    ensures (w.faults == old(w.faults) && w.clashes == old(w.clashes) && IsSafeVerificationName(name, forbidden)
             && Healthy(w.tablesOf(w.disk[path].data))) ==> ok
    ensures Clashed(w.clashes, old(w.clashes), name, old(w.databases))
    ensures Created(w, old(w.databases), old(w.creates), old(w.made), name, dbCreated)
    ensures w.creates != old(w.creates) ==> IsSafeVerificationName(name, forbidden)
    ensures TouchesOnlyOwn(w.history, old(w.history), w.bucket, old(w.databases), name)
    ensures ok ==> dbCreated && name in w.databases && w.databases[name] == Database(Some(w.disk[path].data))
                   && Healthy(w.tablesOf(w.disk[path].data))
                   && EverRestored(w.history, |old(w.history)|, name, w.disk[path].data)
  {
    hide IsSafeVerificationName, Healthy, EverRestored, OnlyOwn, TouchesOnlyOwn, Created;
    ok, dbCreated := false, false;
    NothingCreated(w, name);
    if !IsSafeVerificationName(name, forbidden) {
      return;
    }
    var alreadyExists := w.DatabaseExists(name);
    if alreadyExists != Some(false) {
      return;
    }
    ok, dbCreated := CreateAndRestore(w, path, name);
    if ok {
      assert w.Tables(name) == w.tablesOf(w.disk[path].data);
      ok := RunSanityChecks(w, name);
    }
  }

  lemma NothingCreated(w: World, name: string)
    ensures Created(w, w.databases, w.creates, w.made, name, false)
    ensures TouchesOnlyOwn(w.history, w.history, w.bucket, w.databases, name)
  {
  }

  /** The one clash there can be: the name was in the catalogue. */
  predicate Clashed(now: seq<string>, was: seq<string>, name: string, databases: map<string, Database>) {
    now == was || (now == was + [name] && name in databases)
  }

  /** Nothing created, or a creation reported as failed, or one acknowledged: before any drop. */
  ghost predicate Created(
    w: World, databases: map<string, Database>, creates: seq<Report>, made: nat, name: string, dbCreated: bool)
    reads w`databases, w`creates, w`made
  {
    && OnlyOwn(w.databases, databases, name) && (w.databases == databases <==> w.made == made)
    && (dbCreated ==> w.creates == creates + [Report(name, true)] && name in w.databases && name !in databases)
    && (!dbCreated ==>
          || (w.creates == creates && w.databases == databases)
          || w.creates == creates + [Report(name, false)])
  }

  /** The random name, logged; nothing else about the world changes. */
  method GenerateVerificationDatabaseName(w: World) returns (name: string)
    modifies w`names
    ensures w.names == old(w.names) + [name] && |name| == 43
    ensures forall forbidden :: IsSafeVerificationName(name, forbidden) <==> !Forbids(forbidden, name)
  {
    hide IsSafeVerificationName, StampOf, InFourDigitYears, GenerateName, Forbids, Hex, IsHex;
    var second := w.Clock();
    var random := w.RandomBytes(4);
    name := GenerateName(StampOf(second), Hex(random));
    NamePlaces(StampOf(second), Hex(random));
    w.names := w.names + [name];
    forall forbidden ensures IsSafeVerificationName(name, forbidden) <==> !Forbids(forbidden, name) {
      GeneratedNameIsSafe(StampOf(second), Hex(random), forbidden);
    }
  }

  /** No name was drawn, or one that is not forbidden. */
  predicate Drawable(now: seq<string>, was: seq<string>, forbidden: seq<string>) {
    now == was || (|was| < |now| && !Forbids(forbidden, now[|was|]))
  }

  lemma FileWritten(
    was: seq<Snapshot>, now: seq<Snapshot>, bucket: map<string, Bytes>, databases: map<string, Database>, name: string)
    requires now == was
             || (|now| == |was| + 1 && now[..|was|] == was
                 && now[|was|].bucket == bucket && now[|was|].databases == databases)
    ensures TouchesOnlyOwn(now, was, bucket, databases, name)
  {
  }

  /** Download, decrypt, and write the plaintext to the work directory. */
  method FetchToDisk(w: World, key: string, workDir: string)
    returns (ok: bool, path: Option<Path>, ghost plaintext: Bytes)
    modifies w`disk, w`keyMemory, w`history, w`writes, w`downloads, w`faults
    ensures old(w.faults) <= w.faults && w.downloads == old(w.downloads) + [key]
    ensures w.faults == old(w.faults) && GoodBackup(w, key) ==> ok
    ensures ok ==>
              && path.Some? && path.value in w.disk && w.disk[path.value].data == plaintext
              && key in w.bucket && Opens(w.codec, w.unwrap, w.bucket[key], plaintext)
              && (GoodBackup(w, key) <==> Healthy(w.tablesOf(plaintext)))
    ensures path.None? ==> w.writes == old(w.writes) && w.disk == old(w.disk)
    ensures path.Some? ==>
              && path.value.dir == workDir && w.writes == old(w.writes) + [Write(path.value, ok)]
              && SameExcept(w.disk, old(w.disk), {path.value})
    ensures w.history == old(w.history) || w.history == old(w.history) + [w.Now()]
    ensures AllZero(w.keyMemory) || w.keyMemory == old(w.keyMemory)
  {
    hide Healthy, Opens, GoodBackup, AllZero;
    ok, path, plaintext := false, None, [];
    var fetched := FetchPlaintext(w, key);
    if fetched.None? {
      return;
    }
    plaintext := fetched.value;
    GoodMeansHealthy(w, key, plaintext);
    var millis: string := *;
    var file := Path(workDir, "restore-verify-" + millis + ".dump");
    ok := w.WriteFile(file, fetched.value);
    path := Some(file);
  }

  /** The try block of runRestoreVerification. */
  method TryVerification(w: World, key: string, workDir: string, forbidden: seq<string>)
    returns (a: Attempt, name: string, ghost plaintext: Bytes)
    modifies w`disk, w`keyMemory, w`databases, w`history
    modifies w`writes, w`downloads, w`names, w`creates, w`made, w`clashes, w`faults
    ensures old(w.faults) <= w.faults
    ensures (w.faults == old(w.faults) && w.clashes == old(w.clashes)
             && Drawable(w.names, old(w.names), forbidden) && GoodBackup(w, key)) ==> a.exitCode == 0
    ensures Clashed(w.clashes, old(w.clashes), name, old(w.databases))
    ensures w.names == old(w.names) || w.names == old(w.names) + [name]
    ensures w.downloads == old(w.downloads) + [key]
    ensures a.exitCode == 0 || a.exitCode == 1
    ensures a.exitCode == 0 ==> a.dbCreated && Verified(w, key, name, plaintext)
                                && EverRestored(w.history, |old(w.history)|, name, plaintext)
    ensures a.plaintextPath.Some? ==>
              && SameExcept(w.disk, old(w.disk), {a.plaintextPath.value})
              && a.plaintextPath.value.dir == workDir
              && Attempted(w.writes, old(w.writes), a.plaintextPath.value)
    ensures a.plaintextPath.None? <==> w.writes == old(w.writes)
    ensures a.plaintextPath.None? ==> w.disk == old(w.disk)
    ensures Created(w, old(w.databases), old(w.creates), old(w.made), name, a.dbCreated)
    ensures TouchesOnlyOwn(w.history, old(w.history), w.bucket, old(w.databases), name)
    ensures w.creates != old(w.creates) ==> Disposable(name, forbidden) && a.plaintextPath.Some?
    ensures AllZero(w.keyMemory) || w.keyMemory == old(w.keyMemory)
  {
    hide IsSafeVerificationName, Healthy, Opens, EverRestored, GoodBackup, Forbids, OnlyOwn, Created, TouchesOnlyOwn;
    hide SameExcept, AllZero, Disposable, QuoteIdentifier;
    name := "";
    NothingCreated(w, name);
    var fetched, path;
    fetched, path, plaintext := FetchToDisk(w, key, workDir);
    ghost var stored := w.history;
    FileWritten(old(w.history), stored, w.bucket, w.databases, "");
    if !fetched {
      return Attempt(1, path, false), name, plaintext;
    }
    name := GenerateVerificationDatabaseName(w);
    SafeNameIsDisposable(name, forbidden);
    var ok, dbCreated := RestoreAndCheck(w, path.value, name, forbidden);
    FileWritten(old(w.history), stored, w.bucket, old(w.databases), name);
    TouchesOnlyOwnOn(old(w.history), stored, w.history, w.bucket, old(w.databases), name);
    if ok {
      StaysRestored(w.history, w.history, |stored|, |old(w.history)|, name, plaintext);
    }
    return Attempt(if ok then 0 else 1, path, dbCreated), name, plaintext;
  }

  const RESTORE_LOCK := ".restore-verify.lock"

  /** Success: the stored object decrypts to bytes that were restored and passed every check. */
  ghost predicate Succeeded(w: World, key: string, plaintext: Bytes, since: nat, name: string)
    reads w`bucket, w`history
  {
    && key in w.bucket && Opens(w.codec, w.unwrap, w.bucket[key], plaintext)
    && Healthy(w.tablesOf(plaintext)) && EverRestored(w.history, since, name, plaintext)
  }

  /** The one file a run may write is gone again; or deleting it failed, and so does the run. */
  ghost predicate PlaintextGone(
    nowDisk: map<Path, File>, nowWrites: seq<Write>, stuck: set<Path>, sofar: nat,
    disk: map<Path, File>, writes: seq<Write>, faults: nat, workDir: string, exitCode: int)
  {
    || (nowWrites == writes && nowDisk == disk)
    || (|nowWrites| == |writes| + 1
        && var path := nowWrites[|writes|].path;
           && path.dir == workDir && SameExcept(nowDisk, disk, {path})
           && (path in nowDisk ==> exitCode == 1 && path in stuck && faults < sofar))
  }

  /** Deletes the plaintext, if there is one. */
  method RemovePlaintext(w: World, path: Option<Path>) returns (ok: bool)
    modifies w`disk, w`history, w`stuck, w`faults
    ensures old(w.faults) <= w.faults && old(w.stuck) <= w.stuck && (w.faults == old(w.faults) ==> ok)
    ensures path.None? ==> w.disk == old(w.disk)
    ensures path.Some? ==>
              && SameExcept(w.disk, old(w.disk), {path.value})
              && (path.value in w.disk ==> !ok && path.value in w.stuck && old(w.faults) < w.faults)
    ensures w.history == old(w.history) || w.history == old(w.history) + [w.Now()]
  {
    ok := true;
    if path.Some? && path.value in w.disk {
      ok := w.Unlink(path.value);
    }
  }

  lemma PlaintextStaysGone(
    w: World, stuck: set<Path>, sofar: nat, disk: map<Path, File>, writes: seq<Write>, since: nat, faults: nat,
    workDir: string, exitCode: int)
    requires PlaintextGone(w.disk, w.writes, stuck, sofar, disk, writes, since, workDir, exitCode)
    requires stuck <= w.stuck && sofar <= w.faults && faults <= since
    ensures PlaintextGone(w.disk, w.writes, w.stuck, w.faults, disk, writes, faults, workDir, exitCode)
  {
    hide SameExcept;
  }

  lemma PlaintextFollowed(
    w: World, path: Option<Path>, tried: map<Path, File>, was: map<Path, File>, writes: seq<Write>,
    faults: nat, workDir: string, exitCode: int)
    requires path.None? ==> w.disk == was && w.writes == writes
    requires path.Some? ==>
               && path.value.dir == workDir && Attempted(w.writes, writes, path.value) && w.writes != writes
               && SameExcept(tried, was, {path.value}) && SameExcept(w.disk, tried, {path.value})
               && (path.value in w.disk ==> exitCode == 1 && path.value in w.stuck && faults < w.faults)
    ensures PlaintextGone(w.disk, w.writes, w.stuck, w.faults, was, writes, faults, workDir, exitCode)
  {
    hide SameExcept;
    if path.Some? {
      SameExceptInTurn(w.disk, tried, was, {path.value});
    }
  }

  lemma CreatedIsOwn(
    w: World, databases: map<string, Database>, creates: seq<Report>, made: nat, name: string, dbCreated: bool)
    requires Created(w, databases, creates, made, name, dbCreated)
    ensures OnlyOwn(w.databases, databases, name)
  {
  }

  /** Drops the database, if one was created. */
  method DropIfCreated(
    w: World, name: string, dbCreated: bool, ghost was: map<string, Database>, ghost creates: seq<Report>,
    ghost made: nat)
    returns (ok: bool)
    requires Created(w, was, creates, made, name, dbCreated)
    modifies w`databases, w`history, w`drops, w`gone, w`faults
    ensures old(w.faults) <= w.faults && (w.faults == old(w.faults) ==> ok)
    ensures OnlyOwn(w.databases, was, name)
    ensures TouchesOnlyOwn(w.history, old(w.history), w.bucket, was, name)
    ensures Conserved(w, was, creates, old(w.drops), old(w.gone), name, 1)
    ensures LeftBehindExactly(w, was, made, old(w.gone), 1)
    ensures dbCreated && ok ==>
              Conserved(w, was, creates, old(w.drops), old(w.gone), name, 0)
              && LeftBehindExactly(w, was, made, old(w.gone), 0)
  {
    hide DropsEnded;
    ok := true;
    if dbCreated {
      ok := DropVerificationDatabase(w, name, was);
    }
  }

  /** What the finally block does: the plaintext first, then the database. */
  method CleanUp(
    w: World, a: Attempt, name: string, ghost was: map<string, Database>, ghost creates: seq<Report>, ghost made: nat)
    returns (ok: bool)
    requires Created(w, was, creates, made, name, a.dbCreated)
    modifies w`disk, w`databases, w`history, w`drops, w`gone, w`stuck, w`faults
    ensures old(w.faults) <= w.faults && old(w.stuck) <= w.stuck && (w.faults == old(w.faults) ==> ok)
    ensures OnlyOwn(w.databases, was, name)
    ensures TouchesOnlyOwn(w.history, old(w.history), w.bucket, was, name)
    ensures Conserved(w, was, creates, old(w.drops), old(w.gone), name, 1)
    ensures LeftBehindExactly(w, was, made, old(w.gone), 1)
    ensures a.dbCreated && ok ==>
              Conserved(w, was, creates, old(w.drops), old(w.gone), name, 0)
              && LeftBehindExactly(w, was, made, old(w.gone), 0)
    ensures a.plaintextPath.None? ==> w.disk == old(w.disk)
    ensures a.plaintextPath.Some? ==>
              var path := a.plaintextPath.value;
              && SameExcept(w.disk, old(w.disk), {path})
              && (path in w.disk ==> !ok && path in w.stuck && old(w.faults) < w.faults)
  {
    hide Conserved, Created, OnlyOwn, SameExcept, LeftBehindExactly, TouchesOnlyOwn;
    CreatedIsOwn(w, was, creates, made, name, a.dbCreated);
    var plaintextGone := RemovePlaintext(w, a.plaintextPath);
    ghost var removed := w.history;
    NothingTouched(old(w.history), w.bucket, was, name);
    KeepsCatalogue(old(w.history), old(w.history), removed, w.bucket, was, name);
    var dropped := DropIfCreated(w, name, a.dbCreated, was, creates, made);
    TouchesOnlyOwnOn(old(w.history), removed, w.history, w.bucket, was, name);
    ok := plaintextGone && dropped;
  }

  lemma NothingTouched(
    history: seq<Snapshot>, bucket: map<string, Bytes>, databases: map<string, Database>, name: string)
    ensures TouchesOnlyOwn(history, history, bucket, databases, name)
  {
  }

  lemma TouchesOnlyOwnGrows(
    now: seq<Snapshot>, was: seq<Snapshot>, bucket: map<string, Bytes>, databases: map<string, Database>, name: string)
    requires TouchesOnlyOwn(now, was, bucket, databases, name)
    ensures |was| <= |now| && now[..|was|] == was
  {
  }

  /** The try block and, whatever it did, the clean-up of plaintext and database. */
  method VerifyAndCleanUp(w: World, key: string, workDir: string, forbidden: seq<string>)
    returns (exitCode: int, name: string, ghost plaintext: Bytes)
    modifies w`disk, w`keyMemory, w`databases, w`history, w`writes, w`downloads
    modifies w`names, w`creates, w`made, w`clashes, w`drops, w`gone, w`stuck, w`faults
    ensures old(w.faults) <= w.faults && old(w.stuck) <= w.stuck
    ensures (w.faults == old(w.faults) && w.clashes == old(w.clashes)
             && Drawable(w.names, old(w.names), forbidden) && GoodBackup(w, key)) ==> exitCode == 0
    ensures Clashed(w.clashes, old(w.clashes), name, old(w.databases))
    ensures w.names == old(w.names) || w.names == old(w.names) + [name]
    ensures w.downloads == old(w.downloads) + [key]
    ensures TouchesOnlyOwn(w.history, old(w.history), w.bucket, old(w.databases), name)
    ensures OnlyOwn(w.databases, old(w.databases), name)
    ensures Conserved(w, old(w.databases), old(w.creates), old(w.drops), old(w.gone), name, exitCode)
    ensures LeftBehindExactly(w, old(w.databases), old(w.made), old(w.gone), exitCode)
    ensures w.creates != old(w.creates) ==> Disposable(name, forbidden)
    ensures PlaintextGone(w.disk, w.writes, w.stuck, w.faults, old(w.disk), old(w.writes), old(w.faults),
                          workDir, exitCode)
    ensures AllZero(w.keyMemory) || w.keyMemory == old(w.keyMemory)
    ensures exitCode == 0 || exitCode == 1
    ensures exitCode == 0 ==> Succeeded(w, key, plaintext, |old(w.history)|, name)
  {
    hide Disposable, Healthy, Opens, TouchesOnlyOwn, EverRestored, GoodBackup, Drawable, Clashed, Conserved, Created;
    hide OnlyOwn, SameExcept, Attempted, AllZero, PlaintextGone, LeftBehindExactly;
    var a;
    a, name, plaintext := TryVerification(w, key, workDir, forbidden);
    ghost var tried, disk := w.history, w.disk;
    CreatedIsOwn(w, old(w.databases), old(w.creates), old(w.made), name, a.dbCreated);
    var cleaned := CleanUp(w, a, name, old(w.databases), old(w.creates), old(w.made));
    TouchesOnlyOwnOn(old(w.history), tried, w.history, w.bucket, old(w.databases), name);
    if a.exitCode == 0 {
      TouchesOnlyOwnGrows(w.history, tried, w.bucket, old(w.databases), name);
      StaysRestored(w.history, tried, |old(w.history)|, |old(w.history)|, name, plaintext);
    }
    exitCode := if cleaned then a.exitCode else 1;
    PlaintextFollowed(w, a.plaintextPath, disk, old(w.disk), old(w.writes), old(w.faults), workDir, exitCode);
  }

  /** The verification under the lock, and the release that follows it on every path. */
  method HeldVerification(w: World, lock: LockHandle, key: string, workDir: string, forbidden: seq<string>)
    returns (exitCode: int, ghost name: string, ghost plaintext: Bytes)
    requires !lock.released && w.OwnPid(w.LockAt(lock.path))
    modifies lock, w`locks, w`releases, w`disk, w`keyMemory, w`databases, w`history, w`writes, w`downloads
    modifies w`names, w`creates, w`made, w`clashes, w`drops, w`gone, w`stuck, w`faults
    ensures old(w.faults) <= w.faults && old(w.stuck) <= w.stuck
    ensures (w.faults == old(w.faults) && w.clashes == old(w.clashes)
             && Drawable(w.names, old(w.names), forbidden) && GoodBackup(w, key)) ==> exitCode == 0
    ensures Clashed(w.clashes, old(w.clashes), name, old(w.databases))
    ensures w.names == old(w.names) || w.names == old(w.names) + [name]
    ensures w.downloads == old(w.downloads) + [key]
    ensures TouchesOnlyOwn(w.history, old(w.history), w.bucket, old(w.databases), name)
    ensures OnlyOwn(w.databases, old(w.databases), name)
    ensures Conserved(w, old(w.databases), old(w.creates), old(w.drops), old(w.gone), name, exitCode)
    ensures LeftBehindExactly(w, old(w.databases), old(w.made), old(w.gone), exitCode)
    ensures w.creates != old(w.creates) ==> Disposable(name, forbidden)
    ensures PlaintextGone(w.disk, w.writes, w.stuck, w.faults, old(w.disk), old(w.writes), old(w.faults),
                          workDir, exitCode)
    ensures AllZero(w.keyMemory) || w.keyMemory == old(w.keyMemory)
    ensures exitCode == 0 || exitCode == 1
    ensures exitCode == 0 ==> Succeeded(w, key, plaintext, |old(w.history)|, name)
    ensures SameExcept(w.locks, old(w.locks), {lock.path}) && w.releases == old(w.releases) + [lock.path]
    ensures lock.path in w.locks ==> lock.path in w.stuck && old(w.faults) < w.faults
  {
    hide GoodBackup, OnlyOwn, EverRestored, TouchesOnlyOwn, Succeeded, Drawable, Conserved, LeftBehindExactly;
    hide Disposable;
    hide Clashed, SameExcept, AllZero, PlaintextGone;
    exitCode, name, plaintext := VerifyAndCleanUp(w, key, workDir, forbidden);
    ghost var stuck, faults := w.stuck, w.faults;
    w.Release(lock);
    PlaintextStaysGone(w, stuck, faults, old(w.disk), old(w.writes), old(w.faults), old(w.faults), workDir, exitCode);
  }

  /**
    runRestoreVerification.  Whatever fails: the lock is released exactly once, only the
    run's own database is touched, and anything left behind makes the run fail.
   */
  method RunRestoreVerification(
    w: World, key: string, workDir: string, maintenanceDb: string, forbidden: seq<string>)
    returns (exitCode: int, ghost name: string, ghost plaintext: Bytes)
    modifies w`disk, w`keyMemory, w`databases, w`history, w`writes, w`downloads
    modifies w`names, w`creates, w`made, w`clashes, w`drops, w`gone, w`stuck, w`faults, w`locks, w`taken, w`releases
    // with the lock available, no call failing and a fresh name, every good backup passes
    ensures old(w.faults) <= w.faults && old(w.stuck) <= w.stuck
    ensures (w.faults == old(w.faults) && w.clashes == old(w.clashes)
             && old(w.Available(Path(workDir, RESTORE_LOCK))) && IsSafeMaintenanceName(maintenanceDb, forbidden)
             && Drawable(w.names, old(w.names), forbidden) && GoodBackup(w, key)) ==> exitCode == 0
    ensures Clashed(w.clashes, old(w.clashes), name, old(w.databases))
    ensures w.names == old(w.names) || w.names == old(w.names) + [name]
    // a forbidden maintenance database is refused before the lock
    ensures ForbiddenMaintenance(maintenanceDb, forbidden) ==> w.taken == old(w.taken)
    // the lock
    ensures SameExcept(w.locks, old(w.locks), {Path(workDir, RESTORE_LOCK)})
    ensures TakenAndReleased(w, Path(workDir, RESTORE_LOCK), old(w.taken), old(w.releases), old(w.faults))
    ensures w.taken == old(w.taken) ==>
              && w.downloads == old(w.downloads) && w.names == old(w.names) && w.creates == old(w.creates)
              && w.drops == old(w.drops) && w.made == old(w.made) && w.gone == old(w.gone)
              && w.databases == old(w.databases) && exitCode == 1
    ensures w.taken != old(w.taken) ==> w.downloads == old(w.downloads) + [key]
    // the catalogue, at every step and at the end
    ensures TouchesOnlyOwn(w.history, old(w.history), w.bucket, old(w.databases), name)
    ensures OnlyOwn(w.databases, old(w.databases), name)
    ensures Conserved(w, old(w.databases), old(w.creates), old(w.drops), old(w.gone), name, exitCode)
    ensures LeftBehindExactly(w, old(w.databases), old(w.made), old(w.gone), exitCode)
    ensures w.creates != old(w.creates) ==> Disposable(name, forbidden)
    // the plaintext and the key
    ensures PlaintextGone(w.disk, w.writes, w.stuck, w.faults, old(w.disk), old(w.writes), old(w.faults),
                          workDir, exitCode)
    ensures AllZero(w.keyMemory) || w.keyMemory == old(w.keyMemory)
    // success
    ensures exitCode == 0 || exitCode == 1
    ensures exitCode == 0 ==> w.taken != old(w.taken) && Succeeded(w, key, plaintext, |old(w.history)|, name)
  {
    hide GoodBackup, OnlyOwn, EverRestored, TouchesOnlyOwn, Succeeded, IsSafeMaintenanceName, Drawable;
    hide Disposable, ForbiddenMaintenance;
    MaintenanceRefusedExactly(maintenanceDb, forbidden);
    hide Conserved, LeftBehindExactly, Clashed, SameExcept, Forbids, AllZero, PlaintextGone;
    name, plaintext := "", [];
    NothingDone(w);
    var lock := w.PrepareAndLock(Path(workDir, RESTORE_LOCK), IsSafeMaintenanceName(maintenanceDb, forbidden));
    if lock == null {
      return 1, name, plaintext;
    }
    ghost var locked, since := w.locks, w.faults;
    exitCode, name, plaintext := HeldVerification(w, lock, key, workDir, forbidden);
    PlaintextStaysGone(w, w.stuck, w.faults, old(w.disk), old(w.writes), since, old(w.faults), workDir, exitCode);
    SameExceptInTurn(w.locks, locked, old(w.locks), {Path(workDir, RESTORE_LOCK)});
  }

  lemma NothingDone(w: World)
    ensures OnlyOwn(w.databases, w.databases, "") && SameExcept(w.locks, w.locks, {})
    ensures forall lock :: SameExcept(w.locks, w.locks, {lock})
    ensures TouchesOnlyOwn(w.history, w.history, w.bucket, w.databases, "")
    ensures Conserved(w, w.databases, w.creates, w.drops, w.gone, "", 1)
    ensures LeftBehindExactly(w, w.databases, w.made, w.gone, 1)
    ensures forall faults, workDir ::
              PlaintextGone(w.disk, w.writes, w.stuck, faults, w.disk, w.writes, w.faults, workDir, 1)
    ensures Clashed(w.clashes, w.clashes, "", w.databases)
  {
  }

  lemma KeepsCatalogue(
    was: seq<Snapshot>, mid: seq<Snapshot>, now: seq<Snapshot>, bucket: map<string, Bytes>,
    databases: map<string, Database>, name: string)
    requires TouchesOnlyOwn(mid, was, bucket, databases, name)
    requires now == mid
             || (|now| == |mid| + 1 && now[..|mid|] == mid
                 && now[|mid|].bucket == bucket && OnlyOwn(now[|mid|].databases, databases, name))
    ensures TouchesOnlyOwn(now, was, bucket, databases, name)
  {
    if now != mid {
      assert now[..|was|] == now[..|mid|][..|was|];
      assert forall i :: 0 <= i < |mid| ==> now[i] == now[..|mid|][i];
    }
  }

  lemma TouchesOnlyOwnOn(
    was: seq<Snapshot>, mid: seq<Snapshot>, now: seq<Snapshot>, bucket: map<string, Bytes>,
    databases: map<string, Database>, name: string)
    requires TouchesOnlyOwn(mid, was, bucket, databases, name) && TouchesOnlyOwn(now, mid, bucket, databases, name)
    ensures TouchesOnlyOwn(now, was, bucket, databases, name)
  {
    assert now[..|was|] == now[..|mid|][..|was|];
    assert forall i :: 0 <= i < |mid| ==> now[i] == now[..|mid|][i];
  }
}
