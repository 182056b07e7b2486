/**
  The names the backup scripts give things: S3 prefixes and object keys, dump file names,
  and the patterns other scripts recognise them by.
 */
module BackupKeys {
  import opened Wrappers
  import opened Calendar
  import opened Text

  // ---- UTC time stamps ----

  /** The digits of toISOString, for years 0 to 9999, of a whole second since 1970. */
  datatype Stamp = Stamp(year: nat, month: nat, day: nat, hour: nat, minute: nat, second: nat)

  predicate InFourDigitYears(second: int) {
    DAY * DayFromYear(0) <= second < DAY * DayFromYear(10000)
  }

  function StampOf(second: int): (s: Stamp)
    requires InFourDigitYears(second)
    ensures s.year <= 9999 && s.month <= 12 && s.day <= 31 && s.hour < 24 && s.minute < 60 && s.second < 60
  {
    StampRanges(second);
    var date := CivilOf(second / DAY);
    var time := second % DAY;
    Stamp(date.year, date.month, date.day, time / 3600, time % 3600 / 60, time % 60)
  }

  lemma StampRanges(second: int)
    requires InFourDigitYears(second)
    ensures 0 <= CivilOf(second / DAY).year <= 9999
    ensures 1 <= CivilOf(second / DAY).month <= 12 && 1 <= CivilOf(second / DAY).day <= 31
  {
    hide DayFromYear, CivilOf;
    var d := second / DAY;
    CivilOfDay(d);
    var y := YearOfDay(d);
    if y < 0 {
      YearsIncrease(y + 1, 0);
    } else if y > 9999 {
      YearsIncrease(10000, y);
    }
    hide Leap;
    MonthsAreShort(Leap(y), CivilOf(d).month);
  }

  lemma MonthsAreShort(leap: bool, month: int)
    requires 1 <= month <= 12
    ensures DaysBefore(leap, month) - DaysBefore(leap, month - 1) <= 31
  {
  }

  /** YYYYMMDD-HHMMSSZ. */
  function CompactStamp(s: Stamp): string {
    Pad(s.year, 4) + Pad(s.month, 2) + Pad(s.day, 2) + "-"
    + Pad(s.hour, 2) + Pad(s.minute, 2) + Pad(s.second, 2) + "Z"
  }

  function BuildS3ObjectKey(dbName: string, prefix: string, second: int): string
    requires InFourDigitYears(second)
  {
    prefix + "/" + dbName + "-" + CompactStamp(StampOf(second)) + ".dump.enc"
  }

  // ---- recognising keys ----

  const KEY_HEAD := "tms_dev-"
  const KEY_TAIL := ".dump.enc"

  /** tms_dev-, eight digits, a dash, six digits, Z.dump.enc. */
  predicate IsNewPipelineFilename(f: string) {
    && |f| == 33
    && f[..8] == KEY_HEAD && AllDigits(f[8..16]) && f[16] == '-' && AllDigits(f[17..23]) && f[23] == 'Z'
    && f[24..] == KEY_TAIL
  }

  predicate IsNewPipelineObjectKey(key: string, prefix: string) {
    && prefix + "/" <= key
    && var filename := key[|prefix| + 1..];
       filename != "" && Free(filename, '/') && IsNewPipelineFilename(filename)
  }

  lemma CompactShape(s: Stamp)
    requires s.year <= 9999 && s.month <= 12 && s.day <= 31 && s.hour < 24 && s.minute < 60 && s.second < 60
    ensures var c := CompactStamp(s);
            |c| == 16 && AllDigits(c[..8]) && c[8] == '-' && AllDigits(c[9..15]) && c[15] == 'Z' && Free(c, '/')
  {
    hide Pad;
  }

  /** Every key the uploader builds for tms_dev is one the monitor recognises, under any prefix. */
  lemma BuiltKeyIsRecognised(prefix: string, second: int)
    requires InFourDigitYears(second)
    ensures IsNewPipelineObjectKey(BuildS3ObjectKey("tms_dev", prefix, second), prefix)
  {
    hide StampOf, CompactStamp, InFourDigitYears;
    CompactShape(StampOf(second));
    var c := CompactStamp(StampOf(second));
    var key := BuildS3ObjectKey("tms_dev", prefix, second);
    var filename := KEY_HEAD + c + KEY_TAIL;
    assert "tms_dev" + "-" == KEY_HEAD;
    assert key == prefix + "/" + filename;
    assert key[|prefix| + 1..] == filename;
    FilenameOfStamp(c);
  }

  lemma FilenameOfStamp(c: string)
    requires |c| == 16 && AllDigits(c[..8]) && c[8] == '-' && AllDigits(c[9..15]) && c[15] == 'Z' && Free(c, '/')
    ensures IsNewPipelineFilename(KEY_HEAD + c + KEY_TAIL) && Free(KEY_HEAD + c + KEY_TAIL, '/')
  {
    var f := KEY_HEAD + c + KEY_TAIL;
    assert f[8..16] == c[..8] && f[17..23] == c[9..15];
  }

  /** The text of a key: eight digits and six around one dash, under the prefix. */
  predicate IsKeyOf(key: string, prefix: string, date: string, time: string) {
    && |date| == 8 && AllDigits(date) && |time| == 6 && AllDigits(time)
    && key == prefix + "/" + (KEY_HEAD + (date + "-" + time + "Z") + KEY_TAIL)
  }

  /** The keys counted as backups, exactly. */
  lemma RecognisedKeysExactly(key: string, prefix: string)
    ensures IsNewPipelineObjectKey(key, prefix) <==> exists date, time :: IsKeyOf(key, prefix, date, time)
  {
    hide IsNewPipelineFilename;
    if IsNewPipelineObjectKey(key, prefix) {
      var date, time := FilenameParts(key[|prefix| + 1..]);
      assert key == prefix + "/" + key[|prefix| + 1..];
      assert IsKeyOf(key, prefix, date, time);
    }
    if date, time :| IsKeyOf(key, prefix, date, time) {
      var c := date + "-" + time + "Z";
      assert key[|prefix| + 1..] == KEY_HEAD + c + KEY_TAIL;
      DigitsHaveNoSlash(date, time);
      FilenameOfStamp(c);
    }
  }

  lemma FilenameParts(f: string) returns (date: string, time: string)
    requires IsNewPipelineFilename(f)
    ensures |date| == 8 && AllDigits(date) && |time| == 6 && AllDigits(time)
    ensures f == KEY_HEAD + (date + "-" + time + "Z") + KEY_TAIL
  {
    date, time := f[8..16], f[17..23];
    assert f[8..24] == date + "-" + time + "Z";
    assert f == f[..8] + f[8..24] + f[24..];
  }

  lemma DigitsHaveNoSlash(date: string, time: string)
    requires |date| == 8 && AllDigits(date) && |time| == 6 && AllDigits(time)
    ensures var c := date + "-" + time + "Z";
            |c| == 16 && c[..8] == date && c[8] == '-' && c[9..15] == time && c[15] == 'Z' && Free(c, '/')
  {
  }

  /** A key in a subfolder of the prefix is never one of its backups. */
  lemma NestedKeyIsIgnored(prefix: string, folder: string, file: string)
    ensures !IsNewPipelineObjectKey(prefix + "/" + folder + "/" + file, prefix)
  {
    var rest := folder + "/" + file;
    assert prefix + "/" + folder + "/" + file == prefix + "/" + rest;
    assert (prefix + "/" + rest)[|prefix| + 1..] == rest;
    assert rest[|folder|] == '/';
  }

  // ---- key order is time order ----

  predicate StampBefore(a: Stamp, b: Stamp) {
    BeforeInTime(Civil(a.year, a.month, a.day), a.hour, a.minute, a.second,
                 Civil(b.year, b.month, b.day), b.hour, b.minute, b.second)
  }

  lemma StampsInOrder(s: int, t: int)
    requires InFourDigitYears(s) && InFourDigitYears(t) && s < t
    ensures StampBefore(StampOf(s), StampOf(t))
  {
    hide InFourDigitYears, CivilOf, Before, Valid, DayOf;
    CivilOfDay(s / DAY);
    CivilOfDay(t / DAY);
    OrderOfDays(CivilOf(s / DAY), CivilOf(t / DAY));
    TimesInOrder(s % DAY, t % DAY);
  }

  lemma TimesInOrder(a: int, b: int)
    requires 0 <= a < DAY && 0 <= b < DAY
    ensures a < b ==> a / 3600 < b / 3600
                      || (a / 3600 == b / 3600 && (a % 3600 / 60 < b % 3600 / 60
                          || (a % 3600 / 60 == b % 3600 / 60 && a % 60 < b % 60)))
  {
    Minutes(a);
    Minutes(b);
  }

  lemma Minutes(a: int)
    requires 0 <= a
    ensures a == 3600 * (a / 3600) + 60 * (a % 3600 / 60) + a % 60
    ensures 0 <= a % 3600 / 60 < 60 && 0 <= a % 60 < 60
  {
    var r := a % 3600;
    assert a == 60 * (60 * (a / 3600)) + r;
    assert a % 60 == r % 60;
  }

  /** Comparing field by field is comparing the joined text. */
  lemma FieldFirst(m: nat, n: nat, width: nat, x: string, y: string)
    requires m < Pow10(width) && n < Pow10(width)
    requires m < n || (m == n && LexLess(x, y))
    ensures LexLess(Pad(m, width) + x, Pad(n, width) + y)
  {
    if m < n {
      PadKeepsOrder(m, n, width);
      LexLessBeforeSuffix(Pad(m, width), Pad(n, width), x, y);
    } else {
      LexLessAfterPrefix(Pad(m, width), x, y);
    }
  }

  lemma StampsReadInOrder(a: Stamp, b: Stamp)
    requires a.year <= 9999 && a.month <= 12 && a.day <= 31 && a.hour < 24 && a.minute < 60 && a.second < 60
    requires b.year <= 9999 && b.month <= 12 && b.day <= 31 && b.hour < 24 && b.minute < 60 && b.second < 60
    requires StampBefore(a, b)
    ensures LexLess(CompactStamp(a), CompactStamp(b))
  {
    hide Pad, LexLess;
    assert Pow10(2) == 100 && Pow10(3) == 1000 && Pow10(4) == 10000;
    var s1, s2 := Pad(a.second, 2) + "Z", Pad(b.second, 2) + "Z";
    var m1, m2 := Pad(a.minute, 2) + s1, Pad(b.minute, 2) + s2;
    var h1, h2 := Pad(a.hour, 2) + m1, Pad(b.hour, 2) + m2;
    var d1, d2 := Pad(a.day, 2) + ("-" + h1), Pad(b.day, 2) + ("-" + h2);
    var o1, o2 := Pad(a.month, 2) + d1, Pad(b.month, 2) + d2;
    if a.second < b.second { FieldFirst(a.second, b.second, 2, "Z", "Z"); }
    if a.minute < b.minute || (a.minute == b.minute && a.second < b.second) {
      FieldFirst(a.minute, b.minute, 2, s1, s2);
    }
    if a.hour < b.hour || (a.hour == b.hour && LexLess(m1, m2)) {
      FieldFirst(a.hour, b.hour, 2, m1, m2);
    }
    LexLessAfterPrefix("-", h1, h2);
    if a.day < b.day || (a.day == b.day && LexLess(h1, h2)) {
      FieldFirst(a.day, b.day, 2, "-" + h1, "-" + h2);
    }
    if a.month < b.month || (a.month == b.month && LexLess(d1, d2)) {
      FieldFirst(a.month, b.month, 2, d1, d2);
    }
    FieldFirst(a.year, b.year, 4, o1, o2);
    assert CompactStamp(a) == Pad(a.year, 4) + o1;
    assert CompactStamp(b) == Pad(b.year, 4) + o2;
  }

  lemma {:induction false} LexLessIsStrict(a: string, b: string)
    ensures !(LexLess(a, b) && LexLess(b, a))
    decreases |a|
  {
    if a != [] && b != [] {
      LexLessIsStrict(a[1..], b[1..]);
    }
  }

  lemma EarlierKeyIsLess(dbName: string, prefix: string, s: int, t: int)
    requires InFourDigitYears(s) && InFourDigitYears(t) && s < t
    ensures LexLess(BuildS3ObjectKey(dbName, prefix, s), BuildS3ObjectKey(dbName, prefix, t))
  {
    hide StampOf, CompactStamp, StampBefore, LexLess, InFourDigitYears;
    var head := prefix + "/" + dbName + "-";
    var x, y := CompactStamp(StampOf(s)), CompactStamp(StampOf(t));
    StampsInOrder(s, t);
    StampsReadInOrder(StampOf(s), StampOf(t));
    CompactShape(StampOf(s));
    CompactShape(StampOf(t));
    LexLessBeforeSuffix(x, y, KEY_TAIL, KEY_TAIL);
    LexLessAfterPrefix(head, x + KEY_TAIL, y + KEY_TAIL);
    assert BuildS3ObjectKey(dbName, prefix, s) == head + (x + KEY_TAIL);
    assert BuildS3ObjectKey(dbName, prefix, t) == head + (y + KEY_TAIL);
  }

  /** Keys of one database and prefix sort by time, and only equal seconds share a key. */
  lemma KeyOrderIsTimeOrder(dbName: string, prefix: string, s: int, t: int)
    requires InFourDigitYears(s) && InFourDigitYears(t)
    ensures LexLess(BuildS3ObjectKey(dbName, prefix, s), BuildS3ObjectKey(dbName, prefix, t)) <==> s < t
    ensures BuildS3ObjectKey(dbName, prefix, s) == BuildS3ObjectKey(dbName, prefix, t) <==> s == t
  {
    hide BuildS3ObjectKey, LexLess, InFourDigitYears;
    var k, l := BuildS3ObjectKey(dbName, prefix, s), BuildS3ObjectKey(dbName, prefix, t);
    LexLessIsStrict(k, l);
    if s < t {
      EarlierKeyIsLess(dbName, prefix, s, t);
    } else if t < s {
      EarlierKeyIsLess(dbName, prefix, t, s);
    }
  }

  /** A stamp's fields are the UTC date and time of its second. */
  lemma StampIsUtc(second: int)
    requires InFourDigitYears(second)
    ensures var s := StampOf(second);
            && Valid(Civil(s.year, s.month, s.day)) && s.hour < 24 && s.minute < 60 && s.second < 60
            && DAY * DayOf(Civil(s.year, s.month, s.day)) + 3600 * s.hour + 60 * s.minute + s.second == second
  {
    hide CivilOf, Valid, DayOf, InFourDigitYears;
    CivilOfDay(second / DAY);
    Minutes(second % DAY);
  }

  // ---- BACKUP_S3_PREFIX ----

  predicate IsPrefixChar(c: char) {
    'A' <= c <= 'Z' || 'a' <= c <= 'z' || '0' <= c <= '9' || c == '_' || c == '-'
  }

  predicate IsSegment(s: string) {
    s != "" && forall i :: 0 <= i < |s| ==> IsPrefixChar(s[i])
  }

  function StripLeft(s: string): string {
    if s == "" || s[0] != '/' then s else StripLeft(s[1..])
  }

  function StripRight(s: string): string {
    if s == "" || s[|s| - 1] != '/' then s else StripRight(s[..|s| - 1])
  }

  datatype PrefixError = EmptyPrefix | InvalidSegment

  function NormalizeS3Prefix(raw: Option<string>): Result<string, PrefixError> {
    match raw
    case None => Ok("daily")
    case Some(text) =>
      var stripped := StripRight(StripLeft(Trim(text)));
      if stripped == "" then Err(EmptyPrefix)
      else
        var segments := Split(stripped, '/');
        if forall i :: 0 <= i < |segments| ==> IsSegment(segments[i]) then Ok(Join(segments, "/"))
        else Err(InvalidSegment)
  }

  /** A usable key prefix: one or more slash-separated plain segments. */
  predicate IsNormalized(prefix: string) {
    forall i :: 0 <= i < |Split(prefix, '/')| ==> IsSegment(Split(prefix, '/')[i])
  }

  lemma {:induction false} NormalizedEnds(prefix: string)
    requires IsNormalized(prefix)
    ensures prefix != "" && IsPrefixChar(prefix[0]) && IsPrefixChar(prefix[|prefix| - 1])
    ensures forall i :: 0 <= i < |prefix| ==> IsPrefixChar(prefix[i]) || prefix[i] == '/'
    decreases |prefix|
  {
    hide IsPrefixChar;
    var parts := Split(prefix, '/');
    assert IsSegment(parts[0]);
    if prefix != "" {
      var rest := Split(prefix[1..], '/');
      if |prefix| > 1 {
        assert parts[0] == [prefix[0]] + rest[0] && parts[1..] == rest[1..];
        assert IsPrefixChar(parts[0][0]);
        if rest[0] != "" {
          TailIsNormalized(prefix);
          NormalizedEnds(prefix[1..]);
        } else {
          assert prefix[1] == '/';
          SlashThenNormalized(prefix);
          NormalizedEnds(prefix[2..]);
        }
      } else {
        assert parts[0][0] == prefix[0];
      }
    }
  }

  lemma TailIsNormalized(prefix: string)
    requires |prefix| > 1 && prefix[0] != '/' && IsNormalized(prefix) && Split(prefix[1..], '/')[0] != ""
    ensures IsNormalized(prefix[1..])
  {
    hide IsPrefixChar;
    var parts, rest := Split(prefix, '/'), Split(prefix[1..], '/');
    assert parts == [[prefix[0]] + rest[0]] + rest[1..];
    forall i | 0 <= i < |rest| ensures IsSegment(rest[i]) {
      assert IsSegment(parts[i]);
      if i == 0 {
        assert forall j :: 0 <= j < |rest[0]| ==> rest[0][j] == parts[0][j + 1];
      }
    }
  }

  lemma SlashThenNormalized(prefix: string)
    requires |prefix| > 1 && prefix[0] != '/' && prefix[1] == '/' && IsNormalized(prefix)
    ensures IsNormalized(prefix[2..])
  {
    hide IsPrefixChar;
    var parts, rest := Split(prefix, '/'), Split(prefix[2..], '/');
    SplitFirst([prefix[0]], '/', prefix[2..]);
    assert prefix == [prefix[0]] + ['/'] + prefix[2..];
    forall i | 0 <= i < |rest| ensures IsSegment(rest[i]) {
      assert IsSegment(parts[i + 1]);
    }
  }

  /** An accepted prefix is normalized, and normalizing it again changes nothing. */
  lemma NormalizingIsStable(raw: Option<string>)
    requires NormalizeS3Prefix(raw).Ok?
    ensures IsNormalized(NormalizeS3Prefix(raw).value)
    ensures NormalizeS3Prefix(Some(NormalizeS3Prefix(raw).value)) == NormalizeS3Prefix(raw)
  {
    hide IsSpace, IsPrefixChar;
    var p := NormalizeS3Prefix(raw).value;
    if raw.Some? {
      JoinOfSplit(StripRight(StripLeft(Trim(raw.value))), '/');
    } else {
      DailyIsNormalized();
    }
    NormalizedEnds(p);
    PrefixCharIsPlain(p[0]);
    PrefixCharIsPlain(p[|p| - 1]);
    TrimTrimmed(p);
    JoinOfSplit(p, '/');
  }

  predicate AllSlashes(s: string) {
    forall i :: 0 <= i < |s| ==> s[i] == '/'
  }

  lemma {:induction false} StripLeftShape(s: string) returns (a: string)
    ensures AllSlashes(a) && s == a + StripLeft(s)
    ensures StripLeft(s) == "" || StripLeft(s)[0] != '/'
    decreases |s|
  {
    if s == "" || s[0] != '/' {
      a := "";
    } else {
      a := StripLeftShape(s[1..]);
      a := "/" + a;
    }
  }

  lemma {:induction false} StripRightShape(s: string) returns (b: string)
    ensures AllSlashes(b) && s == StripRight(s) + b
    ensures StripRight(s) == "" || StripRight(s)[|StripRight(s)| - 1] != '/'
    ensures StripRight(s) != "" ==> StripRight(s)[0] == s[0]
    decreases |s|
  {
    if s == "" || s[|s| - 1] != '/' {
      b := "";
    } else {
      b := StripRightShape(s[..|s| - 1]);
      b := b + "/";
    }
  }

  lemma {:induction false} StripOf(a: string, p: string, b: string)
    requires AllSlashes(a) && AllSlashes(b) && p != "" && p[0] != '/' && p[|p| - 1] != '/'
    ensures StripRight(StripLeft(a + p + b)) == p
    decreases |a| + |b|
  {
    if a != "" {
      assert (a + p + b)[1..] == a[1..] + p + b;
      StripOf(a[1..], p, b);
    } else if b != "" {
      var n := |b| - 1;
      assert a + p + b == p + b && a + p + b[..n] == p + b[..n];
      assert (p + b)[..|p + b| - 1] == p + b[..n];
      StripOf(a, p, b[..n]);
    } else {
      assert a + p + b == p;
    }
  }

  /** Around a normalized prefix, exactly white space and slashes are dropped; nothing else is accepted. */
  lemma NormalizesExactly(text: string, p: string)
    ensures NormalizeS3Prefix(Some(text)) == Ok(p) <==>
              IsNormalized(p) && exists a, b :: AllSlashes(a) && AllSlashes(b) && Trim(text) == a + p + b
    ensures NormalizeS3Prefix(Some(text)) == Err(EmptyPrefix) <==> AllSlashes(Trim(text))
    ensures NormalizeS3Prefix(None) == Ok("daily")
  {
    hide Trim, IsPrefixChar, StripLeft, StripRight;
    var t := Trim(text);
    var a := StripLeftShape(t);
    var b := StripRightShape(StripLeft(t));
    var stripped := StripRight(StripLeft(t));
    assert t == a + stripped + b;
    JoinOfSplit(stripped, '/');
    if NormalizeS3Prefix(Some(text)) == Ok(p) {
      assert p == stripped && IsNormalized(p);
    }
    if IsNormalized(p) && exists a, b :: AllSlashes(a) && AllSlashes(b) && t == a + p + b {
      var a', b' :| AllSlashes(a') && AllSlashes(b') && t == a' + p + b';
      NormalizedEnds(p);
      PrefixCharIsPlain(p[0]);
      PrefixCharIsPlain(p[|p| - 1]);
      StripOf(a', p, b');
    }
    if AllSlashes(t) {
      SlashesStripAway(t);
    }
  }

  lemma {:induction false} SlashesStripAway(s: string)
    requires AllSlashes(s)
    ensures StripRight(StripLeft(s)) == ""
    decreases |s|
  {
    if s != "" {
      SlashesStripAway(s[1..]);
    }
  }

  lemma PrefixCharIsPlain(c: char)
    ensures IsPrefixChar(c) ==> !IsSpace(c) && c != '/'
  {
  }

  lemma DailyIsNormalized()
    ensures IsNormalized("daily")
  {
    SplitFirst("daily", '/', "");
  }

  // ---- plaintext dump files ----

  predicate IsLineBreak(c: char) {
    c == '\n' || c == '\r' || c == '\U{2028}' || c == '\U{2029}'
  }

  /** _YYYY-MM-DDTHH-mm-ss-SSSZ.dump: the fixed tail of a dump file name. */
  predicate IsDumpTail(t: string) {
    && |t| == 30 && t[0] == '_'
    && AllDigits(t[1..5]) && t[5] == '-' && AllDigits(t[6..8]) && t[8] == '-' && AllDigits(t[9..11]) && t[11] == 'T'
    && AllDigits(t[12..14]) && t[14] == '-' && AllDigits(t[15..17]) && t[17] == '-'
    && AllDigits(t[18..20]) && t[20] == '-'
    && AllDigits(t[21..24]) && t[24] == 'Z' && t[25..] == ".dump"
  }

  /** The pattern of names the stale sweep may delete. */
  predicate IsPlaintextDump(name: string) {
    && |name| > 30
    && (forall i :: 0 <= i < |name| - 30 ==> !IsLineBreak(name[i]))
    && IsDumpTail(name[|name| - 30..])
  }

  predicate IsField(field: string, width: nat) {
    |field| == width && AllDigits(field)
  }

  /** A dump name taken apart: anything on one line, then the stamp, field by field. */
  predicate IsDumpNameOf(
    name: string, head: string, year: string, month: string, day: string, hour: string, minute: string,
    second: string, millis: string)
  {
    && head != "" && (forall i :: 0 <= i < |head| ==> !IsLineBreak(head[i]))
    && IsField(year, 4) && IsField(month, 2) && IsField(day, 2) && IsField(hour, 2) && IsField(minute, 2)
    && IsField(second, 2) && IsField(millis, 3)
    && name == head + (("_" + year + "-" + month + "-" + day + "T")
                       + (hour + "-" + minute + "-" + second + "-") + (millis + "Z.dump"))
  }

  /** The names the sweep may delete, exactly. */
  lemma SweptNamesExactly(name: string)
    ensures IsPlaintextDump(name) <==>
              exists head, year, month, day, hour, minute, second, millis ::
                IsDumpNameOf(name, head, year, month, day, hour, minute, second, millis)
  {
    hide IsDumpTail, IsLineBreak;
    if IsPlaintextDump(name) {
      var head, t := name[..|name| - 30], name[|name| - 30..];
      var year, month, day, hour, minute, second, millis := TailParts(t);
      assert name == head + t;
      assert IsDumpNameOf(name, head, year, month, day, hour, minute, second, millis);
    }
    if head, year, month, day, hour, minute, second, millis :|
      IsDumpNameOf(name, head, year, month, day, hour, minute, second, millis)
    {
      PartsMakeTail(year, month, day, hour, minute, second, millis);
      var t := ("_" + year + "-" + month + "-" + day + "T")
               + (hour + "-" + minute + "-" + second + "-") + (millis + "Z.dump");
      assert name == head + t && name[|name| - 30..] == t;
      assert forall i :: 0 <= i < |head| ==> name[i] == head[i];
    }
  }

  lemma TailParts(t: string)
    returns (year: string, month: string, day: string, hour: string, minute: string, second: string, millis: string)
    requires IsDumpTail(t)
    ensures IsField(year, 4) && IsField(month, 2) && IsField(day, 2) && IsField(hour, 2) && IsField(minute, 2)
    ensures IsField(second, 2) && IsField(millis, 3)
    ensures t == ("_" + year + "-" + month + "-" + day + "T")
                 + (hour + "-" + minute + "-" + second + "-") + (millis + "Z.dump")
  {
    hide AllDigits;
    year, month, day := t[1..5], t[6..8], t[9..11];
    hour, minute, second, millis := t[12..14], t[15..17], t[18..20], t[21..24];
    assert t[..12] == "_" + year + "-" + month + "-" + day + "T";
    assert t[12..21] == hour + "-" + minute + "-" + second + "-";
    assert t[21..] == millis + [t[24]] + t[25..];
    assert [t[24]] + t[25..] == "Z.dump";
    assert t == t[..12] + t[12..21] + t[21..];
  }

  lemma PartsMakeTail(
    year: string, month: string, day: string, hour: string, minute: string, second: string, millis: string)
    requires IsField(year, 4) && IsField(month, 2) && IsField(day, 2) && IsField(hour, 2) && IsField(minute, 2)
    requires IsField(second, 2) && IsField(millis, 3)
    ensures var t := ("_" + year + "-" + month + "-" + day + "T")
                     + (hour + "-" + minute + "-" + second + "-") + (millis + "Z.dump");
            |t| == 30 && IsDumpTail(t)
  {
    hide AllDigits;
    var a := "_" + year + "-" + month + "-" + day + "T";
    var b := hour + "-" + minute + "-" + second + "-";
    var c := millis + "Z.dump";
    var t := a + b + c;
    assert |a| == 12 && |b| == 9 && |c| == 9;
    assert t[1..5] == year && t[6..8] == month && t[9..11] == day;
    assert t[12..14] == hour && t[15..17] == minute && t[18..20] == second;
    assert t[21..24] == millis && t[25..] == ".dump";
    assert t[0] == '_' && t[5] == '-' && t[8] == '-' && t[11] == 'T';
    assert t[14] == '-' && t[17] == '-' && t[20] == '-' && t[24] == 'Z';
  }

  /** The colons and the dot of toISOString become dashes. */
  function DumpTail(s: Stamp, millis: nat): string {
    ("_" + Pad(s.year, 4) + "-" + Pad(s.month, 2) + "-" + Pad(s.day, 2) + "T")
    + (Pad(s.hour, 2) + "-" + Pad(s.minute, 2) + "-" + Pad(s.second, 2) + "-") + (Pad(millis, 3) + "Z.dump")
  }

  function DumpFileName(dbName: string, s: Stamp, millis: nat): string {
    dbName + DumpTail(s, millis)
  }

  /** The sweep recognises a dump left behind exactly when its database name is one plain line. */
  lemma DumpNameIsRecognised(dbName: string, s: Stamp, millis: nat)
    ensures IsPlaintextDump(DumpFileName(dbName, s, millis))
            <==> dbName != "" && forall i :: 0 <= i < |dbName| ==> !IsLineBreak(dbName[i])
  {
    hide IsLineBreak, IsDumpTail;
    DumpTailShape(s, millis);
    var name := DumpFileName(dbName, s, millis);
    assert name[|name| - 30..] == DumpTail(s, millis);
    assert forall i :: 0 <= i < |dbName| ==> name[i] == dbName[i];
  }

  /** Dump names of one database sort by time, and only equal milliseconds share a name. */
  lemma DumpNamesInOrder(dbName: string, s: int, m: nat, t: int, n: nat)
    requires InFourDigitYears(s) && InFourDigitYears(t) && m < 1000 && n < 1000
    ensures LexLess(DumpFileName(dbName, StampOf(s), m), DumpFileName(dbName, StampOf(t), n))
            <==> s < t || (s == t && m < n)
    ensures DumpFileName(dbName, StampOf(s), m) == DumpFileName(dbName, StampOf(t), n) <==> s == t && m == n
  {
    hide StampOf, DumpFileName, LexLess, InFourDigitYears;
    LexLessIsStrict(DumpFileName(dbName, StampOf(s), m), DumpFileName(dbName, StampOf(t), n));
    if s < t || (s == t && m < n) {
      EarlierDumpIsLess(dbName, s, m, t, n);
    } else if t < s || n < m {
      EarlierDumpIsLess(dbName, t, n, s, m);
    }
  }

  lemma EarlierDumpIsLess(dbName: string, s: int, m: nat, t: int, n: nat)
    requires InFourDigitYears(s) && InFourDigitYears(t) && m < 1000 && n < 1000
    requires s < t || (s == t && m < n)
    ensures LexLess(DumpFileName(dbName, StampOf(s), m), DumpFileName(dbName, StampOf(t), n))
  {
    hide StampOf, StampBefore, LexLess, InFourDigitYears, DumpTail;
    if s < t {
      StampsInOrder(s, t);
    }
    DumpTailsInOrder(StampOf(s), m, StampOf(t), n);
    LexLessAfterPrefix(dbName, DumpTail(StampOf(s), m), DumpTail(StampOf(t), n));
  }

  lemma DumpTailsInOrder(a: Stamp, m: nat, b: Stamp, n: nat)
    requires a.year <= 9999 && a.month <= 12 && a.day <= 31 && a.hour < 24 && a.minute < 60 && a.second < 60
    requires b.year <= 9999 && b.month <= 12 && b.day <= 31 && b.hour < 24 && b.minute < 60 && b.second < 60
    requires m < 1000 && n < 1000 && (StampBefore(a, b) || (a == b && m < n))
    ensures LexLess(DumpTail(a, m), DumpTail(b, n))
  {
    hide Pad, LexLess;
    assert Pow10(2) == 100 && Pow10(3) == 1000 && Pow10(4) == 10000;
    var i1, i2 := Pad(m, 3) + "Z.dump", Pad(n, 3) + "Z.dump";
    var s1, s2 := Pad(a.second, 2) + ("-" + i1), Pad(b.second, 2) + ("-" + i2);
    var m1, m2 := Pad(a.minute, 2) + ("-" + s1), Pad(b.minute, 2) + ("-" + s2);
    var h1, h2 := Pad(a.hour, 2) + ("-" + m1), Pad(b.hour, 2) + ("-" + m2);
    var d1, d2 := Pad(a.day, 2) + ("T" + h1), Pad(b.day, 2) + ("T" + h2);
    var o1, o2 := Pad(a.month, 2) + ("-" + d1), Pad(b.month, 2) + ("-" + d2);
    var y1, y2 := Pad(a.year, 4) + ("-" + o1), Pad(b.year, 4) + ("-" + o2);
    if a == b {
      FieldFirst(m, n, 3, "Z.dump", "Z.dump");
    }
    NextField(a.second, b.second, 2, "-", i1, i2);
    NextField(a.minute, b.minute, 2, "-", s1, s2);
    NextField(a.hour, b.hour, 2, "-", m1, m2);
    NextField(a.day, b.day, 2, "T", h1, h2);
    NextField(a.month, b.month, 2, "-", d1, d2);
    NextField(a.year, b.year, 4, "-", o1, o2);
    LexLessAfterPrefix("_", y1, y2);
    TailInFields(a, m);
    TailInFields(b, n);
  }

  lemma NextField(m: nat, n: nat, width: nat, mark: string, x: string, y: string)
    requires m < Pow10(width) && n < Pow10(width)
    ensures m < n || (m == n && LexLess(x, y)) ==> LexLess(Pad(m, width) + (mark + x), Pad(n, width) + (mark + y))
  {
    hide LexLess, Pad;
    LexLessAfterPrefix(mark, x, y);
    if m < n || (m == n && LexLess(x, y)) {
      FieldFirst(m, n, width, mark + x, mark + y);
    }
  }

  lemma TailInFields(s: Stamp, millis: nat)
    ensures DumpTail(s, millis) ==
            "_" + (Pad(s.year, 4) + ("-" + (Pad(s.month, 2) + ("-" + (Pad(s.day, 2) + ("T" + (Pad(s.hour, 2)
            + ("-" + (Pad(s.minute, 2) + ("-" + (Pad(s.second, 2) + ("-" + (Pad(millis, 3) + "Z.dump")))))))))))))
  {
    hide Pad;
  }

  lemma DumpTailShape(s: Stamp, millis: nat)
    ensures |DumpTail(s, millis)| == 30 && IsDumpTail(DumpTail(s, millis))
  {
    hide Pad, IsDumpTail;
    PartsMakeTail(Pad(s.year, 4), Pad(s.month, 2), Pad(s.day, 2), Pad(s.hour, 2), Pad(s.minute, 2),
                  Pad(s.second, 2), Pad(millis, 3));
  }

  /** The encrypted copy beside a dump is never swept: its name ends in .enc. */
  lemma EncryptedNameIsNotSwept(name: string)
    ensures !IsPlaintextDump(name + ".enc")
  {
    var n := name + ".enc";
    if |n| > 30 {
      assert n[|n| - 30..][25..] == n[|n| - 5..];
      assert n[|n| - 5..][4] == 'c' && ".dump"[4] == 'p';
    }
  }
}
