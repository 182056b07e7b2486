# Freight-brokerage back end: verified models of its subtle code

The system is a transport-management application.  This project models the parts of it
whose correctness depends on more than reading one function, and proves what they promise:

- **Wall-clock parsing** (`Calendar`, `BusinessTimezone`, `WallClockMeaning`,
  `WallClockOrder`, `WallClockStrings`, `EasternZone`).  Digits typed by a dispatcher are
  read as an instant by probing a zone's offset at both ends of a UTC day.  `Date.UTC` is
  real Gregorian arithmetic (section 21.4 of ECMA-262); a zone is a function from seconds
  to whole-minute offsets.  The meaning of a result is proved for every zone, and in closed
  form for the US Eastern rule (section 110 of the Energy Policy Act of 2005).
- **Backup, verification and alerting** (`BackupLock`, `BackupWorld`, `BackupKeys`,
  `Envelope`, `BackupDatabase`, `RestoreVerify`, `ProductionBackup`, `Freshness`).  The
  disk, bucket, catalogue and lock files are fields of one `World`; each external call may
  fail, and uploads, `CREATE`, `DROP` and restores may take effect although they report
  failure.  A ghost history records every intermediate world, a ghost counter every fault,
  and ghost logs what each call reported, so contracts speak of each step of a run, of the
  calls it made, and of what happens when nothing goes wrong.
  The advisory lock is a protocol of any number of processes that interleave and die.
- **Entitlement limits** (`Entitlement`).  Transactions interleave statement by statement
  against an organization row, its lock, and the counted rows.
- **Parsers and what they feed** (`GeocodeSeed`, `RlsSplitter`, `EscapeHtml`,
  `RelativeTime`, with string laws in `Text`).

Findings, each stated by a member named in the table:

- Two probes do not find every offset of a zone that changes at most once a day: east of
  Greenwich a change can precede both probes.  The condition under which they do, for all
  zones and digits, is proved, and the Eastern rule meets it.
- `Date.UTC` reads years 0 to 99 as 1900 to 1999, so no digits of those years are ever
  accepted, and a probe landing in the local year 99 reports a wrong offset.
- Two processes reclaiming the same dead lock can both come to hold it, and so can a
  process that once fails to read a live holder's file.  Exclusion is lost exactly when a
  reclaiming process unlinks the file of a holder.
- A pending carrier cannot be activated at or above the limit although it already counts.
- A limit introduced while an addition that saw none is still open can be exceeded later
  even if it leaves room now: locked additions fill the room, and then the open one commits.
  Introducing limits is safe for every later schedule exactly when they cover the committed
  rows and no such addition, able to add a row still, is open.
- A mail that arrives although its call fails breaks the agreement of the mails received
  with the stored state, and nothing restores their alternation together with it.
- A database is left behind exactly when a `CREATE DATABASE` took effect and no
  `DROP DATABASE` did, whatever they reported; the run then fails.
- A lookup key joins city and state with `|`; a query whose key can be split in a second
  way, such as city `A|B` and state `C` against the row `"A","B|C",0,0`, finds a row that
  the linear scan would not.

## Model

| member | source | states |
|---|---|---|
| Calendar.CivilOfDay | backend/src/common/timezone/business-timezone.ts:54-77 | every day number is the day of the valid civil date computed for it: rendering a date inverts day arithmetic |
| Calendar.CivilRoundTrip | backend/src/common/timezone/business-timezone.ts:79-81 | every valid date survives the trip through its day number, so dates and days correspond one to one |
| Calendar.OrderOfDays | backend/src/common/timezone/business-timezone.ts:79-81 | calendar order of valid dates is the order of their day numbers, both ways |
| Calendar.DaysAreCounted | backend/src/common/timezone/business-timezone.ts:79-81 | 1 January 1970, a Thursday, is day 0, and each next date, by the Gregorian month lengths, is the next day |
| Calendar.MonthLengths | backend/src/common/timezone/business-timezone.ts:79-81 | the months have 31, 30, and in February 28 or, in leap years, 29 days |
| Calendar.MakeDayCarries | backend/src/common/timezone/business-timezone.ts:79-81 | months past December carry into the next year and days into the next month |
| BusinessTimezone.ParsedDigitRanges | backend/src/common/timezone/business-timezone.ts:28-51 | whatever the pattern accepts has a year up to 9999 and every other component up to 99; that all such digits are accepted is ReadOfFormat |
| BusinessTimezone.ParseBusinessWallClock | backend/src/common/timezone/business-timezone.ts:131-161 | the loop over candidate offsets returns the specified interpretation of the digits, or the error for a malformed or a non-existing time |
| BusinessTimezone.DigitsOfNaive | backend/src/common/timezone/business-timezone.ts:54-92 | real digits are exactly what their own clock reading renders to |
| BusinessTimezone.NaiveOfDigits | backend/src/common/timezone/business-timezone.ts:54-92 | everything rendered in the common era is a real date and time, and gives its clock reading back |
| WallClockMeaning.UnrealDigitsRejected | backend/src/common/timezone/business-timezone.ts:145-156 | month 13, 30 February, hour 24, second 60 and every year below 100 are rejected in every zone |
| WallClockMeaning.FittingCandidate | backend/src/common/timezone/business-timezone.ts:145-149 | a candidate that survives the round trip shows exactly the digits asked for, under the very offset it was computed with |
| WallClockMeaning.ProbeOffset | backend/src/common/timezone/business-timezone.ts:100-103 | a probe reports the zone's own offset, except that a local year 99 comes out as 1999 |
| WallClockMeaning.InterpretFindsLeastOffered | backend/src/common/timezone/business-timezone.ts:131-161 | the result is the earliest instant showing the digits under an offset one probe reports, and none exactly when there is no such instant |
| WallClockMeaning.CorrectExactlyWhenOffered | backend/src/common/timezone/business-timezone.ts:105-161 | the documented outcome (first instant showing the digits, or a throw when none exists) holds if and only if a probe reports the offset in force at that first instant |
| WallClockOrder.CoveredDayIsCorrect | backend/src/common/timezone/business-timezone.ts:105-161 | two probes suffice for every time of a day whose offsets in force all show at the day's two UTC probes |
| WallClockOrder.FirstInstantsInOrder | backend/src/common/timezone/business-timezone.ts:131-161 | where clocks change at most once in two days, later digits are first shown at a later instant |
| WallClockOrder.ParsingKeepsOrder | backend/src/common/timezone/business-timezone.ts:131-161 | parsing is strictly order-preserving over all existing wall-clock times, gaps and repeated hours included |
| WallClockOrder.ReparseRendered | backend/src/common/timezone/business-timezone.ts:54-161 | parsing a rendered whole second gives it back, or in the second pass of a repeated hour the instant exactly one fold earlier |
| WallClockStrings.NaiveHasNoOffset | backend/src/common/timezone/business-timezone.ts:28-33 | no string of wall-clock digits is ever taken for one with an explicit offset |
| WallClockStrings.ReadOfFormat | backend/src/common/timezone/business-timezone.ts:35-51 | writing digits and reading them is the identity, for digits the calendar lacks too |
| WallClockStrings.ReadsExactly | backend/src/common/timezone/business-timezone.ts:28-51 | a string reads as given digits exactly when, trimmed, it is their text with seconds, with seconds left out and meaning zero, or with any fraction after them |
| WallClockStrings.SayingIsInterpreted | backend/src/common/timezone/business-timezone.ts:173-181 | each of these texts, the minute form included, reaches the zone's interpretation of its digits |
| WallClockStrings.OtherTextIsRefused | backend/src/common/timezone/business-timezone.ts:35-40 | a string that is none of these texts and names no offset is refused |
| WallClockStrings.OffsetsExactly | backend/src/common/timezone/business-timezone.ts:31-33 | a string carries its own offset exactly when it ends in Z or in a sign, two digits, an optional colon and two digits; it then goes to the Date constructor |
| Text.SpacesAreListed | backend/src/common/timezone/business-timezone.ts:36 | the characters that trim drops are those of section 12.2 of ECMA-262, no others |
| WallClockStrings.WrittenDigitsAreInterpreted | backend/src/common/timezone/business-timezone.ts:173-181 | written digits always reach the zone's interpretation, whatever the Date constructor would make of them |
| WallClockStrings.ExistingDigitsRejected | backend/src/common/timezone/business-timezone.ts:110-113 | a zone changing once, from UTC+12 to UTC+13 at 02:00, shows 01:30 of that day and yet has it rejected |
| EasternZone.TransitionsAreTheSundays | backend/src/common/timezone/business-timezone.ts:5-17 | the clock changes fall on the second Sunday of March and the first Sunday of November |
| EasternZone.EasternIsCovered | backend/src/common/timezone/business-timezone.ts:110-113 | for Eastern time the offsets in force on any local day from the year 100 on all show at the two probes |
| EasternZone.EasternIsRight | backend/src/common/timezone/business-timezone.ts:131-161 | Eastern parsing gives the first instant showing the digits, or throws when there is none, for all real digits from the year 100 on |
| EasternZone.EasternReading | backend/src/common/timezone/business-timezone.ts:115-129 | closed form: the skipped March hour is rejected, daylight and repeated hours are read as UTC-4, all others as UTC-5 |
| EasternZone.EasternKeepsOrder | backend/src/common/timezone/business-timezone.ts:131-161 | any two existing Eastern wall-clock times in order are read as instants in that order |
| EasternZone.EasternRoundTrip | backend/src/common/timezone/business-timezone.ts:54-161 | parsing a rendered Eastern second gives it back, or one hour less in the hour after clocks fall back |
| BackupLock.MutualExclusionAlways | backend/scripts/backup-lock.ts:72-129 | in every state of every orderly interleaving of any number of processes with crashes, at most one live process holds the lock and the file names it |
| BackupLock.ExclusiveExactlyWhenNeverRobbed | backend/scripts/backup-lock.ts:72-129 | from any exclusive state, exclusion holds throughout a run if and only if no reclaiming process unlinks the file while some process holds the lock |
| BackupLock.StepKeepsInv | backend/scripts/backup-lock.ts:35-129 | every orderly step keeps: a holder's file is its own, nobody has judged a live holder stale, and an owner under judgement is the holder |
| BackupLock.ReleaseRemovesOwnFile | backend/scripts/backup-lock.ts:109-128 | after any run in which no holder is robbed, a release about to unlink finds its own content and deletes only that |
| BackupLock.ReleaseSparesOthers | backend/scripts/backup-lock.ts:117-123 | a release that finds another pid in the file leaves the file alone |
| BackupLock.LoneAcquireSucceeds | backend/scripts/backup-lock.ts:35-107 | facing a dead process's lock of its own host, every fault-free lone run of a process can go on until its fifth step, and then holds a lock file that names it |
| BackupLock.LoneRunDecides | backend/scripts/backup-lock.ts:35-129 | every fault-free lone run is decided by the file it finds: an absent or malformed file, or one of this host or no host whose owner is not alive, is taken and released without trace; any other is refused and kept; it is never stuck and ends within seven steps |
| BackupLock.FaultsCanHappen | backend/scripts/backup-lock.ts:35-129 | at any point a process can die, and every create, read, unlink and probe can fail, with the outcome the source gives it: a failed read counts as stale, a failed probe as not stale |
| BackupLock.ForeignLockIsKept | backend/scripts/backup-lock.ts:53-57 | no run of processes of other hosts that can read the file ever removes a host's lock or comes to hold it, whether its owner is alive or dead |
| BackupLock.ReclaimRaceBreaksExclusion | backend/scripts/backup-lock.ts:83-106 | without the scheduling proviso two reclaiming processes end up holding the lock together |
| BackupLock.UnreadableFileBreaksExclusion | backend/scripts/backup-lock.ts:35-41 | one failed read of a live holder's file lets a second process hold the lock too |
| BackupWorld.World.IsLockStale | backend/scripts/backup-lock.ts:35-65 | without a fault an absent or malformed file is stale, another host's is not, and one of this host or of no host is stale exactly when its pid is not alive; a file that cannot be read is judged stale |
| BackupWorld.World.AcquireBackupLock | backend/scripts/backup-lock.ts:72-107 | without a fault the lock is taken when the file is absent or malformed, refused and kept when another host owns it, and of this host or no host taken exactly when its pid is not alive; the file then names the caller |
| BackupWorld.World.Release | backend/scripts/backup-lock.ts:109-128 | a second release does nothing; the first deletes the file only if it bears the caller's pid, and without a fault it then does |
| BackupWorld.World.UploadObject | backend/scripts/backup-aws-clients.ts:81-102 | an existing key is never overwritten and the upload is then refused; a failed call may still have stored the object |
| BackupWorld.World.CleanupPartialOutput | backend/scripts/backup-database.ts:390-401 | afterwards the file is gone or is recorded as undeletable; nothing else changes |
| BackupKeys.BuiltKeyIsRecognised | backend/scripts/backup-freshness-check.ts:152-169 | every key the uploader builds for tms_dev is recognised by the freshness monitor, for every second and prefix |
| BackupKeys.RecognisedKeysExactly | backend/scripts/backup-freshness-check.ts:152-169 | the keys counted as backups are exactly the prefix, a slash and tms_dev- with eight digits, a dash and six digits; date-only keys of the earlier pipeline are thereby ignored |
| BackupKeys.NestedKeyIsIgnored | backend/scripts/backup-freshness-check.ts:159-169 | no key below a sub-folder of the prefix is counted |
| BackupKeys.KeyOrderIsTimeOrder | backend/scripts/backup-database.ts:323-328 | the text order of two keys is the order of their seconds, and keys coincide exactly when seconds do |
| BackupKeys.StampIsUtc | backend/scripts/backup-database.ts:323-328 | the stamp in a name has the UTC date and time fields of its second, no other zone's |
| BackupKeys.NormalizingIsStable | backend/scripts/backup-database.ts:208-231 | an accepted prefix consists of plain non-empty segments, and normalizing it again changes nothing |
| BackupKeys.NormalizedEnds | backend/scripts/backup-database.ts:192-231 | an accepted prefix is not empty, neither starts nor ends with a slash, and has no other characters than plain ones and slashes |
| BackupKeys.NormalizesExactly | backend/scripts/backup-database.ts:208-231 | a prefix is accepted exactly when, after white space and outer slashes are dropped, plain segments remain, and these are the result; nothing but slashes is the empty-prefix error; an absent one is daily |
| BackupKeys.DumpNameIsRecognised | backend/scripts/backup-database.ts:307-311 | a dump file left behind would be found by the sweep of stale plaintext exactly when its database name is non-empty and has no line break |
| BackupKeys.DumpNamesInOrder | backend/scripts/backup-database.ts:307-311 | dump names of a database sort by time to the millisecond, and coincide only for the same one |
| BackupKeys.EncryptedNameIsNotSwept | backend/scripts/backup-database.ts:181 | no name ending in .enc is ever taken for a plaintext dump |
| BackupKeys.SweptNamesExactly | backend/scripts/backup-database.ts:181 | the sweep may delete exactly the one-line names that end in an underscore, a date and time with milliseconds, Z and .dump |
| Envelope.BigEndianInverse | backend/scripts/backup-envelope.ts:96-102 | the four length bytes read back as the length, for every 32-bit value |
| Envelope.MagicSpellsTmsk | backend/scripts/backup-envelope.ts:24-27 | the four magic bytes spell TMSK |
| Envelope.SerializeEnvelope | backend/scripts/backup-envelope.ts:96-102 | the buffer writes lay out magic, version, length, header and ciphertext, and a header of 2^32 bytes is refused |
| Envelope.ParseEnvelope | backend/scripts/backup-envelope.ts:112-159 | the advancing offset yields the specified parse, with the same error for each malformed shape |
| Envelope.ParseOfSerialize | backend/scripts/backup-envelope.ts:96-159 | parsing what was serialized returns the same header and ciphertext exactly when the version byte is 1 |
| Envelope.SerializeIsInjective | backend/scripts/backup-envelope.ts:96-102 | different headers or ciphertexts never give the same bytes |
| Envelope.TruncatedIsRejected | backend/scripts/backup-envelope.ts:112-140 | every prefix ending before the header's end is rejected |
| Envelope.ParsedIsLaidOut | backend/scripts/backup-envelope.ts:112-159 | anything that parses is magic, version, length, a JSON header with all fields, and the returned ciphertext, with nothing left over |
| Envelope.LaidOutIsParsed | backend/scripts/backup-envelope.ts:112-159 | conversely, any such layout with a complete JSON header parses to that header and ciphertext |
| Envelope.DecryptOfEncrypt | backend/scripts/backup-envelope.ts:62-188 | decrypting the parsed envelope of an encryption under the same key gives the plaintext back, and its header names key, database, IV, time and algorithm it was made with |
| Envelope.DecryptExactly | backend/scripts/backup-envelope.ts:169-188 | decryption yields a text exactly when key, IV and tag have 32, 12 and 16 bytes and the cipher opens the ciphertext to it |
| BackupDatabase.EncryptDump | backend/scripts/backup-database.ts:446-498 | an envelope returned opens to the dump and names its KMS key and database; on failure the dump is gone or stuck; the data key is wiped; without faults a non-empty dump is encrypted |
| BackupDatabase.StoreEnvelope | backend/scripts/backup-database.ts:500-511 | once the envelope's write is acknowledged, at every later step the dump or an envelope of it is there; a failed write leaves neither behind; without faults it is written |
| BackupDatabase.ShipEnvelope | backend/scripts/backup-database.ts:514-540 | the local envelope stays exactly while no upload of it is acknowledged; the exit is Threw exactly when the hook threw, 1 exactly when the upload was not acknowledged; no fault and no key collision give 0 |
| BackupDatabase.EncryptAndUploadDump | backend/scripts/backup-database.ts:437-540 | no plaintext outlives the call unless the disk refused; once the envelope's write is acknowledged a copy is recoverable at every step, and after a failed upload it stays; stored objects never change; 0 exactly for a confirmed upload with one completed hook call |
| BackupDatabase.CleanupStalePlaintextDumps | backend/scripts/backup-database.ts:348-388 | deletes only regular plaintext dumps at least an hour old; unless the one listing failed, every such dump is gone or its deletion was tried and failed |
| BackupDatabase.EnvelopeIsNeverSwept | backend/scripts/backup-database.ts:445 | no sweep, at any time, deletes the envelope of any dump |
| BackupDatabase.DumpAndValidate | backend/scripts/backup-database.ts:591-636 | going on means a non-empty dump of this run is on disk and pg_restore listed it; a failing pg_dump status is passed on, an empty or unlisted dump gives 1, and no failure leaves a dump; without faults it goes on |
| BackupDatabase.RunBackup | backend/scripts/backup-database.ts:550-656 | 0 exactly when this run's dump, listed, then encrypted under the given key id, was confirmed in the bucket under a new key built for the database and the hook returned; from the dump on, once its envelope is written, every world of the run holds a copy, and every earlier run's envelope stays; stale plaintext is swept unless the listing failed; a lock taken is given back once on every path; an available lock, a new key and no faults give 0 |
| BackupDatabase.AbandonedDumpIsSwept | backend/scripts/backup-database.ts:307-388 | a dump that a crash left behind is one every later sweep deletes once it is an hour old, exactly when its database name is one non-empty line |
| RestoreVerify.GeneratedNameIsSafe | backend/scripts/backup-restore-verify.ts:209-244 | a generated database name passes the safety gate exactly when the configuration does not forbid that very name |
| RestoreVerify.GeneratedNamesDiffer | backend/scripts/backup-restore-verify.ts:209-214 | two generated names coincide only for the same second and the same random bytes |
| RestoreVerify.SafeNameIsDisposable | backend/scripts/backup-restore-verify.ts:222-244 | the safety gate passes exactly the names with the disposable prefix, of lower-case letters, digits and underscores, that the configuration does not forbid in any case; quoting leaves them as they are |
| RestoreVerify.MaintenanceRefusedExactly | backend/scripts/backup-restore-verify.ts:256-265 | a maintenance database is refused exactly when its name, in whatever case, is tms_dev, tms_local_test or one that the configuration forbids |
| RestoreVerify.QuotedNameIsReadBack | backend/scripts/backup-restore-verify.ts:268-270 | an identifier reader recovers exactly the quoted name, quotes inside it included, whatever SQL follows |
| RestoreVerify.RunSanityChecks | backend/scripts/backup-restore-verify.ts:439-514 | passing means enough tables, all required tables and non-empty core tables; a healthy database fails only if a query does |
| RestoreVerify.HealthyByLists | backend/scripts/backup-restore-verify.ts:75-85 | health is what the source's lists say: the minimum of tables, each required table, each representative one with a row |
| RestoreVerify.DropVerificationDatabase | backend/scripts/backup-restore-verify.ts:363-381 | the drops made are failures of this one database, ended by one success, which restores the catalogue, or by the third failure |
| BackupWorld.World.CreateDatabase | backend/scripts/backup-restore-verify.ts:332-342 | success creates the database, which was not there; a report of failure may hide a creation, and an effect log tells |
| RestoreVerify.FetchPlaintext | backend/scripts/backup-restore-verify.ts:581-619 | plaintext returned is what the stored object opens to; the key is wiped; a good object is refused only after a fault |
| RestoreVerify.RestoreAndCheck | backend/scripts/backup-restore-verify.ts:630-686 | success means a database that did not exist holds exactly the file's bytes and is healthy; one CREATE at most, reported as what it is; a healthy file under a safe unused name fails only after a fault |
| RestoreVerify.VerifyAndCleanUp | backend/scripts/backup-restore-verify.ts:563-732 | the clean-up overrides the result: after a CREATE acknowledged, drops follow until one succeeds or three fail; a database is left behind exactly when a CREATE took effect and no DROP did, and that, like plaintext that stays, forces exit 1 |
| RestoreVerify.RunRestoreVerification | backend/scripts/backup-restore-verify.ts:531-733 | a forbidden maintenance database is refused before the lock; a lock taken is given back exactly once; only a disposable name is ever created; a database is left behind exactly when a CREATE took effect and no DROP did, only after three failed drops or a CREATE reported failed, and then the run exits 1; at every step only the run's own database differs; plaintext stays only if its deletion was tried and failed; a good backup fails only after a fault |
| ProductionBackup.BackupThenVerify | backend/scripts/backup-production.ts:128-172 | verification does nothing unless an upload was confirmed and its hook returned, and then reads exactly that key; 0 means the bytes this run dumped are stored and were restored and checked; without faults, obstacles or collisions a healthy dump gives 0 |
| ProductionBackup.RunProductionBackupAndVerify | backend/scripts/backup-production.ts:92-181 | 0 means one new object holding this run's dump, labelled with its key id and database, restored from storage and checked, under a key that keeps the freshness monitor Healthy until its threshold; on every path each lock taken is given back once, the production lock around the others, and a database left behind makes the run fail; verification only after a successful backup and never against a forbidden maintenance database; another database name is refused before anything happens |
| Freshness.VerdictMeaning | backend/scripts/backup-freshness-check.ts:172-236 | HEALTHY exactly when some backup is no older, in milliseconds, than the threshold's hours, MISSING exactly when there is none |
| Freshness.VerdictIgnoresOrder | backend/scripts/backup-freshness-check.ts:172-236 | listing order, repetition and unrelated keys never change the verdict |
| Freshness.UploadKeepsHealthy | backend/scripts/backup-freshness-check.ts:200-236 | an uploaded tms_dev backup keeps the verdict HEALTHY until it is older than the threshold |
| Freshness.Monitor.RunCheck | backend/scripts/backup-freshness-check.ts:457-518 | one check, from the listing on, moves state file and mailbox as the protocol's round does; a listing that fails is UNKNOWN and alerted; the exit is 0 exactly when healthy with no owed mail unsent |
| Freshness.RoundExactly | backend/scripts/backup-freshness-check.ts:321-365 | an alert is owed exactly for an unhealthy verdict not yet alerted, a recovery exactly for a healthy one after an alert; the stored state changes its delivery half only when the owed mail was reported sent or none was owed |
| Freshness.ConfirmedMailsAlternate | backend/scripts/backup-freshness-check.ts:321-365 | over every sequence of checks the mails reported sent alternate, alert first, and the stored state is ALERTED exactly when the last one was an alert |
| Freshness.DeliveredMailsAlternate | backend/scripts/backup-freshness-check.ts:321-365 | the mails people receive alternate and agree with the stored state if and only if no owed mail arrives although its send failed |
| Freshness.DeliveredIsConfirmed | backend/scripts/backup-freshness-check.ts:321-365 | the mails received are the mails reported sent in exactly the same case, and never fewer |
| Freshness.FailedSendIsRetried | backend/scripts/backup-freshness-check.ts:355-365 | after a failed send, and any checks in between of which none of the same kind gets its mail through, the next check of that kind owes exactly the same mail |
| Freshness.IncidentIsAlertedOnce | backend/scripts/backup-freshness-check.ts:321-342 | once alerted, any number of further unhealthy checks send nothing |
| Freshness.UnacknowledgedAlertRepeats | backend/scripts/backup-freshness-check.ts:478-505 | an alert that arrives while its call fails is received twice |
| Entitlement.LimitNeverExceeded | backend/src/common/entitlement/entitlement.service.ts:120-196 | no interleaving of additions, removals, aborts and safe conversions ever commits more counted rows than the limit |
| Entitlement.ColumnsNeverExceeded | backend/src/common/entitlement/entitlement.service.ts:120-158 | in every interleaving under fixed columns, pending and active carriers stay within max_carriers and active drivers within max_drivers |
| Entitlement.QuickReadExactly | backend/src/common/entitlement/entitlement.service.ts:35-153 | the unlocked read turns away exactly creations under an expired subscription or a trial past its end, and sends to the lock exactly the additions whose own column is set |
| Entitlement.LockedCountRefusesExactlyWhenFull | backend/src/common/entitlement/entitlement.service.ts:127-157 | under the lock any addition of a carrier or a driver is refused exactly when its column is at most the rows it counts |
| Entitlement.CommittedStatus | backend/src/modules/carrier/services/carrier.service.ts:87-150 | a created carrier commits as pending, every other addition as active, a removal as blocked or inactive, and the row lock is given back |
| Entitlement.RowsInsistedOn | backend/src/modules/carrier/services/carrier.service.ts:656-827 | only a pending carrier is activated, only an active row removed, only a blocked or inactive one reactivated; anything else throws |
| Entitlement.FixedLimitsAreSafe | backend/src/common/entitlement/entitlement.service.ts:120-158 | every run in which limits are not converted is one the bound applies to |
| Entitlement.DecisionsAreSerial | backend/src/common/entitlement/entitlement.service.ts:120-196 | every decision and the committed rows are those of serving the requests one at a time, locked ones in the order their locks were taken |
| Entitlement.StepKeepsInv | backend/src/common/entitlement/entitlement.service.ts:120-196 | every step keeps the limits, one lock holder, and the room found under the lock until commit |
| Entitlement.CountAfterWrite | backend/src/common/entitlement/entitlement.service.ts:120-158 | one write raises its own kind's count by at most one, not at all for an uncounted status or an already counted row, and no other count |
| Entitlement.ActivationRefusedExactlyWhenFull | backend/src/modules/carrier/services/carrier.service.ts:656-700 | activating a pending carrier is refused exactly when the limit is at most the count and admitted otherwise, although either way the count stays what it is |
| Entitlement.ConversionSafeExactly | backend/src/modules/identity/services/organization.service.ts:345-367 | after limits are set, every later schedule without another conversion keeps them if and only if they cover the committed rows and no addition that saw one of them absent is still open |
| Entitlement.OpenAdditionOverruns | backend/src/common/entitlement/entitlement.service.ts:120-158 | an open addition that saw no limit can overrun any limit set since: a schedule of locked additions fills the room, and then it commits |
| GeocodeSeed.SplitCsvLine | backend/scripts/seed-geocode-cache.ts:39-55 | the character loop yields the specified fields of the line |
| GeocodeSeed.SplitKeepsText | backend/scripts/seed-geocode-cache.ts:39-55 | joining the fields with commas gives the line with its quotes deleted |
| GeocodeSeed.SplitCountsCommas | backend/scripts/seed-geocode-cache.ts:39-55 | there is one field more than there are commas outside quotes |
| GeocodeSeed.ParsedPlacesAreFieldText | backend/scripts/seed-geocode-cache.ts:39-77 | no city or state that parsing yields holds a quote or a newline |
| GeocodeSeed.CsvRoundTrip | backend/scripts/seed-geocode-cache.ts:57-77 | any list of places written as a CSV is read back field for field, latitude and longitude in their order |
| GeocodeSeed.MalformedRowExactly | backend/scripts/seed-geocode-cache.ts:66-69 | the error names the first data line with fewer than four fields |
| GeocodeSeed.SplitUndoesQuoting | backend/scripts/seed-geocode-cache.ts:30-55 | splitting recovers any non-empty list of quote-free fields, each written plain or quoted (section 2 of RFC 4180) |
| GeocodeSeed.GeocodeCache.CreateMany | backend/scripts/seed-geocode-cache.ts:85-92 | a batch adds the first row of each new key, alters no existing key, and counts exactly the keys added |
| GeocodeSeed.GeocodeCache.Seed | backend/scripts/seed-geocode-cache.ts:79-99 | batches of any size leave the cache that one insertion of all rows would, and report the rows added |
| GeocodeSeed.GeocodeCache.SeedFromCsv | backend/scripts/seed-geocode-cache.ts:57-99 | a file that does not parse changes nothing; otherwise the cache gains the first row of each new key, in batches of any size, and the count of rows added is returned |
| GeocodeSeed.GeocodeCache.Resolve | backend/src/common/location-resolution/services/location-resolution.service.ts:26-35 | on a cache seeded from any CSV text, resolving an unambiguous query gives what scanning the CSV for the first match gives; in any cache it reads the row under the joined key or misses |
| GeocodeSeed.InsertAllMeaning | backend/scripts/seed-geocode-cache.ts:85-92 | existing keys keep their rows, and a new key gets the first row that has it |
| GeocodeSeed.NormEqualExactly | backend/src/common/location-resolution/services/location-resolution.service.ts:26-28 | two names give the same key part exactly when they are equal but for case and surrounding white space |
| GeocodeSeed.ScanExactly | backend/src/common/location-resolution/services/location-resolution.service.ts:26-35 | the scan gives the latitude and longitude of the first place equal to the query but for case and surrounding white space, and nothing exactly when there is none |
| GeocodeSeed.ReseedInsertsNothing | backend/scripts/seed-geocode-cache.ts:85-92 | seeding the same rows again changes nothing, whatever was there before |
| GeocodeSeed.LookupIsScanExactlyWhenUnambiguous | backend/src/common/location-resolution/services/location-resolution.service.ts:26-35 | for every CSV text, seeding an empty cache and looking up equals scanning for the first row whose trimmed, upper-cased city and state match, if and only if the query's key splits in one way into pieces a CSV field can hold |
| GeocodeSeed.MisleadingCsvMisleads | backend/src/common/location-resolution/services/location-resolution.service.ts:26-35 | for a query whose key splits in a second way, the one-row CSV of that split is found by lookup and not by the scan |
| GeocodeSeed.BarFreeIsUnambiguous | backend/src/common/location-resolution/services/location-resolution.service.ts:26-28 | city and state without a vertical bar meet that condition |
| RlsSplitter.SplitIsByLines | backend/scripts/apply-rls.ts:61-70 | splitting on the pattern and stripping comments equals grouping lines up to each line ending in a semicolon, for every text |
| RlsSplitter.EveryLineIsExecutedOnce | backend/scripts/apply-rls.ts:61-78 | each non-comment line goes to exactly one statement, in order, and what is executed is those lines up to white space and one semicolon per statement |
| RlsSplitter.NoCommentIsExecuted | backend/scripts/apply-rls.ts:61-70 | no line of any executed statement is a comment line |
| RlsSplitter.CommentExactly | backend/scripts/apply-rls.ts:66 | a line is a comment exactly when two dashes follow nothing but white space |
| RlsSplitter.SplitOfRender | backend/scripts/apply-rls.ts:61-70 | statements and comment lines written to a file split back to exactly the statements, when no comment or inner line ends in a semicolon |
| RlsSplitter.ApplyFiles | backend/scripts/apply-rls.ts:38-79 | files run statement by statement in order; a failure stops the run after a strict prefix of all statements |
| RelativeTime.OlderNeverShowsLess | frontend/src/lib/formatRelativeTime.ts:9-25 | an older instant never shows a smaller unit, nor a smaller count of the same unit |
| RelativeTime.CountsStayInRange | frontend/src/lib/formatRelativeTime.ts:9-25 | minutes stay in 1 to 59, hours in 1 to 23, days in 1 to 29, months at 1 or more |
| RelativeTime.ShownExactly | frontend/src/lib/formatRelativeTime.ts:9-25 | the units take over at 30 s, 59.5 min, 23 h 29.5 min and 29 d 11 h 29.5 min, and each count covers its span, to the millisecond |
| RelativeTime.ErrorIsBounded | frontend/src/lib/formatRelativeTime.ts:9-25 | the age shown is off by at most half its unit plus half of each smaller unit rounded on the way |
| RelativeTime.DayToleranceIsReached | frontend/src/lib/formatRelativeTime.ts:9-25 | for days the bound of 12 h 30 min 30 s is attained |
| EscapeHtml.FivePassesAreOne | frontend/src/lib/escapeHtml.ts:11-18 | the five sequential replacements equal one escape of each character, for every string |
| EscapeHtml.EscapedIsSafe | frontend/src/lib/escapeHtml.ts:11-18 | the result has no raw angle bracket or quote, and every ampersand starts one of the five references |
| EscapeHtml.UnescapeOfEscape | frontend/src/lib/escapeHtml.ts:11-18 | one unescaping pass restores the input |

## Left out

- WallClockMeaning.InterpretFindsLeastOffered: covers the common era only, because Intl prints the year of the era and the source never looks at the era; an instant of 101 BC therefore shows the digits of a year 101, and is not counted as showing them.
- WallClockMeaning.ProbeOffset: assumes whole-minute offsets of less than a day; local mean times with seconds, in use before standard time, are not modelled.
- EasternZone.EasternIsRight: takes the rule of the Energy Policy Act for all years from 100 on, not the zone's earlier history, which the tz database has and which is not part of this model.
- BusinessTimezone.ParseBusinessWallClock: the filling of a record from Intl's formatted parts is replaced by calendar arithmetic on the shifted instant; default time zone and error wording are left out.
- BackupLock.ExclusiveExactlyWhenNeverRobbed: exclusive create and writing the content are one step, and pids are not reused; MutualExclusionAlways adds a proviso a scheduler can check (no create inside another process's window, existing files readable).
- BackupWorld.World.Release: one read-and-delete step here; the interleaved version of it is in the lock protocol.
- BackupWorld.World.AcquireBackupLock: other processes do not act between its steps; their interleavings are in the lock protocol.
- BackupWorld.World.UploadObject: one bucket for the backup and its verification, as both configurations name the same one; a listing is one page of at most 1,000 keys.
- BackupDatabase.EncryptAndUploadDump: a failed initial stat leaves the plaintext in place, as the source does, and counts here as a file that could not be examined; its success clause asks that the JSON header fit 32 bits.
- RestoreVerify.RunRestoreVerification: assumes that building the connection environment, which happens after the lock is taken and outside the try block, returns.
- ProductionBackup.RunProductionBackupAndVerify: configurations are given, present or not; the environment-variable checks behind them are left out.
- Envelope.DecryptOfEncrypt: JSON text, base64 and AES-256-GCM are abstract functions with the inverse laws of their standards (the cipher with the 96-bit IV of section 5.2.1.1 of NIST SP 800-38D); a wrong key or tampered bytes give whatever the abstract cipher gives.
- Freshness.Monitor.RunCheck: the state file is reliable once written, and a missing or unreadable one is one case; mail texts are left out.
- Entitlement.LimitNeverExceeded: conversions of a limit are covered only when they fit the current rows and no addition that saw no limit is still open, because the other case fails, as ConversionSafeExactly states; locking is by organization row only, and the trial clock is a parameter of each quick read.
- Entitlement.ConversionSafeExactly: its second half asks that one of the open additions can still add a counted row, now or after its own row is activated and blocked; left open are states whose only open additions create a key that exists by now, name a row that does not exist, or activate a pending carrier while every counted carrier is pending and the new limit is reached.
- GeocodeSeed.GeocodeCache.Resolve: upper-casing handles the letters a to z; the full Unicode mapping, which may lengthen text, is not modelled, and coordinates stay text.
- RlsSplitter.ApplyFiles: the sorted list of files is given; choosing and sorting them is left out.
- RelativeTime.ErrorIsBounded: instants in the past, with whole milliseconds; the formatted words are left out.
- Child processes, S3 transport, KMS and Postmark are nondeterministic outcomes on the modelled world.
- Wording of logs, errors and mails.
- Background workers, document generation, the malware scanner, web routes, components and API clients: wiring whose properties follow from single bodies.
- Permission tables, status enums and seed rows: finite data.
