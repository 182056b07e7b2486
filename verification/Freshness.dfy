/**
  backup-freshness-check.ts: the verdict on a bucket listing, and the alert protocol whose
  stored state must mean "this was delivered", not "this was noticed".
 */
module Freshness {
  import opened Wrappers
  import opened BackupKeys

  datatype Object = Object(key: string, lastModified: int)

  datatype Verdict = Healthy | Stale | Missing | Unknown

  // ---- the verdict ----

  function Matching(objects: seq<Object>, prefix: string): seq<Object> {
    if objects == [] then [] else
      var rest := Matching(objects[1..], prefix);
      if IsNewPipelineObjectKey(objects[0].key, prefix) then [objects[0]] + rest else rest
  }

  /** The reduction: a later entry replaces the newest so far only if strictly newer. */
  function NewestOf(first: Object, rest: seq<Object>): Object
    decreases |rest|
  {
    if rest == [] then first
    else NewestOf(if rest[0].lastModified > first.lastModified then rest[0] else first, rest[1..])
  }

  function FindNewestMatching(objects: seq<Object>, prefix: string): Option<Object> {
    var matching := Matching(objects, prefix);
    if matching == [] then None else Some(NewestOf(matching[0], matching[1..]))
  }

  function AgeHours(now: int, lastModified: int): real {
    (now - lastModified) as real / 3600000.0
  }

  function Evaluate(objects: seq<Object>, prefix: string, now: int, thresholdHours: real): Verdict {
    match FindNewestMatching(objects, prefix)
    case None => Missing
    case Some(newest) => if AgeHours(now, newest.lastModified) > thresholdHours then Stale else Healthy
  }

  /** A failed listing is Unknown, never Healthy and never skipped. */
  function CheckFreshness(listing: Option<seq<Object>>, prefix: string, now: int, thresholdHours: real): Verdict {
    match listing
    case None => Unknown
    case Some(objects) => Evaluate(objects, prefix, now, thresholdHours)
  }

  predicate IsBackup(o: Object, prefix: string) {
    IsNewPipelineObjectKey(o.key, prefix)
  }

  lemma {:induction false} MatchingMembers(objects: seq<Object>, prefix: string)
    ensures forall o :: o in Matching(objects, prefix) <==> o in objects && IsBackup(o, prefix)
    decreases |objects|
  {
    hide IsNewPipelineObjectKey;
    if objects != [] {
      MatchingMembers(objects[1..], prefix);
    }
  }

  lemma {:induction false} NewestIsNewest(first: Object, rest: seq<Object>)
    ensures NewestOf(first, rest) == first || NewestOf(first, rest) in rest
    ensures first.lastModified <= NewestOf(first, rest).lastModified
    ensures forall o :: o in rest ==> o.lastModified <= NewestOf(first, rest).lastModified
    decreases |rest|
  {
    if rest != [] {
      NewestIsNewest(if rest[0].lastModified > first.lastModified then rest[0] else first, rest[1..]);
    }
  }

  /** No older than the threshold, in milliseconds: 3,600,000 to the hour. */
  predicate YoungEnough(modified: int, now: int, thresholdHours: real) {
    (now - modified) as real <= thresholdHours * 3600000.0
  }

  predicate Fresh(o: Object, prefix: string, now: int, thresholdHours: real) {
    IsBackup(o, prefix) && YoungEnough(o.lastModified, now, thresholdHours)
  }

  lemma AgeIsInHours(modified: int, now: int, thresholdHours: real)
    ensures AgeHours(now, modified) <= thresholdHours <==> YoungEnough(modified, now, thresholdHours)
  {
  }

  lemma NewerIsYounger(newer: int, modified: int, now: int, thresholdHours: real)
    requires modified <= newer && YoungEnough(modified, now, thresholdHours)
    ensures YoungEnough(newer, now, thresholdHours)
  {
  }

  /** Healthy: some backup is young enough.  Missing: there is none.  Stale: all are too old. */
  lemma VerdictMeaning(objects: seq<Object>, prefix: string, now: int, thresholdHours: real)
    ensures var v := Evaluate(objects, prefix, now, thresholdHours);
            && (v == Healthy <==> exists o :: o in objects && Fresh(o, prefix, now, thresholdHours))
            && (v == Missing <==> forall o :: o in objects ==> !IsBackup(o, prefix))
            && v != Unknown
  {
    hide IsNewPipelineObjectKey;
    var matching := Matching(objects, prefix);
    MatchingMembers(objects, prefix);
    if matching != [] {
      NewestIsNewest(matching[0], matching[1..]);
      var newest := NewestOf(matching[0], matching[1..]);
      assert newest in matching;
      AgeIsInHours(newest.lastModified, now, thresholdHours);
      forall o | o in matching && YoungEnough(o.lastModified, now, thresholdHours)
        ensures YoungEnough(newest.lastModified, now, thresholdHours)
      {
        assert o == matching[0] || o in matching[1..];
        NewerIsYounger(newest.lastModified, o.lastModified, now, thresholdHours);
      }
    }
  }

  /** Order, repetition and foreign keys in the listing make no difference. */
  lemma VerdictIgnoresOrder(a: seq<Object>, b: seq<Object>, prefix: string, now: int, thresholdHours: real)
    requires forall o :: IsBackup(o, prefix) ==> (o in a <==> o in b)
    ensures Evaluate(a, prefix, now, thresholdHours) == Evaluate(b, prefix, now, thresholdHours)
  {
    hide IsBackup, Evaluate, YoungEnough;
    VerdictMeaning(a, prefix, now, thresholdHours);
    VerdictMeaning(b, prefix, now, thresholdHours);
  }

  /** A backup just uploaded for tms_dev keeps the verdict Healthy until it passes the threshold. */
  lemma UploadKeepsHealthy(
    objects: seq<Object>, prefix: string, second: int, modified: int, now: int, thresholdHours: real)
    requires InFourDigitYears(second) && YoungEnough(modified, now, thresholdHours)
    requires Object(BuildS3ObjectKey("tms_dev", prefix, second), modified) in objects
    ensures Evaluate(objects, prefix, now, thresholdHours) == Healthy
  {
    hide IsNewPipelineObjectKey, BuildS3ObjectKey, Evaluate;
    BuiltKeyIsRecognised(prefix, second);
    VerdictMeaning(objects, prefix, now, thresholdHours);
    assert Fresh(Object(BuildS3ObjectKey("tms_dev", prefix, second), modified), prefix, now, thresholdHours);
  }

  // ---- alert decisions ----

  datatype Delivery = OK | Alerted

  datatype MonitorState = MonitorState(lastState: Delivery, lastStatus: Verdict, lastCheckedAt: int)

  datatype Mail = Alert | Recovery

  datatype AlertDecision = AlertDecision(send: Option<Mail>, stateIfDelivered: MonitorState)

  predicate WasAlerted(previous: Option<MonitorState>) {
    previous.Some? && previous.value.lastState == Alerted
  }

  function DecideAlertAction(verdict: Verdict, previous: Option<MonitorState>, now: int): AlertDecision {
    if verdict != Healthy then
      AlertDecision(if WasAlerted(previous) then None else Some(Alert), MonitorState(Alerted, verdict, now))
    else
      AlertDecision(if WasAlerted(previous) then Some(Recovery) else None, MonitorState(OK, verdict, now))
  }

  function StateAfterFailedSend(previous: Option<MonitorState>, verdict: Verdict, now: int): MonitorState {
    MonitorState(if previous.Some? then previous.value.lastState else OK, verdict, now)
  }

  // ---- one check after another ----

  /** What a required send comes to; Unacknowledged mail arrives although the call fails. */
  datatype SendOutcome = Sent | NotSent | Unacknowledged

  datatype Round = Round(verdict: Verdict, outcome: SendOutcome, now: int)

  /** The state file, the mails reported sent, and the mails that arrived. */
  datatype History = History(state: Option<MonitorState>, confirmed: seq<Mail>, delivered: seq<Mail>)

  function AfterRound(h: History, r: Round): History {
    var d := DecideAlertAction(r.verdict, h.state, r.now);
    match d.send
    case None => h.(state := Some(d.stateIfDelivered))
    case Some(mail) =>
      match r.outcome
      case Sent => History(Some(d.stateIfDelivered), h.confirmed + [mail], h.delivered + [mail])
      case NotSent => h.(state := Some(StateAfterFailedSend(h.state, r.verdict, r.now)))
      case Unacknowledged =>
        History(Some(StateAfterFailedSend(h.state, r.verdict, r.now)), h.confirmed, h.delivered + [mail])
  }

  function AfterRounds(h: History, rounds: seq<Round>): History
    decreases |rounds|
  {
    if rounds == [] then h else AfterRound(AfterRounds(h, rounds[..|rounds| - 1]), rounds[|rounds| - 1])
  }

  /** The scheduled job: its state file (absent, or unreadable, is None) and its mailbox. */
  class Monitor {
    var stateFile: Option<MonitorState>
    ghost var confirmed: seq<Mail>
    ghost var delivered: seq<Mail>

    constructor ()
      ensures Now() == History(None, [], [])
    {
      stateFile, confirmed, delivered := None, [], [];
    }

    ghost function Now(): History
      reads this
    {
      History(stateFile, confirmed, delivered)
    }

    /** The network decides `outcome`; the caller only learns whether the call succeeded. */
    method SendEmail(mail: Mail, outcome: SendOutcome) returns (ok: bool)
      modifies this`confirmed, this`delivered
      ensures ok <==> outcome == Sent
      ensures confirmed == if ok then old(confirmed) + [mail] else old(confirmed)
      ensures delivered == if outcome == NotSent then old(delivered) else old(delivered) + [mail]
    {
      ok := outcome == Sent;
      if ok {
        confirmed := confirmed + [mail];
      }
      if outcome != NotSent {
        delivered := delivered + [mail];
      }
    }

    /** A failed listing (None) is an alertable verdict like any other. */
    method RunCheck(
      listing: Option<seq<Object>>, prefix: string, thresholdHours: real, outcome: SendOutcome, now: int)
      returns (exitCode: int)
      modifies this
      ensures var verdict := CheckFreshness(listing, prefix, now, thresholdHours);
              && Now() == AfterRound(old(Now()), Round(verdict, outcome, now))
              && (listing.None? ==> verdict == Unknown)
              && (verdict == Healthy <==>
                    listing.Some? && exists o :: o in listing.value && Fresh(o, prefix, now, thresholdHours))
              && (exitCode == 0 <==> verdict == Healthy && (WasAlerted(old(stateFile)) ==> outcome == Sent))
              && (exitCode == 0 || exitCode == 1)
    {
      hide Evaluate, Fresh;
      var verdict := CheckFreshness(listing, prefix, now, thresholdHours);
      if listing.Some? {
        VerdictMeaning(listing.value, prefix, now, thresholdHours);
      }
      var previousState := stateFile;
      var decision := DecideAlertAction(verdict, previousState, now);
      if decision.send.Some? {
        var ok := SendEmail(decision.send.value, outcome);
        if !ok {
          stateFile := Some(StateAfterFailedSend(previousState, verdict, now));
          return 1;
        }
      }
      stateFile := Some(decision.stateIfDelivered);
      return if verdict == Healthy then 0 else 1;
    }
  }

  /**
    One round, said outright.  An unhealthy verdict not yet alerted owes an alert, a healthy
    one after an alert owes a recovery, anything else owes nothing; only a mail reported sent,
    or none owed, changes what the state says was delivered.
   */
  lemma RoundExactly(h: History, r: Round)
    ensures var t, alerted := AfterRound(h, r), h.state.Some? && h.state.value.lastState == Alerted;
            var owed := if r.verdict != Healthy && !alerted then [Alert]
                        else if r.verdict == Healthy && alerted then [Recovery] else [];
            && t.confirmed == (if r.outcome == Sent then h.confirmed + owed else h.confirmed)
            && t.delivered == (if r.outcome == NotSent then h.delivered else h.delivered + owed)
            && t.state.Some? && t.state.value.lastStatus == r.verdict && t.state.value.lastCheckedAt == r.now
            && (t.state.value.lastState == Alerted
                <==> if owed == [] || r.outcome == Sent then r.verdict != Healthy else alerted)
  {
    assert h.confirmed + [] == h.confirmed && h.delivered + [] == h.delivered;
  }

  const START := History(None, [], [])

  /** Alert, recovery, alert, and so on. */
  predicate Alternates(mails: seq<Mail>) {
    forall i :: 0 <= i < |mails| ==> mails[i] == if i % 2 == 0 then Alert else Recovery
  }

  predicate LastWasAlert(mails: seq<Mail>) {
    mails != [] && mails[|mails| - 1] == Alert
  }

  /** Over any sequence of checks, mails reported sent alternate and the state says which came last. */
  lemma {:induction false} ConfirmedMailsAlternate(rounds: seq<Round>)
    ensures var h := AfterRounds(START, rounds);
            Alternates(h.confirmed) && (WasAlerted(h.state) <==> LastWasAlert(h.confirmed))
    decreases |rounds|
  {
    if rounds != [] {
      ConfirmedMailsAlternate(rounds[..|rounds| - 1]);
    }
  }

  /** Received mails alternate, and the stored state says which kind was received last. */
  predicate Faithful(h: History) {
    Alternates(h.delivered) && (WasAlerted(h.state) <==> LastWasAlert(h.delivered))
  }

  /** A mail owed in this round arrives although its send fails. */
  predicate ArrivesUnacknowledged(h: History, r: Round) {
    r.outcome == Unacknowledged && DecideAlertAction(r.verdict, h.state, r.now).send.Some?
  }

  predicate SomeArrivesUnacknowledged(rounds: seq<Round>)
    decreases |rounds|
  {
    rounds != [] &&
    var earlier := rounds[..|rounds| - 1];
    SomeArrivesUnacknowledged(earlier) || ArrivesUnacknowledged(AfterRounds(START, earlier), rounds[|rounds| - 1])
  }

  lemma OneMoreMail(mails: seq<Mail>, mail: Mail)
    ensures Alternates(mails + [mail]) <==> Alternates(mails) && mail == if |mails| % 2 == 0 then Alert else Recovery
    ensures LastWasAlert(mails + [mail]) <==> mail == Alert
    ensures Alternates(mails) ==> (LastWasAlert(mails) <==> |mails| % 2 == 1)
  {
    var longer := mails + [mail];
    assert forall i :: 0 <= i < |mails| ==> longer[i] == mails[i];
    assert longer[|mails|] == mail;
  }

  /** One round loses faithfulness exactly by such a mail, and nothing ever restores it. */
  lemma RoundKeepsFaithful(h: History, r: Round)
    ensures Faithful(AfterRound(h, r)) <==> Faithful(h) && !ArrivesUnacknowledged(h, r)
  {
    hide Alternates, LastWasAlert;
    OneMoreMail(h.delivered, Alert);
    OneMoreMail(h.delivered, Recovery);
  }

  /** People receive strictly alternating mails exactly when no owed mail arrives unacknowledged. */
  lemma {:induction false} DeliveredMailsAlternate(rounds: seq<Round>)
    ensures Faithful(AfterRounds(START, rounds)) <==> !SomeArrivesUnacknowledged(rounds)
    decreases |rounds|
  {
    if rounds != [] {
      hide Faithful, ArrivesUnacknowledged, AfterRound;
      DeliveredMailsAlternate(rounds[..|rounds| - 1]);
      RoundKeepsFaithful(AfterRounds(START, rounds[..|rounds| - 1]), rounds[|rounds| - 1]);
    } else {
      assert Faithful(START);
    }
  }

  /** Mails received are the mails reported sent exactly in the same case. */
  lemma {:induction false} DeliveredIsConfirmed(rounds: seq<Round>)
    ensures var h := AfterRounds(START, rounds);
            |h.confirmed| <= |h.delivered| && (h.delivered == h.confirmed <==> !SomeArrivesUnacknowledged(rounds))
            && (|h.delivered| == |h.confirmed| ==> h.delivered == h.confirmed)
    decreases |rounds|
  {
    if rounds != [] {
      DeliveredIsConfirmed(rounds[..|rounds| - 1]);
    }
  }

  predicate SameKind(a: Verdict, b: Verdict) {
    a == Healthy <==> b == Healthy
  }

  /**
    A failed send stays owed: whatever rounds come between, as long as none of them is of the
    same kind and gets its mail through, the next check of that kind sends it again.
   */
  lemma {:induction false} FailedSendIsRetried(h: History, failed: Round, between: seq<Round>, next: Round)
    requires DecideAlertAction(failed.verdict, h.state, failed.now).send.Some? && failed.outcome != Sent
    requires forall i :: 0 <= i < |between| ==>
               !(SameKind(between[i].verdict, failed.verdict) && between[i].outcome == Sent)
    requires SameKind(failed.verdict, next.verdict)
    ensures DecideAlertAction(next.verdict, AfterRounds(AfterRound(h, failed), between).state, next.now).send
            == DecideAlertAction(failed.verdict, h.state, failed.now).send
    decreases |between|
  {
    if between != [] {
      FailedSendIsRetried(h, failed, between[..|between| - 1], next);
    }
  }

  /** An ongoing incident is alerted exactly once: repeats of an unhealthy verdict stay silent. */
  lemma {:induction false} IncidentIsAlertedOnce(h: History, rounds: seq<Round>)
    requires WasAlerted(h.state)
    requires forall i :: 0 <= i < |rounds| ==> rounds[i].verdict != Healthy
    ensures AfterRounds(h, rounds).confirmed == h.confirmed && AfterRounds(h, rounds).delivered == h.delivered
    ensures WasAlerted(AfterRounds(h, rounds).state)
    decreases |rounds|
  {
    if rounds != [] {
      IncidentIsAlertedOnce(h, rounds[..|rounds| - 1]);
    }
  }

  /** Mail that arrives while the call fails is sent twice: the price of never losing an alert. */
  lemma UnacknowledgedAlertRepeats(now: int)
    ensures var rounds := [Round(Stale, Unacknowledged, now), Round(Stale, Sent, now + 1)];
            AfterRounds(START, rounds).delivered == [Alert, Alert]
            && AfterRounds(START, rounds).confirmed == [Alert]
  {
    var first, second := Round(Stale, Unacknowledged, now), Round(Stale, Sent, now + 1);
    assert [first, second][..1] == [first] && [first][..0] == [];
    assert AfterRounds(START, [first]) == AfterRound(START, first);
  }
}
