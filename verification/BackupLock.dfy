/**
  backup-lock.ts as a protocol: any number of processes, each running the steps of
  acquireBackupLock and release against one lock file, interleaved in any order, dying at
  any point.  Exclusive creation and writing the content count as one step.
 */
module BackupLock {
  import opened Wrappers

  /** A process: its pid and its host name.  No two processes share both. */
  datatype Process = Process(pid: nat, host: string)

  /** The lock file as isLockStale reads it; the host may be missing from the content. */
  datatype LockFile = Absent | Corrupt | Owned(pid: nat, host: Option<string>)

  datatype Phase =
    | Idle
    | Checking            // exclusive create failed with EEXIST
    | Judging(pid: nat)   // read an owner on this host, about to signal it
    | Reclaiming          // judged stale, about to unlink
    | Retrying            // unlinked, about to create again
    | Holding
    | Unlinking           // release found its own pid in the file
    | Refused
    | Released
    | Gone                // exited or crashed

  datatype State = State(file: LockFile, phases: map<Process, Phase>)

  datatype Event =
    | Create(p: Process)
    | CreateError(p: Process)
    | Read(p: Process, unreadable: bool)
    | Signal(p: Process, gone: bool)
    | Reclaim(p: Process, fails: bool)
    | Retry(p: Process)
    | ReleaseRead(p: Process, unreadable: bool)
    | ReleaseUnlink(p: Process, fails: bool)
    | Die(p: Process)

  function PhaseOf(s: State, p: Process): Phase {
    if p in s.phases then s.phases[p] else Idle
  }

  predicate Live(s: State, p: Process) {
    p in s.phases && s.phases[p] != Gone
  }

  /** The process has the lock and has not yet given it up. */
  predicate Holds(s: State, p: Process) {
    PhaseOf(s, p) == Holding || PhaseOf(s, p) == Unlinking
  }

  function ContentOf(p: Process): LockFile {
    Owned(p.pid, Some(p.host))
  }

  /** isLockStale up to the liveness check: what reading the file leads to. */
  function AfterRead(file: LockFile, p: Process): Phase {
    match file
    case Absent => Reclaiming
    case Corrupt => Reclaiming
    case Owned(pid, host) => if host.Some? && host.value != p.host then Refused else Judging(pid)
  }

  /** A signal can only report "no such process" about a process that is not alive. */
  predicate CanStep(s: State, e: Event) {
    match e
    case Create(p) => PhaseOf(s, p) == Idle
    case CreateError(p) => PhaseOf(s, p) == Idle || PhaseOf(s, p) == Retrying
    case Read(p, _) => PhaseOf(s, p) == Checking
    case Signal(p, gone) =>
      PhaseOf(s, p).Judging? && (gone ==> !Live(s, Process(PhaseOf(s, p).pid, p.host)))
    case Reclaim(p, _) => PhaseOf(s, p) == Reclaiming
    case Retry(p) => PhaseOf(s, p) == Retrying
    case ReleaseRead(p, _) => PhaseOf(s, p) == Holding
    case ReleaseUnlink(p, _) => PhaseOf(s, p) == Unlinking
    case Die(p) => true
  }

  function Step(s: State, e: Event): State
    requires CanStep(s, e)
  {
    match e
    case Create(p) =>
      if s.file == Absent then State(ContentOf(p), s.phases[p := Holding])
      else s.(phases := s.phases[p := Checking])
    case CreateError(p) => s.(phases := s.phases[p := Refused])
    case Read(p, unreadable) =>
      s.(phases := s.phases[p := if unreadable then Reclaiming else AfterRead(s.file, p)])
    case Signal(p, gone) => s.(phases := s.phases[p := if gone then Reclaiming else Refused])
    case Reclaim(p, fails) =>
      State(if fails then s.file else Absent, s.phases[p := Retrying])
    case Retry(p) =>
      if s.file == Absent then State(ContentOf(p), s.phases[p := Holding])
      else s.(phases := s.phases[p := Refused])
    case ReleaseRead(p, unreadable) =>
      s.(phases := s.phases[p := if !unreadable && s.file.Owned? && s.file.pid == p.pid then Unlinking else Released])
    case ReleaseUnlink(p, fails) =>
      State(if fails then s.file else Absent, s.phases[p := Released])
    case Die(p) => s.(phases := s.phases[p := Gone])
  }

  /** The faults a run must survive can happen at every point: death at any, errors at each call. */
  lemma FaultsCanHappen(s: State, p: Process)
    ensures CanStep(s, Die(p)) && PhaseOf(Step(s, Die(p)), p) == Gone && Step(s, Die(p)).file == s.file
    ensures CanStep(s, CreateError(p)) <==> PhaseOf(s, p) == Idle || PhaseOf(s, p) == Retrying
    ensures CanStep(s, CreateError(p)) ==> Step(s, CreateError(p)) == s.(phases := s.phases[p := Refused])
    ensures PhaseOf(s, p) == Reclaiming ==>
              CanStep(s, Reclaim(p, true)) && Step(s, Reclaim(p, true)) == s.(phases := s.phases[p := Retrying])
    ensures PhaseOf(s, p) == Holding ==>
              CanStep(s, ReleaseRead(p, true)) && Step(s, ReleaseRead(p, true)) == s.(phases := s.phases[p := Released])
    ensures PhaseOf(s, p) == Unlinking ==>
              CanStep(s, ReleaseUnlink(p, true))
              && Step(s, ReleaseUnlink(p, true)) == s.(phases := s.phases[p := Released])
    ensures PhaseOf(s, p) == Checking ==>
              CanStep(s, Read(p, true)) && Step(s, Read(p, true)) == s.(phases := s.phases[p := Reclaiming])
    ensures PhaseOf(s, p).Judging? ==>
              CanStep(s, Signal(p, false)) && Step(s, Signal(p, false)) == s.(phases := s.phases[p := Refused])
  {
  }

  // ---- runs ----

  predicate CanRun(s: State, events: seq<Event>)
    decreases |events|
  {
    events == [] || (CanStep(s, events[0]) && CanRun(Step(s, events[0]), events[1..]))
  }

  function Run(s: State, events: seq<Event>): State
    requires CanRun(s, events)
    decreases |events|
  {
    if events == [] then s else Run(Step(s, events[0]), events[1..])
  }

  /** Between its failed create and its retry. */
  predicate InWindow(s: State, p: Process) {
    var phase := PhaseOf(s, p);
    phase == Checking || phase.Judging? || phase == Reclaiming || phase == Retrying
  }

  predicate Creates(s: State, e: Event) {
    (e.Create? || e.Retry?) && s.file == Absent
  }

  /**
    The scheduling proviso: nobody creates the file inside another process's window, and a
    lock file that is there can be read.
   */
  ghost predicate Orderly(s: State, e: Event) {
    && (Creates(s, e) ==> forall q :: q != e.p ==> !InWindow(s, q))
    && (e.Read? && e.unreadable ==> s.file == Absent)
  }

  ghost predicate OrderlyRun(s: State, events: seq<Event>)
    requires CanRun(s, events)
    decreases |events|
  {
    events == [] || (Orderly(s, events[0]) && OrderlyRun(Step(s, events[0]), events[1..]))
  }

  /** At most one live process has the lock, and the file names it. */
  ghost predicate MutualExclusion(s: State) {
    && (forall p, q :: Holds(s, p) && Holds(s, q) ==> p == q)
    && (forall p :: Holds(s, p) ==> s.file == ContentOf(p))
  }

  /** The process has judged the file stale and not yet retried. */
  predicate Reclaims(s: State, q: Process) {
    PhaseOf(s, q) == Reclaiming || PhaseOf(s, q) == Retrying
  }

  /** A process that has judged the file stale is never beside a holder. */
  ghost predicate Inv(s: State) {
    && (forall p :: Holds(s, p) ==> s.file == ContentOf(p))
    && (forall p, q :: Holds(s, p) && Reclaims(s, q) ==> false)
    && (forall p, q :: Holds(s, p) && PhaseOf(s, q).Judging? ==> p == Process(PhaseOf(s, q).pid, q.host))
  }

  lemma StepKeepsInv(s: State, e: Event)
    requires Inv(s) && CanStep(s, e) && Orderly(s, e)
    ensures Inv(Step(s, e))
  {
    var t := Step(s, e);
    OthersUntouched(s, e);
    forall p | Holds(t, p) ensures t.file == ContentOf(p) {
      HolderSurvives(s, e, p);
    }
    forall p, q | Holds(t, p) && Reclaims(t, q) ensures false {
      HolderSurvives(s, e, p);
      HoldersExclude(s, e, p, q);
    }
    forall p, q | Holds(t, p) && PhaseOf(t, q).Judging?
      ensures p == Process(PhaseOf(t, q).pid, q.host)
    {
      HolderSurvives(s, e, p);
      OnlyHolderIsJudged(s, e, p, q);
    }
  }

  /** After an orderly step the owner being judged is the live holder, if there is one. */
  lemma OnlyHolderIsJudged(s: State, e: Event, p: Process, q: Process)
    requires Inv(s) && CanStep(s, e) && Orderly(s, e)
    requires Holds(s, p) || (Creates(s, e) && p == e.p)
    requires Holds(Step(s, e), p) && PhaseOf(Step(s, e), q).Judging?
    ensures p == Process(PhaseOf(Step(s, e), q).pid, q.host)
  {
    OthersUntouched(s, e);
    if q != e.p {
      assert InWindow(s, q);
    }
  }

  /** After an orderly step nobody has judged the file of a live holder stale. */
  lemma HoldersExclude(s: State, e: Event, p: Process, q: Process)
    requires Inv(s) && CanStep(s, e) && Orderly(s, e)
    requires Holds(s, p) || (Creates(s, e) && p == e.p)
    requires Holds(Step(s, e), p)
    ensures !Reclaims(Step(s, e), q)
  {
    OthersUntouched(s, e);
    if q != e.p {
      assert Reclaims(s, q) ==> InWindow(s, q);
    } else if p != e.p {
      assert Holds(s, p);
      assert e.Reclaim? ==> Reclaims(s, q);
    }
  }

  lemma OthersUntouched(s: State, e: Event)
    requires CanStep(s, e)
    ensures forall q :: q != e.p ==> PhaseOf(Step(s, e), q) == PhaseOf(s, q)
  {
  }

  /** After an orderly step a holder's file is still its own. */
  lemma HolderSurvives(s: State, e: Event, p: Process)
    requires Inv(s) && CanStep(s, e) && Orderly(s, e) && Holds(Step(s, e), p)
    ensures Step(s, e).file == ContentOf(p)
    ensures Holds(s, p) || (Creates(s, e) && p == e.p)
  {
    OthersUntouched(s, e);
    if p != e.p {
      assert Holds(s, p);
      assert e.ReleaseUnlink? ==> Holds(s, e.p) && ContentOf(e.p) == ContentOf(p);
      assert e.Reclaim? ==> Reclaims(s, e.p);
    }
  }

  /** No process has begun; whatever the file holds was left by someone else. */
  predicate Fresh(s: State) {
    s.phases == map[]
  }

  // ---- exactly when exclusion holds ----

  /** A reclaiming process unlinks the file while some process holds the lock. */
  ghost predicate RobsHolder(s: State, e: Event) {
    e.Reclaim? && !e.fails && exists p :: Holds(s, p)
  }

  ghost predicate NeverRobs(s: State, events: seq<Event>)
    requires CanRun(s, events)
    decreases |events|
  {
    events == [] || (!RobsHolder(s, events[0]) && NeverRobs(Step(s, events[0]), events[1..]))
  }

  /** Exclusion in every state a run passes through. */
  ghost predicate AlwaysExclusive(s: State, events: seq<Event>)
    requires CanRun(s, events)
    decreases |events|
  {
    MutualExclusion(s) && (events == [] || AlwaysExclusive(Step(s, events[0]), events[1..]))
  }

  /** One step breaks exclusion exactly when it robs a holder. */
  lemma StepBreaksExactly(s: State, e: Event)
    requires MutualExclusion(s) && CanStep(s, e)
    ensures MutualExclusion(Step(s, e)) <==> !RobsHolder(s, e)
  {
    var t := Step(s, e);
    OthersUntouched(s, e);
    if RobsHolder(s, e) {
      var p :| Holds(s, p);
      assert Holds(t, p) && t.file == Absent;
    } else {
      forall p | Holds(t, p) ensures t.file == ContentOf(p) {
        assert p != e.p ==> Holds(s, p);
        assert e.ReleaseUnlink? ==> Holds(s, e.p);
      }
      forall p, q | Holds(t, p) && Holds(t, q) ensures p == q {
        assert ContentOf(p) == ContentOf(q);
      }
    }
  }

  /** From an exclusive state, exclusion holds throughout a run if and only if no step robs a holder. */
  lemma {:induction false} ExclusiveExactlyWhenNeverRobbed(s: State, events: seq<Event>)
    requires MutualExclusion(s) && CanRun(s, events)
    ensures AlwaysExclusive(s, events) <==> NeverRobs(s, events)
    decreases |events|
  {
    if events != [] {
      StepBreaksExactly(s, events[0]);
      if !RobsHolder(s, events[0]) {
        ExclusiveExactlyWhenNeverRobbed(Step(s, events[0]), events[1..]);
      } else {
        AlwaysStartsExclusive(Step(s, events[0]), events[1..]);
      }
    }
  }

  lemma AlwaysStartsExclusive(s: State, events: seq<Event>)
    requires CanRun(s, events)
    ensures AlwaysExclusive(s, events) ==> MutualExclusion(s)
  {
  }

  /** An orderly run never robs: its invariant keeps reclaiming processes and holders apart. */
  lemma {:induction false} OrderlyNeverRobs(s: State, events: seq<Event>)
    requires Inv(s) && CanRun(s, events) && OrderlyRun(s, events)
    ensures NeverRobs(s, events)
    decreases |events|
  {
    if events != [] {
      StepKeepsInv(s, events[0]);
      assert events[0].Reclaim? ==> Reclaims(s, events[0].p);
      OrderlyNeverRobs(Step(s, events[0]), events[1..]);
    }
  }

  lemma {:induction false} ExclusiveAtTheEnd(s: State, events: seq<Event>)
    requires CanRun(s, events) && AlwaysExclusive(s, events)
    ensures MutualExclusion(Run(s, events))
    decreases |events|
  {
    if events != [] {
      ExclusiveAtTheEnd(Step(s, events[0]), events[1..]);
    }
  }

  /** Safety of every orderly run, of any number of processes, from any initial file. */
  lemma MutualExclusionAlways(s: State, events: seq<Event>)
    requires Fresh(s) && CanRun(s, events) && OrderlyRun(s, events)
    ensures AlwaysExclusive(s, events) && MutualExclusion(Run(s, events))
  {
    OrderlyNeverRobs(s, events);
    ExclusiveExactlyWhenNeverRobbed(s, events);
    ExclusiveAtTheEnd(s, events);
  }

  /** While no holder is robbed, a release deletes nothing but the releaser's own lock file. */
  lemma ReleaseRemovesOwnFile(s: State, events: seq<Event>, p: Process)
    requires MutualExclusion(s) && CanRun(s, events) && NeverRobs(s, events)
    requires PhaseOf(Run(s, events), p) == Unlinking
    ensures Run(s, events).file == ContentOf(p)
    ensures Step(Run(s, events), ReleaseUnlink(p, false)).file == Absent
  {
    ExclusiveExactlyWhenNeverRobbed(s, events);
    ExclusiveAtTheEnd(s, events);
    assert Holds(Run(s, events), p);
  }

  // ---- reclaiming a dead holder's lock ----

  /** A step of p in which no call goes wrong: signals tell the truth. */
  predicate FaultFree(s: State, e: Event, p: Process) {
    && e.p == p
    && match e
       case CreateError(_) => false
       case Read(_, unreadable) => !unreadable
       case Signal(_, gone) =>
         PhaseOf(s, p).Judging? && (gone <==> !Live(s, Process(PhaseOf(s, p).pid, p.host)))
       case Reclaim(_, fails) => !fails
       case ReleaseRead(_, unreadable) => !unreadable
       case ReleaseUnlink(_, fails) => !fails
       case Die(_) => false
       case _ => true
  }

  predicate LoneRun(s: State, events: seq<Event>, p: Process)
    requires CanRun(s, events)
    decreases |events|
  {
    events == [] || (FaultFree(s, events[0], p) && LoneRun(Step(s, events[0]), events[1..], p))
  }

  /** How far p, finding the lock of a dead process, has come after k steps. */
  predicate AcquiringAt(s: State, p: Process, dead: Process, k: nat) {
    match k
    case 0 => PhaseOf(s, p) == Idle && s.file == ContentOf(dead)
    case 1 => PhaseOf(s, p) == Checking && s.file == ContentOf(dead)
    case 2 => PhaseOf(s, p) == Judging(dead.pid) && s.file == ContentOf(dead)
    case 3 => PhaseOf(s, p) == Reclaiming && s.file == ContentOf(dead)
    case 4 => PhaseOf(s, p) == Retrying && s.file == Absent
    case _ => Holds(s, p) && s.file == ContentOf(p)
  }

  const ACQUIRE_STEPS := 5

  lemma LoneStep(s: State, e: Event, p: Process, dead: Process, k: nat)
    requires p.host == dead.host && p != dead && !Live(s, dead)
    requires k < ACQUIRE_STEPS && AcquiringAt(s, p, dead, k) && CanStep(s, e) && FaultFree(s, e, p)
    ensures AcquiringAt(Step(s, e), p, dead, k + 1) && !Live(Step(s, e), dead)
  {
  }

  lemma LoneStepExists(s: State, p: Process, dead: Process, k: nat)
    requires p.host == dead.host && p != dead && !Live(s, dead) && k < ACQUIRE_STEPS && AcquiringAt(s, p, dead, k)
    ensures exists e :: CanStep(s, e) && FaultFree(s, e, p)
  {
    var e := match k
      case 0 => Create(p)
      case 1 => Read(p, false)
      case 2 => Signal(p, true)
      case 3 => Reclaim(p, false)
      case _ => Retry(p);
    assert CanStep(s, e) && FaultFree(s, e, p);
  }

  lemma {:induction false} LoneRunProgress(s: State, events: seq<Event>, p: Process, dead: Process, k: nat)
    requires p.host == dead.host && p != dead && !Live(s, dead) && AcquiringAt(s, p, dead, k)
    requires CanRun(s, events) && LoneRun(s, events, p) && k + |events| <= ACQUIRE_STEPS
    ensures AcquiringAt(Run(s, events), p, dead, k + |events|) && !Live(Run(s, events), dead)
    decreases |events|
  {
    if events != [] {
      LoneStep(s, events[0], p, dead, k);
      LoneRunProgress(Step(s, events[0]), events[1..], p, dead, k + 1);
    }
  }

  /**
    A crashed run's lock never blocks a later process of the same host that runs alone: until
    its fifth step it can always take another, and then it holds the lock.
   */
  lemma LoneAcquireSucceeds(s: State, dead: Process, p: Process, events: seq<Event>)
    requires s.file == ContentOf(dead) && !Live(s, dead)
    requires p.host == dead.host && p != dead && PhaseOf(s, p) == Idle
    requires CanRun(s, events) && LoneRun(s, events, p)
    ensures |events| < ACQUIRE_STEPS ==> exists e :: CanStep(Run(s, events), e) && FaultFree(Run(s, events), e, p)
    ensures |events| == ACQUIRE_STEPS ==> Holds(Run(s, events), p) && Run(s, events).file == ContentOf(p)
  {
    hide AcquiringAt, FaultFree, CanStep;
    if |events| <= ACQUIRE_STEPS {
      StartsIdle(s, p, dead);
      LoneRunProgress(s, events, p, dead, 0);
      if |events| < ACQUIRE_STEPS {
        LoneStepExists(Run(s, events), p, dead, |events|);
      } else {
        HoldsAtLast(Run(s, events), p, dead);
      }
    }
  }

  lemma StartsIdle(s: State, p: Process, dead: Process)
    requires PhaseOf(s, p) == Idle && s.file == ContentOf(dead)
    ensures AcquiringAt(s, p, dead, 0)
  {
  }

  lemma HoldsAtLast(s: State, p: Process, dead: Process)
    requires AcquiringAt(s, p, dead, ACQUIRE_STEPS)
    ensures Holds(s, p) && s.file == ContentOf(p)
  {
  }

  // ---- what any lone run comes to ----

  /** A file that p may take: none, a malformed one, or one of this host (or of no host) whose owner is not alive. */
  predicate Takeable(s: State, p: Process) {
    || s.file == Absent || s.file == Corrupt
    || (s.file.Owned? && (s.file.host == None || s.file.host == Some(p.host))
        && s.file.pid != p.pid && !Live(s, Process(s.file.pid, p.host)))
  }

  /** Where a lone run of p from state s can be, and what it has done to the file. */
  ghost predicate LoneStage(s: State, now: State, p: Process) {
    && (forall q :: q != p ==> PhaseOf(now, q) == PhaseOf(s, q) && Live(now, q) == Live(s, q))
    && match PhaseOf(now, p)
       case Idle => now.file == s.file
       case Checking => now.file == s.file != Absent && Live(now, p)
       case Judging(pid) =>
         now.file == s.file && s.file.Owned? && s.file.pid == pid && s.file.host in {None, Some(p.host)} && Live(now, p)
       case Reclaiming => now.file == s.file != Absent && Takeable(s, p)
       case Retrying => now.file == Absent && Takeable(s, p)
       case Holding => now.file == ContentOf(p) && Takeable(s, p)
       case Unlinking => now.file == ContentOf(p) && Takeable(s, p)
       case Refused => now.file == s.file && !Takeable(s, p)
       case Released => now.file == Absent && Takeable(s, p)
       case Gone => false
  }

  function StepsLeft(phase: Phase): nat {
    match phase
    case Idle => 7
    case Checking => 6
    case Judging(_) => 5
    case Reclaiming => 4
    case Retrying => 3
    case Holding => 2
    case Unlinking => 1
    case _ => 0
  }

  lemma LoneStageStep(s: State, now: State, e: Event, p: Process)
    requires LoneStage(s, now, p) && CanStep(now, e) && FaultFree(now, e, p)
    ensures LoneStage(s, Step(now, e), p)
    ensures StepsLeft(PhaseOf(Step(now, e), p)) < StepsLeft(PhaseOf(now, p))
  {
    OthersUntouched(now, e);
    var t := Step(now, e);
    forall q | q != p ensures PhaseOf(t, q) == PhaseOf(s, q) && Live(t, q) == Live(s, q) {
      assert Live(t, q) == Live(now, q);
    }
  }

  lemma LoneStageGoesOn(s: State, now: State, p: Process)
    requires LoneStage(s, now, p) && PhaseOf(now, p) != Refused && PhaseOf(now, p) != Released
    ensures exists e :: CanStep(now, e) && FaultFree(now, e, p)
  {
    var e := match PhaseOf(now, p)
      case Checking => Read(p, false)
      case Judging(pid) => Signal(p, !Live(now, Process(pid, p.host)))
      case Reclaiming => Reclaim(p, false)
      case Retrying => Retry(p)
      case Holding => ReleaseRead(p, false)
      case Unlinking => ReleaseUnlink(p, false)
      case _ => Create(p);
    assert CanStep(now, e) && FaultFree(now, e, p);
  }

  lemma {:induction false} LoneRunStays(s: State, now: State, events: seq<Event>, p: Process)
    requires LoneStage(s, now, p) && CanRun(now, events) && LoneRun(now, events, p)
    ensures LoneStage(s, Run(now, events), p)
    ensures |events| + StepsLeft(PhaseOf(Run(now, events), p)) <= StepsLeft(PhaseOf(now, p))
    decreases |events|
  {
    hide LoneStage, CanStep, Step, FaultFree, StepsLeft;
    if events != [] {
      LoneStageStep(s, now, events[0], p);
      LoneRunStays(s, Step(now, events[0]), events[1..], p);
    }
  }

  /**
    A process running alone without faults ends after at most seven steps.  From a takeable
    file it gets the lock, the file then names it, and its release leaves no file; from any
    other it is refused and the file stays what it was.
   */
  lemma LoneRunDecides(s: State, events: seq<Event>, p: Process)
    requires PhaseOf(s, p) == Idle && CanRun(s, events) && LoneRun(s, events, p)
    ensures LoneStage(s, Run(s, events), p) && |events| <= 7
    ensures var phase := PhaseOf(Run(s, events), p);
            phase != Refused && phase != Released ==>
              exists e :: CanStep(Run(s, events), e) && FaultFree(Run(s, events), e, p)
  {
    LoneRunStays(s, s, events, p);
    if PhaseOf(Run(s, events), p) != Refused && PhaseOf(Run(s, events), p) != Released {
      LoneStageGoesOn(s, Run(s, events), p);
    }
  }

  /** A release never touches a file that bears another pid. */
  lemma ReleaseSparesOthers(s: State, p: Process)
    requires PhaseOf(s, p) == Holding && !(s.file.Owned? && s.file.pid == p.pid)
    ensures Step(s, ReleaseRead(p, false)) == s.(phases := s.phases[p := Released])
  {
  }

  // ---- another host's lock ----

  /** Not past reading the file: neither judging it, nor reclaiming, nor holding. */
  predicate Outside(s: State, p: Process) {
    var phase := PhaseOf(s, p);
    phase == Idle || phase == Checking || phase == Refused || phase == Released || phase == Gone
  }

  ghost predicate AllOutside(s: State, host: string) {
    forall p: Process :: p.host != host ==> Outside(s, p)
  }

  predicate Elsewhere(e: Event, host: string) {
    e.p.host != host && (e.Read? ==> !e.unreadable)
  }

  lemma ForeignStep(s: State, e: Event, owner: Process)
    requires s.file == ContentOf(owner) && AllOutside(s, owner.host) && CanStep(s, e) && Elsewhere(e, owner.host)
    ensures Step(s, e).file == s.file && AllOutside(Step(s, e), owner.host)
    ensures e.Read? ==> PhaseOf(Step(s, e), e.p) == Refused
  {
    OthersUntouched(s, e);
    assert Outside(s, e.p);
  }

  /**
    Whatever processes of other hosts do, dead owner or not, a lock file they can read is
    never reclaimed, and none of them comes to hold the lock.
   */
  lemma {:induction false} ForeignLockIsKept(s: State, events: seq<Event>, owner: Process)
    requires s.file == ContentOf(owner) && AllOutside(s, owner.host) && CanRun(s, events)
    requires forall i :: 0 <= i < |events| ==> Elsewhere(events[i], owner.host)
    ensures Run(s, events).file == s.file
    ensures forall p: Process :: p.host != owner.host ==> !Holds(Run(s, events), p)
    decreases |events|
  {
    hide CanStep, Step, Elsewhere;
    if events != [] {
      ForeignStep(s, events[0], owner);
      ForeignLockIsKept(Step(s, events[0]), events[1..], owner);
    } else {
      assert forall p: Process :: p.host != owner.host ==> Outside(s, p);
    }
  }

  // ---- why the proviso is needed ----

  lemma RunOfOne(s: State, e: Event, rest: seq<Event>)
    requires CanStep(s, e)
    ensures CanRun(s, [e] + rest) <==> CanRun(Step(s, e), rest)
    ensures CanRun(s, [e] + rest) ==> Run(s, [e] + rest) == Run(Step(s, e), rest)
  {
    assert ([e] + rest)[1..] == rest;
  }

  const DEAD := Process(1, "db")
  const FIRST := Process(2, "db")
  const SECOND := Process(3, "db")

  /** Two processes judge the same dead lock stale; the slower one unlinks the faster one's lock. */
  const RECLAIM_RACE := [
    Create(FIRST), Read(FIRST, false), Signal(FIRST, true),
    Create(SECOND), Read(SECOND, false), Signal(SECOND, true),
    Reclaim(FIRST, false), Retry(FIRST), Reclaim(SECOND, false), Retry(SECOND)]

  lemma ReclaimRaceBreaksExclusion()
    ensures var s := State(ContentOf(DEAD), map[]);
            CanRun(s, RECLAIM_RACE) && !MutualExclusion(Run(s, RECLAIM_RACE))
  {
    var s := State(ContentOf(DEAD), map[]);
    var s3 := Run3(s, Create(FIRST), Read(FIRST, false), Signal(FIRST, true));
    var s6 := Run3(s3, Create(SECOND), Read(SECOND, false), Signal(SECOND, true));
    var s9 := Run3(s6, Reclaim(FIRST, false), Retry(FIRST), Reclaim(SECOND, false));
    var t := Step(s9, Retry(SECOND));
    assert CanRun(t, []) && Run(t, []) == t;
    RunOfOne(s9, Retry(SECOND), []);
    RunOfThree(s6, Reclaim(FIRST, false), Retry(FIRST), Reclaim(SECOND, false), [Retry(SECOND)]);
    RunOfThree(s3, Create(SECOND), Read(SECOND, false), Signal(SECOND, true), RECLAIM_RACE[6..]);
    RunOfThree(s, Create(FIRST), Read(FIRST, false), Signal(FIRST, true), RECLAIM_RACE[3..]);
    assert [Retry(SECOND)] == [Retry(SECOND)] + [];
    assert RECLAIM_RACE[6..] == [Reclaim(FIRST, false), Retry(FIRST), Reclaim(SECOND, false)] + [Retry(SECOND)];
    assert RECLAIM_RACE[3..] == [Create(SECOND), Read(SECOND, false), Signal(SECOND, true)] + RECLAIM_RACE[6..];
    assert RECLAIM_RACE == [Create(FIRST), Read(FIRST, false), Signal(FIRST, true)] + RECLAIM_RACE[3..];
    assert Holds(t, FIRST) && Holds(t, SECOND);
  }

  /** A live holder's file that cannot be read for once counts as stale and is deleted. */
  const UNREADABLE_RACE := [
    Create(FIRST), Create(SECOND), Read(SECOND, true), Reclaim(SECOND, false), Retry(SECOND)]

  lemma UnreadableFileBreaksExclusion()
    ensures CanRun(State(Absent, map[]), UNREADABLE_RACE)
    ensures !MutualExclusion(Run(State(Absent, map[]), UNREADABLE_RACE))
  {
    var s := State(Absent, map[]);
    var s3 := Run3(s, Create(FIRST), Create(SECOND), Read(SECOND, true));
    var s4 := Step(s3, Reclaim(SECOND, false));
    var t := Step(s4, Retry(SECOND));
    assert CanRun(t, []) && Run(t, []) == t;
    RunOfOne(s4, Retry(SECOND), []);
    RunOfOne(s3, Reclaim(SECOND, false), [Retry(SECOND)]);
    RunOfThree(s, Create(FIRST), Create(SECOND), Read(SECOND, true), UNREADABLE_RACE[3..]);
    assert [Retry(SECOND)] == [Retry(SECOND)] + [];
    assert UNREADABLE_RACE[3..] == [Reclaim(SECOND, false)] + [Retry(SECOND)];
    assert UNREADABLE_RACE == [Create(FIRST), Create(SECOND), Read(SECOND, true)] + UNREADABLE_RACE[3..];
    assert Holds(t, FIRST) && Holds(t, SECOND);
  }

  function Run3(s: State, a: Event, b: Event, c: Event): State
    requires CanStep(s, a) && CanStep(Step(s, a), b) && CanStep(Step(Step(s, a), b), c)
  {
    Step(Step(Step(s, a), b), c)
  }

  lemma RunOfThree(s: State, a: Event, b: Event, c: Event, rest: seq<Event>)
    requires CanStep(s, a) && CanStep(Step(s, a), b) && CanStep(Step(Step(s, a), b), c)
    ensures CanRun(s, [a, b, c] + rest) <==> CanRun(Run3(s, a, b, c), rest)
    ensures CanRun(s, [a, b, c] + rest) ==> Run(s, [a, b, c] + rest) == Run(Run3(s, a, b, c), rest)
  {
    hide Step, CanStep;
    RunOfOne(Step(Step(s, a), b), c, rest);
    RunOfOne(Step(s, a), b, [c] + rest);
    RunOfOne(s, a, [b, c] + rest);
    assert [a, b, c] + rest == [a] + ([b, c] + rest);
    assert [b, c] + rest == [b] + ([c] + rest);
  }
}
