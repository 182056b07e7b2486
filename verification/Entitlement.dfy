/**
  entitlement.service.ts as transactions against shared rows.  Any number of transactions
  interleave, statement by statement; each sees committed rows only, writes become visible
  at commit, and the organization row lock is held from SELECT ... FOR UPDATE to the end
  of the transaction.  Removals (block, deactivate) never take that lock.
 */
module Entitlement {
  import opened Wrappers

  datatype Kind = Carriers | Drivers

  /** A driver is Active or Inactive; a carrier may be any of the four. */
  datatype Status = Pending | Active | Blocked | Inactive

  datatype Key = Key(kind: Kind, id: nat)

  type Table = map<Key, Status>

  datatype SubscriptionStatus = Trial | ActiveSubscription | ExpiredSubscription | Cancelled

  datatype Organization = Organization(
    status: SubscriptionStatus, trialEndsAt: Option<int>,
    maxCarriers: Option<nat>, maxDrivers: Option<nat>)

  function LimitOf(org: Organization, kind: Kind): Option<nat> {
    if kind.Carriers? then org.maxCarriers else org.maxDrivers
  }

  /** resolveEffectiveStatus: a trial past its end is expired whatever the stored status says. */
  function EffectiveStatus(org: Organization, now: int): SubscriptionStatus {
    if org.status == Trial && org.trialEndsAt.Some? && now >= org.trialEndsAt.value then ExpiredSubscription
    else org.status
  }

  predicate Counted(kind: Kind, status: Status) {
    status == Active || (kind.Carriers? && status == Pending)
  }

  function CountedKeys(table: Table, kind: Kind): set<Key> {
    set key | key in table && key.kind == kind && Counted(kind, table[key])
  }

  function Count(table: Table, kind: Kind): nat {
    |CountedKeys(table, kind)|
  }

  predicate HasRoom(org: Organization, table: Table, kind: Kind) {
    LimitOf(org, kind).Some? ==> Count(table, kind) < LimitOf(org, kind).value
  }

  // ---- transactions ----

  datatype Addition = Create | Activate | Reactivate

  datatype Phase =
    | Started                    // before the unlocked quick read
    | Limited                    // quick read found a limit; waiting for the row lock
    | Locked                     // holds the row lock, has not counted yet
    | Admitted                   // counted under the lock and found room
    | Unlimited                  // quick read found no limit: no lock, no count
    | Written(locked: bool)      // row written, not committed
    | Removing(to: Status)       // a removal that has read its row as Active
    | Done

  datatype Tx = Tx(op: Addition, key: Key, phase: Phase)

  datatype Request =
    | Add(key: Key, status: Status, commits: bool)
    | Remove(key: Key, status: Status)
    | Withdraw
    | Convert(org: Organization)

  /** One decided request, in the order the decisions take effect. */
  datatype Entry = Entry(tx: nat, locked: bool, request: Request, accepted: bool)

  datatype State = State(
    org: Organization, table: Table, lock: Option<nat>, txs: map<nat, Tx>,
    log: seq<Entry>, lockOrder: seq<nat>)

  datatype Event =
    | Begin(tx: nat, op: Addition, key: Key)
    | Quick(tx: nat, now: int)
    | TakeLock(tx: nat)
    | CountRows(tx: nat)
    | Write(tx: nat)
    | Commit(tx: nat)
    | Abort(tx: nat)
    | BeginRemoval(tx: nat, key: Key, to: Status)
    | ConvertSubscription(tx: nat, org: Organization)

  function PhaseOf(s: State, tx: nat): Phase {
    if tx in s.txs then s.txs[tx].phase else Done
  }

  /** The status an addition gives its row. */
  function StatusAfter(op: Addition, kind: Kind): Status {
    if op.Create? && kind.Carriers? then Pending else Active
  }

  predicate CanStep(s: State, e: Event) {
    match e
    case Begin(tx, op, key) => tx !in s.txs && (op.Activate? ==> key.kind.Carriers?)
    case Quick(tx, _) => PhaseOf(s, tx) == Started
    case TakeLock(tx) => PhaseOf(s, tx) == Limited && s.lock == None
    case CountRows(tx) => PhaseOf(s, tx) == Locked
    case Write(tx) => PhaseOf(s, tx) == Admitted || PhaseOf(s, tx) == Unlimited
    case Commit(tx) => PhaseOf(s, tx).Written? || PhaseOf(s, tx).Removing?
    case Abort(tx) => PhaseOf(s, tx) != Done
    case BeginRemoval(tx, key, to) => tx !in s.txs && (to == Blocked || to == Inactive)
    case ConvertSubscription(tx, org) => tx !in s.txs && s.lock == None
  }

  function SetPhase(s: State, tx: nat, phase: Phase): State
    requires tx in s.txs
  {
    s.(txs := s.txs[tx := s.txs[tx].(phase := phase)])
  }

  /** The transaction ends: it drops the row lock if it holds it, and its decision is recorded. */
  function Finish(s: State, tx: nat, request: Request, accepted: bool): State
    requires tx in s.txs
  {
    var held := s.lock == Some(tx);
    SetPhase(s, tx, Done).(
      lock := if held then None else s.lock,
      log := s.log + [Entry(tx, held, request, accepted)])
  }

  /** Whether the row is in a state the write accepts; otherwise the transaction throws. */
  predicate MayWrite(table: Table, op: Addition, key: Key) {
    match op
    case Create => key !in table
    case Activate => key in table
    case Reactivate => key in table && (table[key] == Blocked || table[key] == Inactive)
  }

  function Step(s: State, e: Event): State
    requires CanStep(s, e)
  {
    match e
    case Begin(tx, op, key) =>
      // activate() reads the carrier, and insists on PENDING, before the entitlement check.
      var ready := op.Activate? ==> key in s.table && s.table[key] == Pending;
      s.(txs := s.txs[tx := Tx(op, key, if ready then Started else Done)])
    case Quick(tx, now) =>
      var t := s.txs[tx];
      if t.op.Create? && EffectiveStatus(s.org, now) == ExpiredSubscription then SetPhase(s, tx, Done)
      else SetPhase(s, tx, if LimitOf(s.org, t.key.kind) == None then Unlimited else Limited)
    case TakeLock(tx) =>
      SetPhase(s, tx, Locked).(lock := Some(tx), lockOrder := s.lockOrder + [tx])
    case CountRows(tx) =>
      var t := s.txs[tx];
      if HasRoom(s.org, s.table, t.key.kind) then SetPhase(s, tx, Admitted)
      else Finish(s, tx, Add(t.key, StatusAfter(t.op, t.key.kind), false), false)
    case Write(tx) =>
      var t := s.txs[tx];
      if MayWrite(s.table, t.op, t.key) then SetPhase(s, tx, Written(t.phase == Admitted))
      else Finish(s, tx, Add(t.key, StatusAfter(t.op, t.key.kind), false), true)
    case Commit(tx) =>
      var t := s.txs[tx];
      if t.phase.Removing? then
        Finish(s, tx, Remove(t.key, t.phase.to), true).(table := s.table[t.key := t.phase.to])
      else
        var status := StatusAfter(t.op, t.key.kind);
        Finish(s, tx, Add(t.key, status, true), true).(table := s.table[t.key := status])
    case Abort(tx) =>
      var t := s.txs[tx];
      if t.phase == Admitted || t.phase == Unlimited || t.phase.Written? then
        Finish(s, tx, Add(t.key, StatusAfter(t.op, t.key.kind), false), true)
      else
        Finish(s, tx, Withdraw, true)
    case BeginRemoval(tx, key, to) =>
      var ready := key in s.table && s.table[key] == Active;
      s.(txs := s.txs[tx := Tx(Create, key, if ready then Removing(to) else Done)])
    case ConvertSubscription(tx, org) =>
      s.(org := org, txs := s.txs[tx := Tx(Create, Key(Carriers, 0), Done)],
         log := s.log + [Entry(tx, true, Convert(org), true)], lockOrder := s.lockOrder + [tx])
  }

  // ---- runs ----

  predicate CanRun(s: State, events: seq<Event>)
    decreases |events|
  {
    events == [] || (CanStep(s, events[0]) && CanRun(Step(s, events[0]), events[1..]))
  }

  function Run(s: State, events: seq<Event>): State
    requires CanRun(s, events)
    decreases |events|
  {
    if events == [] then s else Run(Step(s, events[0]), events[1..])
  }

  function Initial(org: Organization, table: Table): State {
    State(org, table, None, map[], [], [])
  }

  ghost predicate WithinLimits(org: Organization, table: Table) {
    forall kind :: LimitOf(org, kind).Some? ==> Count(table, kind) <= LimitOf(org, kind).value
  }

  /** The transaction adds rows of this kind without a lock. */
  predicate AddsUnlocked(s: State, tx: nat, kind: Kind) {
    tx in s.txs && s.txs[tx].key.kind == kind
    && (s.txs[tx].phase == Unlimited || s.txs[tx].phase == Written(false))
  }

  /**
    A conversion is safe when the new limits cover the current counts, and no addition that
    saw the old, absent limit is still open.
   */
  ghost predicate SafeStep(s: State, e: Event) {
    e.ConvertSubscription? ==>
      && WithinLimits(e.org, s.table)
      && forall tx, kind :: AddsUnlocked(s, tx, kind) ==> LimitOf(e.org, kind) == None
  }

  ghost predicate SafeRun(s: State, events: seq<Event>)
    requires CanRun(s, events)
    decreases |events|
  {
    events == [] || (SafeStep(s, events[0]) && SafeRun(Step(s, events[0]), events[1..]))
  }

  predicate NoConversions(events: seq<Event>) {
    forall i :: 0 <= i < |events| ==> !events[i].ConvertSubscription?
  }

  lemma {:induction false} FixedLimitsAreSafe(s: State, events: seq<Event>)
    requires CanRun(s, events) && NoConversions(events)
    ensures SafeRun(s, events)
    decreases |events|
  {
    if events != [] {
      FixedLimitsAreSafe(Step(s, events[0]), events[1..]);
    }
  }

  // ---- the same requests, one at a time ----

  datatype Serial = Serial(org: Organization, table: Table, decisions: seq<bool>)

  function ServeOne(w: Serial, request: Request): Serial {
    match request
    case Add(key, status, commits) =>
      var room := HasRoom(w.org, w.table, key.kind);
      Serial(w.org, if room && commits then w.table[key := status] else w.table, w.decisions + [room])
    case Remove(key, status) => Serial(w.org, w.table[key := status], w.decisions + [true])
    case Withdraw => w.(decisions := w.decisions + [true])
    case Convert(org) => Serial(org, w.table, w.decisions + [true])
  }

  function Serve(w: Serial, log: seq<Entry>): Serial
    decreases |log|
  {
    if log == [] then w else ServeOne(Serve(w, log[..|log| - 1]), log[|log| - 1].request)
  }

  function Decisions(log: seq<Entry>): seq<bool>
    decreases |log|
  {
    if log == [] then [] else Decisions(log[..|log| - 1]) + [log[|log| - 1].accepted]
  }

  function LockedTxs(log: seq<Entry>): seq<nat>
    decreases |log|
  {
    if log == [] then [] else
      var earlier := LockedTxs(log[..|log| - 1]);
      if log[|log| - 1].locked then earlier + [log[|log| - 1].tx] else earlier
  }

  lemma LogGrows(w: Serial, log: seq<Entry>, e: Entry)
    ensures Serve(w, log + [e]) == ServeOne(Serve(w, log), e.request)
    ensures Decisions(log + [e]) == Decisions(log) + [e.accepted]
    ensures LockedTxs(log + [e]) == if e.locked then LockedTxs(log) + [e.tx] else LockedTxs(log)
  {
    assert (log + [e])[..|log|] == log;
  }

  // ---- counting ----

  lemma CountAfterWrite(table: Table, key: Key, status: Status, kind: Kind)
    ensures key.kind != kind ==> Count(table[key := status], kind) == Count(table, kind)
    ensures Count(table[key := status], kind) <= Count(table, kind) + 1
    ensures !Counted(kind, status) ==> Count(table[key := status], kind) <= Count(table, kind)
    ensures key in table && key.kind == kind && Counted(kind, table[key]) ==>
              Count(table[key := status], kind) <= Count(table, kind)
  {
    KeysAfterWrite(table, key, status, kind);
    hide CountedKeys;
    var before, after := CountedKeys(table, kind), CountedKeys(table[key := status], kind);
    SubsetSize(after, before + {key});
    if after <= before {
      SubsetSize(after, before);
    }
  }

  lemma KeysAfterWrite(table: Table, key: Key, status: Status, kind: Kind)
    ensures var before, after := CountedKeys(table, kind), CountedKeys(table[key := status], kind);
            && after <= before + {key}
            && (key.kind != kind ==> after == before)
            && (!Counted(kind, status) || (key in table && key.kind == kind && Counted(kind, table[key])) ==>
                  after <= before)
  {
  }

  lemma {:induction false} SubsetSize<T>(a: set<T>, b: set<T>)
    requires a <= b
    ensures |a| <= |b|
    decreases a
  {
    if x :| x in a {
      SubsetSize(a - {x}, b - {x});
    }
  }

  // ---- what every step keeps ----

  predicate HoldsLock(phase: Phase) {
    phase == Locked || phase == Admitted || phase == Written(true)
  }

  /** Counted under the lock: the room found then is still there. */
  predicate Reserved(phase: Phase) {
    phase == Admitted || phase == Written(true)
  }

  ghost predicate Inv(s: State) {
    && WithinLimits(s.org, s.table)
    && (forall tx: nat :: s.lock == Some(tx) <==> HoldsLock(PhaseOf(s, tx)))
    && (forall tx :: Reserved(PhaseOf(s, tx)) ==> HasRoom(s.org, s.table, s.txs[tx].key.kind))
    && (forall tx, kind :: AddsUnlocked(s, tx, kind) ==> LimitOf(s.org, kind) == None)
    && (forall tx :: PhaseOf(s, tx).Removing? ==> PhaseOf(s, tx).to == Blocked || PhaseOf(s, tx).to == Inactive)
  }

  lemma OthersUntouched(s: State, e: Event)
    requires CanStep(s, e)
    ensures forall tx :: tx != e.tx ==> PhaseOf(Step(s, e), tx) == PhaseOf(s, tx)
    ensures forall tx :: tx != e.tx && tx in s.txs ==> tx in Step(s, e).txs && Step(s, e).txs[tx] == s.txs[tx]
    ensures forall tx :: tx != e.tx && tx in Step(s, e).txs ==> tx in s.txs
  {
  }

  /** The row counts after a step, given what the writer's phase promises. */
  lemma TableAfter(s: State, e: Event, kind: Kind)
    requires Inv(s) && CanStep(s, e)
    ensures Step(s, e).table != s.table ==> e.Commit?
    ensures e.Commit? && PhaseOf(s, e.tx).Removing? ==> Count(Step(s, e).table, kind) <= Count(s.table, kind)
    ensures e.Commit? && PhaseOf(s, e.tx).Written? ==>
              && Count(Step(s, e).table, kind) <= Count(s.table, kind) + 1
              && (s.txs[e.tx].key.kind != kind ==> Count(Step(s, e).table, kind) == Count(s.table, kind))
  {
    if e.Commit? {
      var t := s.txs[e.tx];
      CountAfterWrite(s.table, t.key, if t.phase.Removing? then t.phase.to else StatusAfter(t.op, t.key.kind), kind);
    }
  }

  lemma StepKeepsLimits(s: State, e: Event)
    requires Inv(s) && CanStep(s, e) && SafeStep(s, e)
    ensures WithinLimits(Step(s, e).org, Step(s, e).table)
  {
    hide CountedKeys;
    forall kind | LimitOf(Step(s, e).org, kind).Some?
      ensures Count(Step(s, e).table, kind) <= LimitOf(Step(s, e).org, kind).value
    {
      TableAfter(s, e, kind);
      if e.Commit? && PhaseOf(s, e.tx).Written? && s.txs[e.tx].key.kind == kind {
        assert PhaseOf(s, e.tx) == Written(false) ==> AddsUnlocked(s, e.tx, kind);
        assert PhaseOf(s, e.tx) == Written(true) ==> Reserved(PhaseOf(s, e.tx));
      }
    }
  }

  lemma StepKeepsLock(s: State, e: Event)
    requires Inv(s) && CanStep(s, e)
    ensures forall tx: nat :: Step(s, e).lock == Some(tx) <==> HoldsLock(PhaseOf(Step(s, e), tx))
  {
    hide HasRoom, EffectiveStatus, MayWrite, WithinLimits;
    OthersUntouched(s, e);
    assert HoldsLock(PhaseOf(s, e.tx)) <==> s.lock == Some(e.tx);
  }

  lemma StepKeepsRoom(s: State, e: Event, tx: nat)
    requires Inv(s) && CanStep(s, e) && SafeStep(s, e)
    requires Reserved(PhaseOf(Step(s, e), tx))
    ensures HasRoom(Step(s, e).org, Step(s, e).table, Step(s, e).txs[tx].key.kind)
  {
    hide CountedKeys, EffectiveStatus, MayWrite, WithinLimits;
    OthersUntouched(s, e);
    if tx != e.tx {
      assert Reserved(PhaseOf(s, tx)) && s.lock == Some(tx);
      assert !HoldsLock(PhaseOf(s, e.tx));
      TableAfter(s, e, s.txs[tx].key.kind);
      assert PhaseOf(s, e.tx) == Written(false) ==> AddsUnlocked(s, e.tx, s.txs[e.tx].key.kind);
    } else {
      assert e.Write? ==> Reserved(PhaseOf(s, tx)) || PhaseOf(s, tx) == Unlimited;
    }
  }

  lemma StepKeepsUnlocked(s: State, e: Event, tx: nat, kind: Kind)
    requires Inv(s) && CanStep(s, e) && SafeStep(s, e) && AddsUnlocked(Step(s, e), tx, kind)
    ensures LimitOf(Step(s, e).org, kind) == None
  {
    hide CountedKeys, HasRoom, EffectiveStatus, MayWrite, WithinLimits;
    OthersUntouched(s, e);
    assert tx != e.tx ==> AddsUnlocked(s, tx, kind);
    assert e.Write? && tx == e.tx ==> AddsUnlocked(s, tx, kind);
  }

  lemma StepKeepsInv(s: State, e: Event)
    requires Inv(s) && CanStep(s, e) && SafeStep(s, e)
    ensures Inv(Step(s, e))
  {
    hide WithinLimits, HasRoom, EffectiveStatus, MayWrite;
    StepKeepsLimits(s, e);
    StepKeepsLock(s, e);
    forall tx | Reserved(PhaseOf(Step(s, e), tx))
      ensures HasRoom(Step(s, e).org, Step(s, e).table, Step(s, e).txs[tx].key.kind)
    {
      StepKeepsRoom(s, e, tx);
    }
    forall tx, kind | AddsUnlocked(Step(s, e), tx, kind) ensures LimitOf(Step(s, e).org, kind) == None {
      StepKeepsUnlocked(s, e, tx, kind);
    }
    OthersUntouched(s, e);
  }

  lemma {:induction false} SafeRunsKeepInv(s: State, events: seq<Event>)
    requires Inv(s) && CanRun(s, events) && SafeRun(s, events)
    ensures Inv(Run(s, events))
    decreases |events|
  {
    if events != [] {
      StepKeepsInv(s, events[0]);
      SafeRunsKeepInv(Step(s, events[0]), events[1..]);
    }
  }

  /** No interleaving of additions and removals ever commits more rows than the limit allows. */
  lemma LimitNeverExceeded(org: Organization, table: Table, events: seq<Event>)
    requires WithinLimits(org, table)
    requires CanRun(Initial(org, table), events) && SafeRun(Initial(org, table), events)
    ensures WithinLimits(Run(Initial(org, table), events).org, Run(Initial(org, table), events).table)
  {
    SafeRunsKeepInv(Initial(org, table), events);
  }

  // ---- serializability ----

  ghost predicate Serialized(w: Serial, s: State) {
    && Serve(w, s.log) == Serial(s.org, s.table, w.decisions + Decisions(s.log))
    && s.lockOrder == if s.lock.Some? then LockedTxs(s.log) + [s.lock.value] else LockedTxs(s.log)
  }

  lemma StepIsSerial(w: Serial, s: State, e: Event)
    requires Inv(s) && CanStep(s, e) && Serialized(w, s)
    ensures Serialized(w, Step(s, e))
  {
    hide Step, CanStep, Inv, ServeOne, Decisions, LockedTxs, Serve, SafeStep;
    var t := Step(s, e);
    LogEffect(s, e);
    if |t.log| > |s.log| {
      var entry := t.log[|s.log|];
      LogGrows(w, s.log, entry);
      EntryIsRight(s, e);
      assert w.decisions + Decisions(t.log) == (w.decisions + Decisions(s.log)) + [entry.accepted];
    }
  }

  /** A step that decides nothing changes no committed row, and at most takes the lock. */
  lemma LogEffect(s: State, e: Event)
    requires CanStep(s, e)
    ensures var t := Step(s, e);
            || (t.log == s.log && t.org == s.org && t.table == s.table
                && ((t.lock == s.lock && t.lockOrder == s.lockOrder)
                    || (s.lock == None && t.lock == Some(e.tx) && t.lockOrder == s.lockOrder + [e.tx])))
            || (|t.log| == |s.log| + 1 && t.log == s.log + [t.log[|s.log|]])
  {
    hide EffectiveStatus, MayWrite, HasRoom;
  }

  /** The recorded decision is the one the committed state dictates at that moment. */
  lemma EntryIsRight(s: State, e: Event)
    requires Inv(s) && CanStep(s, e) && |Step(s, e).log| > |s.log|
    ensures var t := Step(s, e);
            var entry := t.log[|s.log|];
            && (forall decisions :: ServeOne(Serial(s.org, s.table, decisions), entry.request)
                                    == Serial(t.org, t.table, decisions + [entry.accepted]))
            && t.lock == (if entry.locked then None else s.lock)
            && t.lockOrder == (if e.ConvertSubscription? then s.lockOrder + [e.tx] else s.lockOrder)
            && entry.tx == e.tx && (e.ConvertSubscription? ==> entry.locked)
            && (entry.locked ==> s.lock == if e.ConvertSubscription? then None else Some(e.tx))
  {
    hide WithinLimits, EffectiveStatus, MayWrite, CountedKeys;
    if e.tx in s.txs {
      var kind := s.txs[e.tx].key.kind;
      assert AddsUnlocked(s, e.tx, kind) ==> LimitOf(s.org, kind) == None;
      assert Reserved(PhaseOf(s, e.tx)) ==> HasRoom(s.org, s.table, kind);
    }
  }

  lemma {:induction false} RunsAreSerial(w: Serial, s: State, events: seq<Event>)
    requires Inv(s) && CanRun(s, events) && SafeRun(s, events) && Serialized(w, s)
    ensures Serialized(w, Run(s, events))
    decreases |events|
  {
    if events != [] {
      StepKeepsInv(s, events[0]);
      StepIsSerial(w, s, events[0]);
      RunsAreSerial(w, Step(s, events[0]), events[1..]);
    }
  }

  /**
    Every decision and the committed rows are those of serving the logged requests one at a
    time, and the locked requests are served in the order their locks were taken.
   */
  lemma DecisionsAreSerial(org: Organization, table: Table, events: seq<Event>)
    requires WithinLimits(org, table)
    requires CanRun(Initial(org, table), events) && SafeRun(Initial(org, table), events)
    ensures var s := Run(Initial(org, table), events);
            && Serve(Serial(org, table, []), s.log) == Serial(s.org, s.table, Decisions(s.log))
            && LockedTxs(s.log) <= s.lockOrder
            && |s.lockOrder| <= |LockedTxs(s.log)| + 1
  {
    var w := Serial(org, table, []);
    assert Serialized(w, Initial(org, table));
    RunsAreSerial(w, Initial(org, table), events);
    var s := Run(Initial(org, table), events);
    assert w.decisions + Decisions(s.log) == Decisions(s.log);
  }

  // ---- the columns and statuses themselves ----

  /** The rows each limit column counts, said of the columns and statuses directly. */
  ghost predicate ColumnsHold(org: Organization, table: Table) {
    && (org.maxCarriers.Some? ==>
          |set key | key in table && key.kind == Carriers && (table[key] == Pending || table[key] == Active)|
          <= org.maxCarriers.value)
    && (org.maxDrivers.Some? ==>
          |set key | key in table && key.kind == Drivers && table[key] == Active| <= org.maxDrivers.value)
  }

  lemma CarrierRows(table: Table)
    ensures CountedKeys(table, Carriers) ==
            set key | key in table && key.kind == Carriers && (table[key] == Pending || table[key] == Active)
  {
  }

  lemma DriverRows(table: Table)
    ensures CountedKeys(table, Drivers) == set key | key in table && key.kind == Drivers && table[key] == Active
  {
  }

  lemma ColumnsAreLimits(org: Organization, table: Table)
    ensures ColumnsHold(org, table) <==> WithinLimits(org, table)
  {
    hide CountedKeys;
    CarrierRows(table);
    DriverRows(table);
    if ColumnsHold(org, table) {
      forall kind | LimitOf(org, kind).Some? ensures Count(table, kind) <= LimitOf(org, kind).value {
        assert kind == Carriers || kind == Drivers;
      }
    }
    assert LimitOf(org, Carriers) == org.maxCarriers && LimitOf(org, Drivers) == org.maxDrivers;
  }

  /** With fixed columns, neither is ever exceeded, whatever interleaves. */
  lemma ColumnsNeverExceeded(org: Organization, table: Table, events: seq<Event>)
    requires ColumnsHold(org, table) && NoConversions(events) && CanRun(Initial(org, table), events)
    ensures ColumnsHold(org, Run(Initial(org, table), events).table)
  {
    hide ColumnsHold, WithinLimits;
    ColumnsAreLimits(org, table);
    FixedLimitsAreSafe(Initial(org, table), events);
    LimitNeverExceeded(org, table, events);
    OrganizationStays(Initial(org, table), events);
    ColumnsAreLimits(org, Run(Initial(org, table), events).table);
  }

  lemma {:induction false} OrganizationStays(s: State, events: seq<Event>)
    requires CanRun(s, events) && NoConversions(events)
    ensures Run(s, events).org == s.org
    decreases |events|
  {
    if events != [] {
      OrganizationStays(Step(s, events[0]), events[1..]);
    }
  }

  /** The first, unlocked read: who is turned away, who must take the lock, who goes on without it. */
  lemma QuickReadExactly(s: State, tx: nat, now: int)
    requires PhaseOf(s, tx) == Started
    ensures var t, org, op, kind := Step(s, Quick(tx, now)), s.org, s.txs[tx].op, s.txs[tx].key.kind;
            var expired := org.status == ExpiredSubscription
                           || (org.status == Trial && org.trialEndsAt.Some? && org.trialEndsAt.value <= now);
            && PhaseOf(t, tx) == (
                 if op == Create && expired then Done
                 else if kind == Carriers && org.maxCarriers.Some? then Limited
                 else if kind == Drivers && org.maxDrivers.Some? then Limited
                 else Unlimited)
            && t.table == s.table && t.log == s.log && t.lock == s.lock
  {
  }

  /** The count under the lock refuses exactly at or above the column of that kind, whatever the addition. */
  lemma LockedCountRefusesExactlyWhenFull(s: State, tx: nat)
    requires PhaseOf(s, tx) == Locked
    ensures var t, key := Step(s, CountRows(tx)), s.txs[tx].key;
            var full := if key.kind == Carriers then
                s.org.maxCarriers.Some? && s.org.maxCarriers.value
                  <= |set k | k in s.table && k.kind == Carriers && (s.table[k] == Pending || s.table[k] == Active)|
              else
                s.org.maxDrivers.Some? && s.org.maxDrivers.value
                  <= |set k | k in s.table && k.kind == Drivers && s.table[k] == Active|;
            && t.table == s.table
            && (full ==> PhaseOf(t, tx) == Done && |t.log| == |s.log| + 1 && !t.log[|s.log|].accepted)
            && (!full ==> PhaseOf(t, tx) == Admitted && t.log == s.log)
  {
    CarrierRows(s.table);
    DriverRows(s.table);
  }

  /** What commits: a new carrier is pending, any other addition active, a removal what it asked for. */
  lemma CommittedStatus(s: State, tx: nat)
    requires PhaseOf(s, tx).Written? || PhaseOf(s, tx).Removing?
    ensures var t, tx0 := Step(s, Commit(tx)), s.txs[tx];
            && t.table == s.table[tx0.key :=
                 if tx0.phase.Removing? then tx0.phase.to
                 else if tx0.op == Create && tx0.key.kind == Carriers then Pending else Active]
            && PhaseOf(t, tx) == Done && t.lock == if s.lock == Some(tx) then None else s.lock
  {
  }

  /** The rows each request insists on: pending to activate, active to remove, removed to reactivate, none to create. */
  lemma RowsInsistedOn(s: State, tx: nat, op: Addition, key: Key, to: Status)
    ensures CanStep(s, Begin(tx, op, key)) ==>
              (PhaseOf(Step(s, Begin(tx, op, key)), tx) == Started
               <==> (op == Activate ==> key in s.table && s.table[key] == Pending))
    ensures CanStep(s, BeginRemoval(tx, key, to)) ==>
              (PhaseOf(Step(s, BeginRemoval(tx, key, to)), tx) == Removing(to)
               <==> key in s.table && s.table[key] == Active)
    ensures CanStep(s, Write(tx)) ==>
              (PhaseOf(Step(s, Write(tx)), tx).Written?
               <==> match s.txs[tx].op
                    case Create => s.txs[tx].key !in s.table
                    case Activate => s.txs[tx].key in s.table
                    case Reactivate => s.txs[tx].key in s.table && s.table[s.txs[tx].key] in {Blocked, Inactive})
  {
    hide HasRoom, EffectiveStatus, CountedKeys;
  }

  // ---- activation at the limit ----

  /**
    Activating a pending carrier is refused exactly when the limit is at most the count,
    although the carrier already counts: either way the count would stay what it is.
   */
  lemma ActivationRefusedExactlyWhenFull(s: State, tx: nat)
    requires PhaseOf(s, tx) == Locked && s.txs[tx].op == Activate && s.txs[tx].key.kind == Carriers
    requires s.txs[tx].key in s.table && s.table[s.txs[tx].key] == Pending
    ensures var key, t, limit := s.txs[tx].key, Step(s, CountRows(tx)), s.org.maxCarriers;
            && Count(s.table[key := Active], Carriers) == Count(s.table, Carriers)
            && (if limit.Some? && limit.value <= Count(s.table, Carriers) then
                  t.log == s.log + [Entry(tx, s.lock == Some(tx), Add(key, Active, false), false)]
                else
                  t.log == s.log && PhaseOf(t, tx) == Admitted)
  {
    var key := s.txs[tx].key;
    assert CountedKeys(s.table[key := Active], Carriers) == CountedKeys(s.table, Carriers);
  }

  // ---- when a conversion is safe ----

  /** An open addition without a lock, whose row would be one more counted row. */
  predicate AddsOne(s: State, tx: nat) {
    && tx in s.txs
    && var t := s.txs[tx];
       && (t.phase == Written(false) || (t.phase == Unlimited && MayWrite(s.table, t.op, t.key)))
       && !(t.key in s.table && Counted(t.key.kind, s.table[t.key]))
  }

  lemma CountGrowsByOne(table: Table, key: Key, status: Status)
    requires Counted(key.kind, status) && !(key in table && Counted(key.kind, table[key]))
    ensures Count(table[key := status], key.kind) == Count(table, key.kind) + 1
    ensures forall kind :: kind != key.kind ==> Count(table[key := status], kind) == Count(table, kind)
  {
    assert CountedKeys(table[key := status], key.kind) == CountedKeys(table, key.kind) + {key};
    forall kind | kind != key.kind ensures Count(table[key := status], kind) == Count(table, kind) {
      assert CountedKeys(table[key := status], kind) == CountedKeys(table, kind);
    }
  }

  /** The open addition runs to its end without any other transaction. */
  function Finishing(s: State, tx: nat): seq<Event> {
    if PhaseOf(s, tx) == Unlimited then [Write(tx)] + ([Commit(tx)] + []) else [Commit(tx)] + []
  }

  lemma FinishingAdds(s: State, tx: nat)
    requires AddsOne(s, tx)
    ensures CanRun(s, Finishing(s, tx)) && NoConversions(Finishing(s, tx))
    ensures var t := Run(s, Finishing(s, tx));
            && t.org == s.org
            && t.table == s.table[s.txs[tx].key := StatusAfter(s.txs[tx].op, s.txs[tx].key.kind)]
  {
    hide Run, CanRun, EffectiveStatus, HasRoom;
    var written := if PhaseOf(s, tx) == Unlimited then Step(s, Write(tx)) else s;
    assert PhaseOf(written, tx) == Written(false);
    RunOfNone(Step(written, Commit(tx)));
    RunOfOne(written, Commit(tx), []);
    if PhaseOf(s, tx) == Unlimited {
      RunOfOne(s, Write(tx), [Commit(tx)] + []);
    }
  }

  /** An addition under the lock: up to taking it, and from there to its commit. */
  function Locking(tx: nat, op: Addition, key: Key): seq<Event> {
    [Begin(tx, op, key)] + ([Quick(tx, 0)] + ([TakeLock(tx)] + []))
  }

  function Committing(tx: nat): seq<Event> {
    [CountRows(tx)] + ([Write(tx)] + ([Commit(tx)] + []))
  }

  function Serving(tx: nat, op: Addition, key: Key): seq<Event> {
    Locking(tx, op, key) + Committing(tx)
  }

  predicate OthersKept(now: State, was: State) {
    forall tx :: tx in was.txs ==> tx in now.txs && now.txs[tx] == was.txs[tx]
  }

  /** A new row, or a pending carrier to activate. */
  predicate Addable(table: Table, op: Addition, key: Key) {
    if op.Create? then key !in table else op.Activate? && key.kind.Carriers? && key in table && table[key] == Pending
  }

  lemma LockingWorks(s: State, tx: nat, op: Addition, key: Key)
    requires s.lock == None && tx !in s.txs && s.org.status == ActiveSubscription
    requires LimitOf(s.org, key.kind).Some? && Addable(s.table, op, key)
    ensures CanRun(s, Locking(tx, op, key)) && NoConversions(Locking(tx, op, key))
    ensures var t := Run(s, Locking(tx, op, key));
            && t.org == s.org && t.table == s.table && t.lock == Some(tx) && OthersKept(t, s)
            && tx in t.txs && t.txs[tx] == Tx(op, key, Locked)
  {
    hide Run, CanRun;
    var s1 := Step(s, Begin(tx, op, key));
    var s2 := Step(s1, Quick(tx, 0));
    var s3 := Step(s2, TakeLock(tx));
    RunOfNone(s3);
    RunOfOne(s2, TakeLock(tx), []);
    RunOfOne(s1, Quick(tx, 0), [TakeLock(tx)] + []);
    RunOfOne(s, Begin(tx, op, key), [Quick(tx, 0)] + ([TakeLock(tx)] + []));
  }

  lemma CommittingWorks(s: State, tx: nat, op: Addition, key: Key)
    requires s.lock == Some(tx) && tx in s.txs && s.txs[tx] == Tx(op, key, Locked)
    requires Addable(s.table, op, key) && HasRoom(s.org, s.table, key.kind)
    ensures CanRun(s, Committing(tx)) && NoConversions(Committing(tx))
    ensures var t := Run(s, Committing(tx));
            && t.org == s.org && t.lock == None && t.table == s.table[key := StatusAfter(op, key.kind)]
            && forall other :: other in s.txs && other != tx ==> other in t.txs && t.txs[other] == s.txs[other]
  {
    hide Run, CanRun, HasRoom;
    var s1 := Step(s, CountRows(tx));
    var s2 := Step(s1, Write(tx));
    var s3 := Step(s2, Commit(tx));
    RunOfNone(s3);
    RunOfOne(s2, Commit(tx), []);
    RunOfOne(s1, Write(tx), [Commit(tx)] + []);
    RunOfOne(s, CountRows(tx), [Write(tx)] + ([Commit(tx)] + []));
  }

  /** While there is room and nobody holds the lock, an addition can be served under it. */
  lemma ServingAdds(s: State, tx: nat, op: Addition, key: Key)
    requires s.lock == None && tx !in s.txs && s.org.status == ActiveSubscription && Addable(s.table, op, key)
    requires LimitOf(s.org, key.kind).Some? && HasRoom(s.org, s.table, key.kind)
    ensures CanRun(s, Serving(tx, op, key)) && NoConversions(Serving(tx, op, key))
    ensures var t := Run(s, Serving(tx, op, key));
            && t.org == s.org && t.lock == None && t.table == s.table[key := StatusAfter(op, key.kind)]
            && OthersKept(t, s)
  {
    hide Run, CanRun, HasRoom, Locking, Committing, Addable;
    LockingWorks(s, tx, op, key);
    CommittingWorks(Run(s, Locking(tx, op, key)), tx, op, key);
    RunInTurn(s, Locking(tx, op, key), Committing(tx));
  }

  function Blocking(tx: nat, key: Key): seq<Event> {
    [BeginRemoval(tx, key, Blocked)] + ([Commit(tx)] + [])
  }

  /** An active row can be blocked at any time, which makes room. */
  lemma BlockingRemoves(s: State, tx: nat, key: Key)
    requires tx !in s.txs && key in s.table && s.table[key] == Active && s.lock != Some(tx)
    ensures CanRun(s, Blocking(tx, key)) && NoConversions(Blocking(tx, key))
    ensures var t := Run(s, Blocking(tx, key));
            && t.org == s.org && t.lock == s.lock && t.table == s.table[key := Blocked] && OthersKept(t, s)
            && Count(t.table, key.kind) == Count(s.table, key.kind) - 1
  {
    hide Run, CanRun;
    var begun := Step(s, BeginRemoval(tx, key, Blocked));
    assert PhaseOf(begun, tx) == Removing(Blocked);
    RunOfNone(Step(begun, Commit(tx)));
    RunOfOne(begun, Commit(tx), []);
    RunOfOne(s, BeginRemoval(tx, key, Blocked), [Commit(tx)] + []);
    assert CountedKeys(s.table[key := Blocked], key.kind) == CountedKeys(s.table, key.kind) - {key};
  }

  lemma {:induction false} SomeNatOutside(s: set<nat>) returns (n: nat)
    ensures forall m :: m in s ==> m < n
    decreases s
  {
    if x :| x in s {
      var k := SomeNatOutside(s - {x});
      n := if k > x then k else x + 1;
      assert forall m :: m in s ==> m == x || m in s - {x};
    } else {
      n := 0;
    }
  }

  lemma FreshTxAndKey(s: State, tx: nat) returns (newTx: nat, key: Key)
    requires tx in s.txs
    ensures newTx !in s.txs
    ensures key.kind == s.txs[tx].key.kind && key !in s.table && key != s.txs[tx].key
  {
    newTx := SomeNatOutside(s.txs.Keys);
    var ids := set k | k in s.table :: k.id;
    var id := SomeNatOutside(ids + {s.txs[tx].key.id});
    key := Key(s.txs[tx].key.kind, id);
    assert key in s.table ==> key.id in ids;
  }

  /** Once a limit is set, locked additions fill it up, and then the open addition overruns it. */
  lemma {:induction false} OpenAdditionOverruns(s: State, tx: nat, limit: nat) returns (events: seq<Event>)
    requires s.lock == None && s.org.status == ActiveSubscription && AddsOne(s, tx)
    requires LimitOf(s.org, s.txs[tx].key.kind) == Some(limit) && Count(s.table, s.txs[tx].key.kind) <= limit
    ensures CanRun(s, events) && NoConversions(events)
    ensures !WithinLimits(Run(s, events).org, Run(s, events).table)
    decreases limit - Count(s.table, s.txs[tx].key.kind)
  {
    hide Run, CanRun, CountedKeys, Step, CanStep, Finishing, Serving, Count, EffectiveStatus;
    var kind := s.txs[tx].key.kind;
    if Count(s.table, kind) == limit {
      FinishingAdds(s, tx);
      events := Finishing(s, tx);
      CountGrowsByOne(s.table, s.txs[tx].key, StatusAfter(s.txs[tx].op, kind));
    } else {
      var newTx, key := FreshTxAndKey(s, tx);
      ServingAdds(s, newTx, Create, key);
      CountGrowsByOne(s.table, key, StatusAfter(Create, kind));
      var t := Run(s, Serving(newTx, Create, key));
      assert AddsOne(t, tx);
      var rest := OpenAdditionOverruns(t, tx, limit);
      RunInTurn(s, Serving(newTx, Create, key), rest);
      events := Serving(newTx, Create, key) + rest;
    }
  }

  lemma {:induction false} RunInTurn(s: State, a: seq<Event>, b: seq<Event>)
    requires CanRun(s, a) && CanRun(Run(s, a), b)
    ensures CanRun(s, a + b) && Run(s, a + b) == Run(Run(s, a), b)
    decreases |a|
  {
    hide Step, CanStep;
    if a == [] {
      assert a + b == b;
    } else {
      assert (a + b)[0] == a[0] && (a + b)[1..] == a[1..] + b;
      RunInTurn(Step(s, a[0]), a[1..], b);
    }
  }

  /** A row that may be blocked, or activated and then blocked, without going over the limits. */
  predicate Removable(org: Organization, table: Table, key: Key) {
    && key in table
    && (table[key] == Active
        || (key.kind.Carriers? && table[key] == Pending
            && (HasRoom(org, table, Carriers)
                || exists other :: other in table && other.kind.Carriers? && table[other] == Active)))
  }

  /** An open addition without a lock that adds a counted row now, or once its row is blocked. */
  predicate CanAdd(s: State, org: Organization, tx: nat) {
    || AddsOne(s, tx)
    || (tx in s.txs
        && (s.txs[tx].phase == Written(false) || (s.txs[tx].phase == Unlimited && !s.txs[tx].op.Create?))
        && Removable(org, s.table, s.txs[tx].key))
  }

  /** Blocking the addition's own row turns it into one that adds. */
  lemma BlockedThenOverruns(s: State, tx: nat, limit: nat) returns (events: seq<Event>)
    requires s.lock == None && s.org.status == ActiveSubscription
    requires tx in s.txs && s.txs[tx].key in s.table && s.table[s.txs[tx].key] == Active
    requires s.txs[tx].phase == Written(false) || (s.txs[tx].phase == Unlimited && !s.txs[tx].op.Create?)
    requires LimitOf(s.org, s.txs[tx].key.kind) == Some(limit) && Count(s.table, s.txs[tx].key.kind) <= limit
    ensures CanRun(s, events) && NoConversions(events)
    ensures !WithinLimits(Run(s, events).org, Run(s, events).table)
  {
    hide Run, CanRun, CountedKeys, Step, CanStep, Count, EffectiveStatus, Blocking, WithinLimits;
    var key := s.txs[tx].key;
    var newTx, _ := FreshTxAndKey(s, tx);
    BlockingRemoves(s, newTx, key);
    var t := Run(s, Blocking(newTx, key));
    assert AddsOne(t, tx);
    var rest := OpenAdditionOverruns(t, tx, limit);
    RunInTurn(s, Blocking(newTx, key), rest);
    events := Blocking(newTx, key) + rest;
  }

  /** A pending row is activated first, with room for it. */
  lemma ActivatedThenOverruns(s: State, tx: nat, limit: nat) returns (events: seq<Event>)
    requires s.lock == None && s.org.status == ActiveSubscription
    requires tx in s.txs && s.txs[tx].key.kind.Carriers?
    requires s.txs[tx].key in s.table && s.table[s.txs[tx].key] == Pending
    requires s.txs[tx].phase == Written(false) || (s.txs[tx].phase == Unlimited && !s.txs[tx].op.Create?)
    requires LimitOf(s.org, Carriers) == Some(limit) && Count(s.table, Carriers) < limit
    ensures CanRun(s, events) && NoConversions(events)
    ensures !WithinLimits(Run(s, events).org, Run(s, events).table)
  {
    hide Run, CanRun, CountedKeys, Step, CanStep, Count, EffectiveStatus, Serving, WithinLimits;
    var key := s.txs[tx].key;
    var newTx, _ := FreshTxAndKey(s, tx);
    ServingAdds(s, newTx, Activate, key);
    var t := Run(s, Serving(newTx, Activate, key));
    CountAfterWrite(s.table, key, Active, Carriers);
    var rest := BlockedThenOverruns(t, tx, limit);
    RunInTurn(s, Serving(newTx, Activate, key), rest);
    events := Serving(newTx, Activate, key) + rest;
  }

  lemma CanAddOverruns(s: State, tx: nat, limit: nat) returns (events: seq<Event>)
    requires s.lock == None && s.org.status == ActiveSubscription && CanAdd(s, s.org, tx)
    requires LimitOf(s.org, s.txs[tx].key.kind) == Some(limit) && Count(s.table, s.txs[tx].key.kind) <= limit
    ensures CanRun(s, events) && NoConversions(events)
    ensures !WithinLimits(Run(s, events).org, Run(s, events).table)
  {
    hide Run, CanRun, CountedKeys, Step, CanStep, Count, EffectiveStatus, Blocking, WithinLimits;
    var key := s.txs[tx].key;
    if AddsOne(s, tx) {
      events := OpenAdditionOverruns(s, tx, limit);
    } else if s.table[key] == Active {
      events := BlockedThenOverruns(s, tx, limit);
    } else if HasRoom(s.org, s.table, Carriers) {
      events := ActivatedThenOverruns(s, tx, limit);
    } else {
      var other :| other in s.table && other.kind.Carriers? && s.table[other] == Active;
      var newTx, _ := FreshTxAndKey(s, tx);
      BlockingRemoves(s, newTx, other);
      var rest := ActivatedThenOverruns(Run(s, Blocking(newTx, other)), tx, limit);
      RunInTurn(s, Blocking(newTx, other), rest);
      events := Blocking(newTx, other) + rest;
    }
  }

  /** Whatever happens from here on, short of another conversion, the limits hold. */
  ghost predicate StaysWithinLimits(s: State) {
    forall events :: CanRun(s, events) && NoConversions(events) ==>
      WithinLimits(Run(s, events).org, Run(s, events).table)
  }

  /** Some open addition that saw a limit absent, and now has one, can still add a counted row. */
  ghost predicate SomeCanAdd(s: State, org: Organization) {
    exists tx :: CanAdd(s, org, tx) && LimitOf(org, s.txs[tx].key.kind).Some?
  }

  /**
    Setting limits is safe for every later schedule exactly when they cover the committed rows
    and no addition that saw a limit absent, and now has one, is still open; provided that, if
    any is, one of them can still add.
   */
  lemma ConversionSafeExactly(s: State, converter: nat, org: Organization)
    requires Inv(s) && s.lock == None && converter !in s.txs && org.status == ActiveSubscription
    requires (exists tx, kind :: AddsUnlocked(s, tx, kind) && LimitOf(org, kind).Some?) ==> SomeCanAdd(s, org)
    ensures var convert := ConvertSubscription(converter, org);
            StaysWithinLimits(Step(s, convert)) <==> SafeStep(s, convert)
  {
    hide Run, CanRun, CountedKeys, Inv, Count, HasRoom, MayWrite, EffectiveStatus;
    var convert := ConvertSubscription(converter, org);
    var t := Step(s, convert);
    if SafeStep(s, convert) {
      forall events | CanRun(t, events) && NoConversions(events)
        ensures WithinLimits(Run(t, events).org, Run(t, events).table)
      {
        StepKeepsInv(s, convert);
        FixedLimitsAreSafe(t, events);
        SafeRunsKeepInv(t, events);
        InvIsWithin(Run(t, events));
      }
    } else if !WithinLimits(org, s.table) {
      RunOfNone(t);
      assert CanRun(t, []) && NoConversions([]);
    } else {
      var tx :| CanAdd(s, org, tx) && LimitOf(org, s.txs[tx].key.kind).Some?;
      assert t.txs[tx] == s.txs[tx] && CanAdd(t, org, tx);
      var events := CanAddOverruns(t, tx, LimitOf(org, s.txs[tx].key.kind).value);
    }
  }

  lemma InvIsWithin(s: State)
    requires Inv(s)
    ensures WithinLimits(s.org, s.table)
  {
  }

  lemma RunOfNone(s: State)
    ensures CanRun(s, []) && Run(s, []) == s
  {
  }

  lemma RunOfOne(s: State, e: Event, rest: seq<Event>)
    requires CanStep(s, e) && CanRun(Step(s, e), rest)
    ensures CanRun(s, [e] + rest) && Run(s, [e] + rest) == Run(Step(s, e), rest)
  {
    assert ([e] + rest)[1..] == rest;
  }
}
