/**
 Numbering of meeting events on PostgreSQL (`backend/app/services/events.py`).

 `emit` takes a per-process asyncio lock, then a transaction-scoped advisory lock,
 reads the highest visible sequence number, inserts its row and leaves the asyncio
 lock; the advisory lock is held until the transaction commits or rolls back.
 The model interleaves any number of transactions in any number of processes.
 */
module EventSequencer {
  import opened Prelude

  type ProcessId = nat
  type TxnId = nat
  type MeetingId = string
  type LockKey = int
  type RowId = string

  datatype Phase =
    | Idle                          // in the transaction, outside `emit`
    | WantRow(row: RowId)           // outside `emit`, waiting to update a row
    | WantLocal(meeting: MeetingId)     // waiting for the asyncio lock
    | WantAdvisory(meeting: MeetingId)  // asyncio lock held, waiting for PostgreSQL
    // both locks held, but the flush before the query waits to update a row
    | Flushing(meeting: MeetingId, row: RowId)
    | Numbering(meeting: MeetingId)     // both locks held, event not yet written
    | Written(meeting: MeetingId)       // event flushed, asyncio lock still held
    | Broken                        // an exception left `emit`; only rollback follows
    | Ended

  type Rows = map<MeetingId, seq<nat>>

  // `sent` counts, meeting by meeting, the pending events that have gone out to the clients.
  datatype Txn = Txn(process: ProcessId, phase: Phase, emits: nat, pending: Rows, sent: map<MeetingId, nat>)

  datatype State = State(
    txns: map<TxnId, Txn>,
    local: map<(ProcessId, MeetingId), TxnId>,
    advisory: map<LockKey, TxnId>,
    // Who has updated a row and not ended yet.
    updated: map<RowId, TxnId>,
    committed: Rows,
    // The numbers sent to the meeting's clients, in order; `emit` sends before its caller commits.
    published: Rows)

  // `key` is PostgreSQL's hashtext, collisions included; `limit` caps the emits of one transaction;
  // `rowsFirst` says whether a transaction may call `emit` with a row already updated, and
  // `rollbacks` whether one that has sent an event to the clients may be rolled back.
  datatype Config = Config(key: MeetingId -> LockKey, limit: nat, rowsFirst: bool, rollbacks: bool)

  datatype Step =
    | Begin(t: TxnId, process: ProcessId)
    | WriteRow(t: TxnId, row: RowId)
    | CallEmit(t: TxnId, meeting: MeetingId)
    | TakeLocal(t: TxnId)
    | TakeAdvisory(t: TxnId)
    | FlushRow(t: TxnId, row: RowId)
    | TakeRow(t: TxnId)
    | Insert(t: TxnId)
    | LeaveEmit(t: TxnId)
    | Raise(t: TxnId)
    | Commit(t: TxnId)
    | Rollback(t: TxnId)

  const INITIAL := State(map[], map[], map[], map[], map[], map[])

  function Of(rows: Rows, m: MeetingId): seq<nat> {
    if m in rows then rows[m] else []
  }

  function Append(rows: Rows, more: Rows): Rows {
    map m | m in rows.Keys + more.Keys :: Of(rows, m) + Of(more, m)
  }

  // SELECT max(sequence), or 0 on an empty meeting.
  function Highest(numbers: seq<nat>): nat {
    if numbers == [] then 0
    else Max(Highest(numbers[..|numbers| - 1]), numbers[|numbers| - 1])
  }

  // A transaction sees the committed rows and its own.
  function Visible(s: State, t: TxnId, m: MeetingId): seq<nat>
    requires t in s.txns
  {
    Of(s.committed, m) + Of(s.txns[t].pending, m)
  }

  predicate HoldsLocal(phase: Phase) {
    phase.WantAdvisory? || phase.Flushing? || phase.Numbering? || phase.Written?
  }

  predicate HoldsRow(s: State, t: TxnId) {
    exists row :: row in s.updated && s.updated[row] == t
  }

  predicate NothingSent(txn: Txn) {
    forall m | m in txn.sent :: txn.sent[m] == 0
  }

  predicate Enabled(cfg: Config, s: State, step: Step) {
    match step
    case Begin(t, _) => t !in s.txns
    case WriteRow(t, _) => t in s.txns && s.txns[t].phase.Idle?
    case CallEmit(t, _) =>
      t in s.txns && s.txns[t].phase.Idle? && s.txns[t].emits < cfg.limit && (HoldsRow(s, t) ==> cfg.rowsFirst)
    case TakeLocal(t) =>
      t in s.txns && s.txns[t].phase.WantLocal? &&
      (s.txns[t].process, s.txns[t].phase.meeting) !in s.local
    case TakeAdvisory(t) =>
      t in s.txns && s.txns[t].phase.WantAdvisory? &&
      var k := cfg.key(s.txns[t].phase.meeting); k in s.advisory ==> s.advisory[k] == t
    case FlushRow(t, _) => t in s.txns && s.txns[t].phase.Numbering?
    case TakeRow(t) =>
      t in s.txns && (s.txns[t].phase.WantRow? || s.txns[t].phase.Flushing?) &&
      (s.txns[t].phase.row in s.updated ==> s.updated[s.txns[t].phase.row] == t)
    case Insert(t) => t in s.txns && s.txns[t].phase.Numbering?
    case LeaveEmit(t) => t in s.txns && s.txns[t].phase.Written?
    case Raise(t) =>
      t in s.txns && (s.txns[t].phase.WantRow? || s.txns[t].phase.WantLocal? || HoldsLocal(s.txns[t].phase))
    case Commit(t) => t in s.txns && s.txns[t].phase.Idle?
    case Rollback(t) =>
      t in s.txns && (s.txns[t].phase.Idle? || s.txns[t].phase.Broken?) &&
      (cfg.rollbacks || NothingSent(s.txns[t]))
  }

  function WithPhase(s: State, t: TxnId, phase: Phase): State
    requires t in s.txns
  {
    s.(txns := s.txns[t := s.txns[t].(phase := phase)])
  }

  function LeaveLocal(s: State, t: TxnId): State
    requires t in s.txns && HoldsLocal(s.txns[t].phase)
  {
    s.(local := s.local - {(s.txns[t].process, s.txns[t].phase.meeting)})
  }

  // The envelope of the event just written goes out to the clients.
  function Publish(s: State, t: TxnId, m: MeetingId): State
    requires t in s.txns
  {
    var events := Of(s.txns[t].pending, m);
    if events == [] then s
    else s.(txns := s.txns[t := s.txns[t].(sent := s.txns[t].sent[m := |events|])],
            published := s.published[m := Of(s.published, m) + [events[|events| - 1]]])
  }

  // Ending a transaction drops its uncommitted events, its advisory locks and its row locks.
  function End(s: State, t: TxnId): State
    requires t in s.txns
  {
    s.(txns := s.txns[t := s.txns[t].(phase := Ended, pending := map[], sent := map[])],
    advisory := map k | k in s.advisory && s.advisory[k] != t :: s.advisory[k],
    updated := map row | row in s.updated && s.updated[row] != t :: s.updated[row])
  }

  function Apply(cfg: Config, s: State, step: Step): State
    requires Enabled(cfg, s, step)
  {
    match step
    case Begin(t, process) => s.(txns := s.txns[t := Txn(process, Idle, 0, map[], map[])])
    case WriteRow(t, row) => WithPhase(s, t, WantRow(row))
    case CallEmit(t, m) =>
      s.(txns := s.txns[t := s.txns[t].(phase := WantLocal(m), emits := s.txns[t].emits + 1)])
    case TakeLocal(t) =>
      var m := s.txns[t].phase.meeting;
      WithPhase(s, t, WantAdvisory(m)).(local := s.local[(s.txns[t].process, m) := t])
    case TakeAdvisory(t) =>
      var m := s.txns[t].phase.meeting;
      WithPhase(s, t, Numbering(m)).(advisory := s.advisory[cfg.key(m) := t])
    case FlushRow(t, row) => WithPhase(s, t, Flushing(s.txns[t].phase.meeting, row))
    case TakeRow(t) =>
      var phase := s.txns[t].phase;
      WithPhase(s, t, if phase.WantRow? then Idle else Numbering(phase.meeting))
      .(updated := s.updated[phase.row := t])
    case Insert(t) =>
      var m := s.txns[t].phase.meeting;
      var sequence := Highest(Visible(s, t, m)) + 1;
      var pending := s.txns[t].pending[m := Of(s.txns[t].pending, m) + [sequence]];
      s.(txns := s.txns[t := s.txns[t].(phase := Written(m), pending := pending)])
    case LeaveEmit(t) => Publish(WithPhase(LeaveLocal(s, t), t, Idle), t, s.txns[t].phase.meeting)
    case Raise(t) =>
      WithPhase(if HoldsLocal(s.txns[t].phase) then LeaveLocal(s, t) else s, t, Broken)
    case Commit(t) => End(s, t).(committed := Append(s.committed, s.txns[t].pending))
    case Rollback(t) => End(s, t)
  }

  function Exec(cfg: Config, steps: seq<Step>): Option<State> {
    if steps == [] then Some(INITIAL)
    else
      var before := Exec(cfg, steps[..|steps| - 1]);
      var step := steps[|steps| - 1];
      if before.Some? && Enabled(cfg, before.value, step)
      then Some(Apply(cfg, before.value, step)) else None
  }

  // ---- locks ----

  // What a transaction is inside of, it holds; and what is held, its holder is inside of.
  predicate Holds(s: State, t: TxnId) {
    t in s.txns && HoldsLocal(s.txns[t].phase) ==>
      var k := (s.txns[t].process, s.txns[t].phase.meeting); k in s.local && s.local[k] == t
  }

  predicate Held(s: State, k: (ProcessId, MeetingId)) {
    k in s.local ==>
      var t := s.local[k];
      t in s.txns && HoldsLocal(s.txns[t].phase) && k == (s.txns[t].process, s.txns[t].phase.meeting)
  }

  ghost predicate LockInv(s: State) {
    (forall t :: Holds(s, t)) && (forall k :: Held(s, k))
  }

  // The steps that take or leave an asyncio lock.
  predicate TouchesLocal(step: Step) {
    step.TakeLocal? || step.LeaveEmit? || step.Raise?
  }

  lemma LocalStepKeepsHolds(cfg: Config, s: State, step: Step, t: TxnId)
    requires TouchesLocal(step) && Holds(s, t) && Holds(s, step.t) && Enabled(cfg, s, step)
    ensures Holds(Apply(cfg, s, step), t)
  {
  }

  lemma OtherStepKeepsHolds(cfg: Config, s: State, step: Step, t: TxnId)
    requires !TouchesLocal(step) && Holds(s, t) && Enabled(cfg, s, step)
    ensures Holds(Apply(cfg, s, step), t)
  {
  }

  lemma StepKeepsHeld(cfg: Config, s: State, step: Step, k: (ProcessId, MeetingId))
    requires Held(s, k) && Holds(s, step.t) && Enabled(cfg, s, step)
    ensures Held(Apply(cfg, s, step), k)
  {
  }

  lemma StepKeepsLocks(cfg: Config, s: State, step: Step)
    requires LockInv(s) && Enabled(cfg, s, step)
    ensures LockInv(Apply(cfg, s, step))
  {
    forall t ensures Holds(Apply(cfg, s, step), t) {
      assert Holds(s, t) && Holds(s, step.t);
      if TouchesLocal(step) {
        LocalStepKeepsHolds(cfg, s, step, t);
      } else {
        OtherStepKeepsHolds(cfg, s, step, t);
      }
    }
    forall k ensures Held(Apply(cfg, s, step), k) {
      assert Held(s, k) && Holds(s, step.t);
      StepKeepsHeld(cfg, s, step, k);
    }
  }

  // ---- numbering ----

  predicate Dense(numbers: seq<nat>) {
    forall i | 0 <= i < |numbers| :: numbers[i] == i + 1
  }

  predicate Owns(cfg: Config, s: State, t: TxnId, m: MeetingId) {
    cfg.key(m) in s.advisory && s.advisory[cfg.key(m)] == t
  }

  predicate PhaseOwns(cfg: Config, s: State, t: TxnId) {
    t in s.txns && HoldsLocal(s.txns[t].phase) && !s.txns[t].phase.WantAdvisory? ==>
      Owns(cfg, s, t, s.txns[t].phase.meeting)
  }

  predicate PendingOk(cfg: Config, s: State, t: TxnId, m: MeetingId) {
    t in s.txns && m in s.txns[t].pending ==> Owns(cfg, s, t, m) && Dense(Visible(s, t, m))
  }

  ghost predicate NumberInv(cfg: Config, s: State) {
    && (forall t :: PhaseOwns(cfg, s, t))
    && (forall t, m :: PendingOk(cfg, s, t, m))
    && (forall m :: Dense(Of(s.committed, m)))
  }

  lemma {:induction false} HighestOfDense(numbers: seq<nat>)
    requires Dense(numbers)
    ensures Highest(numbers) == |numbers|
  {
    if numbers != [] {
      HighestOfDense(numbers[..|numbers| - 1]);
    }
  }

  lemma StepKeepsPhaseOwns(cfg: Config, s: State, step: Step, t: TxnId)
    requires PhaseOwns(cfg, s, t) && Enabled(cfg, s, step)
    ensures PhaseOwns(cfg, Apply(cfg, s, step), t)
  {
  }

  lemma StepKeepsOwned(cfg: Config, s: State, step: Step, t: TxnId, m: MeetingId)
    requires Owns(cfg, s, t, m) && Enabled(cfg, s, step) && !(step.t == t && (step.Commit? || step.Rollback?))
    ensures Owns(cfg, Apply(cfg, s, step), t, m)
  {
  }

  // What a transaction sees of a meeting when it does not write to it itself.
  lemma StepKeepsVisible(cfg: Config, s: State, step: Step, t: TxnId, m: MeetingId)
    requires t in s.txns && Enabled(cfg, s, step) && !(step.Insert? && step.t == t && s.txns[t].phase.meeting == m)
    requires step.Commit? ==> step.t != t && m !in s.txns[step.t].pending
    requires step.Rollback? ==> step.t != t
    ensures t in Apply(cfg, s, step).txns && Visible(Apply(cfg, s, step), t, m) == Visible(s, t, m)
    ensures m in Apply(cfg, s, step).txns[t].pending <==> m in s.txns[t].pending
  {
  }

  lemma InsertKeepsPending(cfg: Config, s: State, t: TxnId)
    requires Enabled(cfg, s, Insert(t)) && PhaseOwns(cfg, s, t)
    requires var m := s.txns[t].phase.meeting; PendingOk(cfg, s, t, m) && Dense(Of(s.committed, m))
    ensures PendingOk(cfg, Apply(cfg, s, Insert(t)), t, s.txns[t].phase.meeting)
  {
    var m := s.txns[t].phase.meeting;
    var seen := Visible(s, t, m);
    assert Dense(seen);
    HighestOfDense(seen);
    assert Visible(Apply(cfg, s, Insert(t)), t, m) == seen + [|seen| + 1];
  }

  // Who still has uncommitted events after a step is not the one who ended, nor one of the same meeting.
  lemma PendingSurvives(cfg: Config, s: State, step: Step, t: TxnId, m: MeetingId)
    requires PendingOk(cfg, s, t, m) && PendingOk(cfg, s, step.t, m) && Enabled(cfg, s, step) && t in s.txns
    requires m in Apply(cfg, s, step).txns[t].pending && (step.Commit? || step.Rollback?)
    ensures step.t != t && m !in s.txns[step.t].pending
  {
  }

  lemma StepKeepsPending(cfg: Config, s: State, step: Step, t: TxnId, m: MeetingId)
    requires PendingOk(cfg, s, t, m) && PendingOk(cfg, s, step.t, m) && Enabled(cfg, s, step)
    requires !(step.Insert? && step.t == t && s.txns[t].phase.meeting == m)
    ensures PendingOk(cfg, Apply(cfg, s, step), t, m)
  {
    var after := Apply(cfg, s, step);
    if t in s.txns && m in after.txns[t].pending {
      if step.Commit? || step.Rollback? {
        PendingSurvives(cfg, s, step, t, m);
      }
      StepKeepsVisible(cfg, s, step, t, m);
      StepKeepsOwned(cfg, s, step, t, m);
    } else if t !in s.txns && t in after.txns {
      NewcomersHaveNothing(cfg, s, step, t);
    }
  }

  lemma NewcomersHaveNothing(cfg: Config, s: State, step: Step, t: TxnId)
    requires Enabled(cfg, s, step) && t !in s.txns && t in Apply(cfg, s, step).txns
    ensures Apply(cfg, s, step).txns[t].pending == map[]
  {
  }

  lemma StepKeepsCommitted(cfg: Config, s: State, step: Step, m: MeetingId)
    requires PendingOk(cfg, s, step.t, m) && Dense(Of(s.committed, m)) && Enabled(cfg, s, step)
    ensures Dense(Of(Apply(cfg, s, step).committed, m))
  {
    if step.Commit? {
      assert Of(Apply(cfg, s, step).committed, m) == Visible(s, step.t, m);
    }
  }

  lemma StepKeepsNumbers(cfg: Config, s: State, step: Step)
    requires NumberInv(cfg, s) && Enabled(cfg, s, step)
    ensures NumberInv(cfg, Apply(cfg, s, step))
  {
    forall t ensures PhaseOwns(cfg, Apply(cfg, s, step), t) {
      assert PhaseOwns(cfg, s, t);
      StepKeepsPhaseOwns(cfg, s, step, t);
    }
    forall t, m ensures PendingOk(cfg, Apply(cfg, s, step), t, m) {
      assert PendingOk(cfg, s, t, m) && PendingOk(cfg, s, step.t, m) && PhaseOwns(cfg, s, t);
      if step.Insert? && step.t == t && s.txns[t].phase.meeting == m {
        InsertKeepsPending(cfg, s, t);
      } else {
        StepKeepsPending(cfg, s, step, t, m);
      }
    }
    forall m ensures Dense(Of(Apply(cfg, s, step).committed, m)) {
      assert PendingOk(cfg, s, step.t, m);
      StepKeepsCommitted(cfg, s, step, m);
    }
  }

  // ---- waiting ----

  // Transaction t waits for a lock that u holds.
  predicate BlockedBy(cfg: Config, s: State, t: TxnId, u: TxnId) {
    t in s.txns && t != u &&
    match s.txns[t].phase
    case WantLocal(m) => (s.txns[t].process, m) in s.local && s.local[(s.txns[t].process, m)] == u
    case WantAdvisory(m) => Owns(cfg, s, u, m)
    case WantRow(row) => row in s.updated && s.updated[row] == u
    case Flushing(_, row) => row in s.updated && s.updated[row] == u
    case _ => false
  }

  /**
   Transactions each waiting for another one of the map, so that none gets its lock unless one gives
   up; and following waits inside the database always ends at a wait for an asyncio lock (`depth`
   counts down to it), so that PostgreSQL sees no cycle it could break.
   */
  ghost predicate Deadlocked(cfg: Config, s: State, stuck: map<TxnId, TxnId>, depth: map<TxnId, nat>) {
    && stuck != map[] && stuck.Keys <= depth.Keys
    && forall t {:trigger stuck[t]} | t in stuck ::
         && stuck[t] in stuck && BlockedBy(cfg, s, t, stuck[t])
         && (s.txns[t].phase.WantLocal? || depth[stuck[t]] < depth[t])
  }

  // Nobody holds an advisory lock before its first emit has been granted one.
  predicate OwnerOk(s: State, k: LockKey) {
    k in s.advisory ==>
      var t := s.advisory[k];
      t in s.txns && s.txns[t].emits >= 1 &&
      (s.txns[t].phase.WantLocal? || s.txns[t].phase.WantAdvisory? ==> s.txns[t].emits >= 2)
  }

  predicate EmitterOk(s: State, t: TxnId) {
    t in s.txns && (s.txns[t].phase.WantLocal? || HoldsLocal(s.txns[t].phase)) ==> s.txns[t].emits >= 1
  }

  // Whoever waits for an asyncio lock has updated rows only where that is allowed.
  predicate UpdaterOk(cfg: Config, s: State, row: RowId) {
    row in s.updated ==>
      s.updated[row] in s.txns && (s.txns[s.updated[row]].phase.WantLocal? ==> cfg.rowsFirst)
  }

  ghost predicate DoorInv(cfg: Config, s: State) {
    && (forall t :: EmitterOk(s, t))
    && (forall k :: OwnerOk(s, k))
    && (forall row :: UpdaterOk(cfg, s, row))
  }

  lemma StepKeepsEmitter(cfg: Config, s: State, step: Step, t: TxnId)
    requires EmitterOk(s, t) && Enabled(cfg, s, step)
    ensures EmitterOk(Apply(cfg, s, step), t)
  {
  }

  lemma StepKeepsOwner(cfg: Config, s: State, step: Step, k: LockKey)
    requires OwnerOk(s, k) && EmitterOk(s, step.t) && Enabled(cfg, s, step)
    ensures OwnerOk(Apply(cfg, s, step), k)
  {
  }

  lemma StepKeepsUpdater(cfg: Config, s: State, step: Step, row: RowId)
    requires UpdaterOk(cfg, s, row) && Enabled(cfg, s, step)
    ensures UpdaterOk(cfg, Apply(cfg, s, step), row)
  {
  }

  lemma StepKeepsDoor(cfg: Config, s: State, step: Step)
    requires DoorInv(cfg, s) && Enabled(cfg, s, step)
    ensures DoorInv(cfg, Apply(cfg, s, step))
  {
    forall t ensures EmitterOk(Apply(cfg, s, step), t) {
      assert EmitterOk(s, t);
      StepKeepsEmitter(cfg, s, step, t);
    }
    forall k ensures OwnerOk(Apply(cfg, s, step), k) {
      assert OwnerOk(s, k) && EmitterOk(s, step.t);
      StepKeepsOwner(cfg, s, step, k);
    }
    forall row ensures UpdaterOk(cfg, Apply(cfg, s, step), row) {
      assert UpdaterOk(cfg, s, row);
      StepKeepsUpdater(cfg, s, step, row);
    }
  }

  // ---- over whole runs ----

  lemma {:induction false} RunKeepsInvariants(cfg: Config, steps: seq<Step>)
    requires Exec(cfg, steps).Some?
    ensures var s := Exec(cfg, steps).value;
            LockInv(s) && NumberInv(cfg, s) && DoorInv(cfg, s)
  {
    if steps != [] {
      var s, step := Exec(cfg, steps[..|steps| - 1]).value, steps[|steps| - 1];
      RunKeepsInvariants(cfg, steps[..|steps| - 1]);
      StepKeepsLocks(cfg, s, step);
      StepKeepsNumbers(cfg, s, step);
      StepKeepsDoor(cfg, s, step);
    }
  }

  // Committed numbers are 1..n in commit order; uncommitted ones are n+1, n+2, ... of one lock holder.
  ghost predicate WellNumbered(cfg: Config, s: State, m: MeetingId) {
    var n := |Of(s.committed, m)|;
    && (forall i | 0 <= i < n :: Of(s.committed, m)[i] == i + 1)
    && (forall t | t in s.txns && Of(s.txns[t].pending, m) != [] ::
          && Owns(cfg, s, t, m)
          && forall i | 0 <= i < |s.txns[t].pending[m]| :: s.txns[t].pending[m][i] == n + i + 1)
    && (forall t, u | t in s.txns && u in s.txns &&
                      Of(s.txns[t].pending, m) != [] && Of(s.txns[u].pending, m) != [] :: t == u)
  }

  lemma InvariantNumbersWell(cfg: Config, s: State, m: MeetingId)
    requires NumberInv(cfg, s)
    ensures WellNumbered(cfg, s, m)
  {
    var n := |Of(s.committed, m)|;
    assert Dense(Of(s.committed, m));
    forall t | t in s.txns && Of(s.txns[t].pending, m) != []
      ensures Owns(cfg, s, t, m)
      ensures forall i | 0 <= i < |s.txns[t].pending[m]| :: s.txns[t].pending[m][i] == n + i + 1
    {
      assert PendingOk(cfg, s, t, m);
      forall i | 0 <= i < |s.txns[t].pending[m]| ensures s.txns[t].pending[m][i] == n + i + 1 {
        assert s.txns[t].pending[m][i] == Visible(s, t, m)[n + i];
      }
    }
  }

  /** Commits and rollbacks interleaved: every reachable state numbers every meeting's events well. */
  lemma SequencesAreDense(cfg: Config, steps: seq<Step>, s: State, m: MeetingId)
    requires Exec(cfg, steps) == Some(s)
    ensures WellNumbered(cfg, s, m)
  {
    RunKeepsInvariants(cfg, steps);
    InvariantNumbersWell(cfg, s, m);
  }

  /** The number `emit` picks collides with no committed or uncommitted row of the meeting. */
  lemma InsertIsUnique(cfg: Config, steps: seq<Step>, s: State, t: TxnId, u: TxnId)
    requires Exec(cfg, steps) == Some(s) && Enabled(cfg, s, Insert(t)) && u in s.txns
    ensures var m := s.txns[t].phase.meeting; Highest(Visible(s, t, m)) + 1 !in Visible(s, u, m)
  {
    RunKeepsInvariants(cfg, steps);
    var m := s.txns[t].phase.meeting;
    assert PhaseOwns(cfg, s, t) && PendingOk(cfg, s, t, m) && PendingOk(cfg, s, u, m);
    assert Dense(Of(s.committed, m));
    HighestOfDense(Visible(s, t, m));
  }

  // At the door of `emit` with a lock of the database in hand.
  predicate HolderAtDoor(s: State, t: TxnId) {
    t in s.txns && s.txns[t].phase.WantLocal? && (HoldsAdvisory(s, t) || HoldsRow(s, t))
  }

  predicate HoldsAdvisory(s: State, t: TxnId) {
    exists k :: k in s.advisory && s.advisory[k] == t
  }

  // Whoever is waited for inside the database holds a lock of it.
  lemma WaitedForHolds(cfg: Config, s: State, t: TxnId, u: TxnId)
    requires BlockedBy(cfg, s, t, u) && !s.txns[t].phase.WantLocal?
    ensures HoldsAdvisory(s, u) || HoldsRow(s, u)
  {
    if s.txns[t].phase.WantAdvisory? {
      var k := cfg.key(s.txns[t].phase.meeting);
      assert k in s.advisory && s.advisory[k] == u;
    } else {
      var row := s.txns[t].phase.row;
      assert row in s.updated && s.updated[row] == u;
    }
  }

  // Waits inside the database end at a transaction that waits for an asyncio lock and is waited for.
  lemma {:induction false} DatabaseWaitsEnd(cfg: Config, s: State, stuck: map<TxnId, TxnId>,
                                            depth: map<TxnId, nat>, t: TxnId) returns (v: TxnId)
    requires Deadlocked(cfg, s, stuck, depth) && t in stuck && t in s.txns && !s.txns[t].phase.WantLocal?
    ensures v in stuck && HolderAtDoor(s, v)
    decreases depth[t]
  {
    var u := stuck[t];
    assert BlockedBy(cfg, s, u, stuck[u]);
    if s.txns[u].phase.WantLocal? {
      WaitedForHolds(cfg, s, t, u);
      v := u;
    } else {
      v := DatabaseWaitsEnd(cfg, s, stuck, depth, u);
    }
  }

  // The holder of an asyncio lock never waits for one.
  lemma InsideIsNotAtDoor(cfg: Config, s: State, t: TxnId, u: TxnId)
    requires LockInv(s) && BlockedBy(cfg, s, t, u) && s.txns[t].phase.WantLocal?
    ensures u in s.txns && !s.txns[u].phase.WantLocal?
  {
    assert Held(s, (s.txns[t].process, s.txns[t].phase.meeting));
  }

  /**
   Whatever the interleaving, a deadlock needs a transaction that waits for the asyncio lock of `emit`
   while it holds an advisory lock of an earlier emit, or a row it has updated.
   */
  lemma DeadlockNeedsHolder(cfg: Config, steps: seq<Step>, s: State, stuck: map<TxnId, TxnId>,
                            depth: map<TxnId, nat>) returns (v: TxnId)
    requires Exec(cfg, steps) == Some(s) && Deadlocked(cfg, s, stuck, depth)
    ensures v in stuck && HolderAtDoor(s, v)
    ensures s.txns[v].emits >= 2 || (s.txns[v].emits >= 1 && HoldsRow(s, v) && cfg.rowsFirst)
  {
    RunKeepsInvariants(cfg, steps);
    var t :| t in stuck;
    assert BlockedBy(cfg, s, t, stuck[t]);
    if s.txns[t].phase.WantLocal? {
      InsideIsNotAtDoor(cfg, s, t, stuck[t]);
      t := stuck[t];
    }
    v := DatabaseWaitsEnd(cfg, s, stuck, depth, t);
    HolderEmits(cfg, s, v);
  }

  lemma HolderEmits(cfg: Config, s: State, v: TxnId)
    requires DoorInv(cfg, s) && HolderAtDoor(s, v)
    ensures s.txns[v].emits >= 2 || (s.txns[v].emits >= 1 && HoldsRow(s, v) && cfg.rowsFirst)
  {
    assert EmitterOk(s, v);
    if HoldsAdvisory(s, v) {
      var k :| k in s.advisory && s.advisory[k] == v;
      assert OwnerOk(s, k);
    } else {
      var row :| row in s.updated && s.updated[row] == v;
      assert UpdaterOk(cfg, s, row);
    }
  }

  lemma Extend(cfg: Config, steps: seq<Step>, s: State, step: Step) returns (longer: seq<Step>, after: State)
    requires Exec(cfg, steps) == Some(s) && Enabled(cfg, s, step)
    ensures after == Apply(cfg, s, step) && Exec(cfg, longer) == Some(after)
  {
    longer := steps + [step];
    after := Apply(cfg, s, step);
    assert longer[..|longer| - 1] == steps;
  }

  // Transaction 0 of process 0, the only one, in its first emit for meeting m.
  ghost predicate FirstEmit(s: State, m: MeetingId, phase: Phase, pending: Rows) {
    && s.txns == map[0 := Txn(0, phase, 1, pending, if phase.Idle? then map[m := 1] else map[])]
    && s.committed == map[] && s.updated == map[]
    && s.published == if phase.Idle? then map[m := [1]] else map[]
  }

  lemma NumberingOnce(cfg: Config, m: MeetingId) returns (steps: seq<Step>, s: State)
    requires cfg.limit >= 1
    ensures Exec(cfg, steps) == Some(s) && FirstEmit(s, m, Numbering(m), map[])
    ensures s.local == map[(0, m) := 0] && s.advisory == map[cfg.key(m) := 0]
  {
    steps, s := Extend(cfg, [], INITIAL, Begin(0, 0));
    steps, s := Extend(cfg, steps, s, CallEmit(0, m));
    assert FirstEmit(s, m, WantLocal(m), map[]);
    steps, s := Extend(cfg, steps, s, TakeLocal(0));
    steps, s := Extend(cfg, steps, s, TakeAdvisory(0));
  }

  // It leaves `emit` with one uncommitted row and keeps the advisory lock.
  lemma OneEmit(cfg: Config, m: MeetingId) returns (steps: seq<Step>, s: State)
    requires cfg.limit >= 1
    ensures Exec(cfg, steps) == Some(s) && FirstEmit(s, m, Idle, map[m := [1]])
    ensures s.local == map[] && s.advisory == map[cfg.key(m) := 0]
  {
    steps, s := NumberingOnce(cfg, m);
    assert Visible(s, 0, m) == [];
    assert Of(map[], m) + [1] == [1];
    steps, s := Extend(cfg, steps, s, Insert(0));
    assert FirstEmit(s, m, Written(m), map[m := [1]]);
    steps, s := Extend(cfg, steps, s, LeaveEmit(0));
  }

  // One transaction emits twice; between its emits another one of the process enters `emit`.
  lemma SecondEmitWitness(cfg: Config) returns (steps: seq<Step>, s: State)
    requires cfg.limit >= 2
    ensures Exec(cfg, steps) == Some(s) && Deadlocked(cfg, s, map[0 := 1, 1 := 0], map[0 := 0, 1 := 1])
  {
    var m := "m";
    steps, s := OneEmit(cfg, m);
    steps, s := Extend(cfg, steps, s, Begin(1, 0));
    steps, s := Extend(cfg, steps, s, CallEmit(1, m));
    steps, s := Extend(cfg, steps, s, TakeLocal(1));
    steps, s := Extend(cfg, steps, s, CallEmit(0, m));
    assert BlockedBy(cfg, s, 0, 1) && BlockedBy(cfg, s, 1, 0);
  }

  // One transaction has updated row "r" and is about to emit.
  lemma RowUpdated(cfg: Config) returns (steps: seq<Step>, s: State)
    ensures Exec(cfg, steps) == Some(s)
    ensures s == State(map[0 := Txn(0, Idle, 0, map[], map[])], map[], map[], map["r" := 0], map[], map[])
  {
    steps, s := Extend(cfg, [], INITIAL, Begin(0, 0));
    steps, s := Extend(cfg, steps, s, WriteRow(0, "r"));
    steps, s := Extend(cfg, steps, s, TakeRow(0));
  }

  // Another one enters `emit` first and has to update the same row there. Each emits once.
  lemma RowWitness(cfg: Config) returns (steps: seq<Step>, s: State)
    requires cfg.limit >= 1 && cfg.rowsFirst
    ensures Exec(cfg, steps) == Some(s) && Deadlocked(cfg, s, map[0 := 1, 1 := 0], map[0 := 0, 1 := 1])
    ensures s.txns[0].emits == 1 && s.txns[1].emits == 1
  {
    var m := "m";
    steps, s := RowUpdated(cfg);
    steps, s := Extend(cfg, steps, s, Begin(1, 0));
    steps, s := Extend(cfg, steps, s, CallEmit(1, m));
    steps, s := Extend(cfg, steps, s, TakeLocal(1));
    steps, s := Extend(cfg, steps, s, TakeAdvisory(1));
    steps, s := Extend(cfg, steps, s, FlushRow(1, "r"));
    steps, s := Extend(cfg, steps, s, CallEmit(0, m));
    assert BlockedBy(cfg, s, 0, 1) && BlockedBy(cfg, s, 1, 0);
  }

  ghost predicate Reachable(cfg: Config, s: State) {
    exists steps :: Exec(cfg, steps) == Some(s)
  }

  // Transactions emit at most once, and not with a row already updated.
  predicate Disciplined(cfg: Config) {
    cfg.limit == 0 || (cfg.limit == 1 && !cfg.rowsFirst)
  }

  /**
   The nested locks of `emit` are deadlock free for every interleaving exactly when no transaction
   emits twice, or emits with a row already updated. The audio gateway's transactions do the first,
   the conversion of a suggestion does the second.
   */
  lemma DeadlockFreeExactly(cfg: Config)
    ensures (forall s, stuck, depth | Reachable(cfg, s) :: !Deadlocked(cfg, s, stuck, depth)) <==> Disciplined(cfg)
  {
    if Disciplined(cfg) {
      forall s, stuck, depth | Reachable(cfg, s) ensures !Deadlocked(cfg, s, stuck, depth) {
        var steps :| Exec(cfg, steps) == Some(s);
        if Deadlocked(cfg, s, stuck, depth) {
          var v := DeadlockNeedsHolder(cfg, steps, s, stuck, depth);
          EmitsWithinLimit(cfg, steps);
          assert false;
        }
      }
    } else if cfg.limit >= 2 {
      var steps, s := SecondEmitWitness(cfg);
      assert Reachable(cfg, s);
    } else {
      var steps, s := RowWitness(cfg);
      assert Reachable(cfg, s);
    }
  }

  // A blocked transaction can neither end nor move, unless an exception takes it out.
  lemma BlockedStay(cfg: Config, s: State, step: Step, t: TxnId, u: TxnId)
    requires BlockedBy(cfg, s, t, u) && Enabled(cfg, s, step) && !(step.Raise? && step.t == t)
    ensures t in Apply(cfg, s, step).txns && Apply(cfg, s, step).txns[t].phase == s.txns[t].phase
    ensures Apply(cfg, s, step).txns[t].process == s.txns[t].process
    ensures step.t == t ==> !step.Commit? && !step.Rollback? && !step.LeaveEmit?
  {
  }

  lemma UpdatedStays(cfg: Config, s: State, step: Step, row: RowId, u: TxnId)
    requires row in s.updated && s.updated[row] == u && Enabled(cfg, s, step)
    requires step.t == u ==> !step.Commit? && !step.Rollback?
    ensures row in Apply(cfg, s, step).updated && Apply(cfg, s, step).updated[row] == u
  {
  }

  lemma LocalStays(cfg: Config, s: State, step: Step, k: (ProcessId, MeetingId), u: TxnId)
    requires k in s.local && s.local[k] == u && Holds(s, step.t) && Enabled(cfg, s, step)
    requires step.t == u ==> !step.LeaveEmit? && !step.Raise?
    ensures k in Apply(cfg, s, step).local && Apply(cfg, s, step).local[k] == u
  {
  }

  // A blocked holder of a lock keeps it through every step.
  lemma BlockStays(cfg: Config, s: State, step: Step, t: TxnId, u: TxnId, v: TxnId)
    requires BlockedBy(cfg, s, t, u) && BlockedBy(cfg, s, u, v) && Holds(s, step.t) && Enabled(cfg, s, step)
    requires !(step.Raise? && step.t in {t, u})
    ensures BlockedBy(cfg, Apply(cfg, s, step), t, u)
    ensures Apply(cfg, s, step).txns[t].phase == s.txns[t].phase
  {
    BlockedStay(cfg, s, step, t, u);
    BlockedStay(cfg, s, step, u, v);
    match s.txns[t].phase
    case WantLocal(m) => LocalStays(cfg, s, step, (s.txns[t].process, m), u);
    case WantAdvisory(m) => StepKeepsOwned(cfg, s, step, u, m);
    case WantRow(row) => UpdatedStays(cfg, s, step, row, u);
    case Flushing(_, row) => UpdatedStays(cfg, s, step, row, u);
  }

  /** Whatever else happens, a deadlock lasts until an exception takes one of its transactions out. */
  lemma DeadlockLasts(cfg: Config, s: State, step: Step, stuck: map<TxnId, TxnId>, depth: map<TxnId, nat>)
    requires LockInv(s) && Deadlocked(cfg, s, stuck, depth) && Enabled(cfg, s, step)
    requires step.Raise? ==> step.t !in stuck
    ensures Deadlocked(cfg, Apply(cfg, s, step), stuck, depth)
  {
    var after := Apply(cfg, s, step);
    forall t {:trigger stuck[t]} | t in stuck
      ensures stuck[t] in stuck && BlockedBy(cfg, after, t, stuck[t]) && after.txns[t].phase == s.txns[t].phase
    {
      assert Holds(s, step.t);
      BlockStays(cfg, s, step, t, stuck[t], stuck[stuck[t]]);
    }
  }

  ghost predicate WithinLimit(cfg: Config, s: State) {
    forall t | t in s.txns :: s.txns[t].emits <= cfg.limit
  }

  lemma StepKeepsLimit(cfg: Config, s: State, step: Step)
    requires WithinLimit(cfg, s) && Enabled(cfg, s, step)
    ensures WithinLimit(cfg, Apply(cfg, s, step))
  {
  }

  lemma {:induction false} EmitsWithinLimit(cfg: Config, steps: seq<Step>)
    requires Exec(cfg, steps).Some?
    ensures WithinLimit(cfg, Exec(cfg, steps).value)
  {
    if steps != [] {
      EmitsWithinLimit(cfg, steps[..|steps| - 1]);
      StepKeepsLimit(cfg, Exec(cfg, steps[..|steps| - 1]).value, steps[|steps| - 1]);
    }
  }

  // ---- what always gets done ----

  predicate Waits(phase: Phase) {
    phase.WantLocal? || phase.WantAdvisory? || phase.WantRow? || phase.Flushing?
  }

  // A transaction gets the lock it waits for.
  predicate Takes(cfg: Config, s: State, t: TxnId) {
    Enabled(cfg, s, TakeLocal(t)) || Enabled(cfg, s, TakeAdvisory(t)) || Enabled(cfg, s, TakeRow(t))
  }

  lemma BlockedCannotTake(cfg: Config, s: State, t: TxnId, u: TxnId)
    requires BlockedBy(cfg, s, t, u)
    ensures Waits(s.txns[t].phase) && !Takes(cfg, s, t)
  {
  }

  lemma InsideBlocks(cfg: Config, s: State, t: TxnId, u: TxnId)
    requires LockInv(s) && t in s.txns && s.txns[t].phase.WantLocal?
    requires var k := (s.txns[t].process, s.txns[t].phase.meeting); k in s.local && s.local[k] == u
    ensures BlockedBy(cfg, s, t, u)
  {
    assert Held(s, (s.txns[t].process, s.txns[t].phase.meeting));
  }

  lemma UnblockedTakes(cfg: Config, s: State, t: TxnId)
    requires LockInv(s) && t in s.txns && Waits(s.txns[t].phase) && forall u :: !BlockedBy(cfg, s, t, u)
    ensures Takes(cfg, s, t)
  {
    match s.txns[t].phase
    case WantLocal(m) =>
      var k := (s.txns[t].process, m);
      assert Held(s, k);
      if k in s.local {
        InsideBlocks(cfg, s, t, s.local[k]);
        assert false;
      }
    case WantAdvisory(m) =>
      if cfg.key(m) in s.advisory {
        assert !BlockedBy(cfg, s, t, s.advisory[cfg.key(m)]);
      }
    case WantRow(row) =>
      if row in s.updated {
        assert !BlockedBy(cfg, s, t, s.updated[row]);
      }
    case Flushing(_, row) =>
      if row in s.updated {
        assert !BlockedBy(cfg, s, t, s.updated[row]);
      }
  }

  /** In every reachable state a waiting transaction gets its lock next, unless exactly somebody else holds it. */
  lemma WaitsExactly(cfg: Config, steps: seq<Step>, s: State, t: TxnId)
    requires Exec(cfg, steps) == Some(s) && t in s.txns && Waits(s.txns[t].phase)
    ensures Takes(cfg, s, t) <==> forall u :: !BlockedBy(cfg, s, t, u)
  {
    RunKeepsInvariants(cfg, steps);
    if u :| BlockedBy(cfg, s, t, u) {
      BlockedCannotTake(cfg, s, t, u);
    } else {
      UnblockedTakes(cfg, s, t);
    }
  }

  /** Outside `emit` a transaction can always commit, and then all see of every meeting what it saw. */
  lemma CommitShowsAll(cfg: Config, s: State, t: TxnId, m: MeetingId)
    requires t in s.txns && s.txns[t].phase.Idle?
    ensures Enabled(cfg, s, Commit(t))
    ensures Of(Apply(cfg, s, Commit(t)).committed, m) == Visible(s, t, m)
  {
  }

  // Somebody who has ended holds no lock of the database; everybody else keeps theirs.
  predicate Released(before: State, after: State, t: TxnId) {
    && t in after.txns && after.txns[t].phase.Ended?
    && after.advisory == (map k | k in before.advisory && before.advisory[k] != t :: before.advisory[k])
    && after.updated == (map row | row in before.updated && before.updated[row] != t :: before.updated[row])
  }

  /** A rollback shows nobody anything, and frees the locks it held in the database like a commit. */
  lemma EndReleases(cfg: Config, s: State, step: Step)
    requires (step.Commit? || step.Rollback?) && Enabled(cfg, s, step)
    ensures Released(s, Apply(cfg, s, step), step.t)
    ensures Apply(cfg, s, step).local == s.local && Apply(cfg, s, step).published == s.published
    ensures step.Rollback? ==> Apply(cfg, s, step).committed == s.committed
    ensures forall t | t in s.txns && t != step.t :: Apply(cfg, s, step).txns[t] == s.txns[t]
  {
  }

  /**
   An exception can take a transaction out wherever it waits or is inside `emit`. It leaves the asyncio
   lock to others, commits nothing any more, and can be rolled back.
   */
  lemma RaiseOnlyRollsBack(cfg: Config, s: State, t: TxnId, next: Step)
    requires t in s.txns && (Waits(s.txns[t].phase) || HoldsLocal(s.txns[t].phase))
    ensures Enabled(cfg, s, Raise(t))
    ensures var after := Apply(cfg, s, Raise(t));
            && (HoldsLocal(s.txns[t].phase) ==> (s.txns[t].process, s.txns[t].phase.meeting) !in after.local)
            && (next.t == t && Enabled(cfg, after, next) ==> next == Rollback(t))
            && (cfg.rollbacks ==> Enabled(cfg, after, Rollback(t)))
  {
  }

  predicate OwnerLives(s: State, k: LockKey) {
    k in s.advisory ==> s.advisory[k] in s.txns && !s.txns[s.advisory[k]].phase.Ended?
  }

  predicate UpdaterLives(s: State, row: RowId) {
    row in s.updated ==> s.updated[row] in s.txns && !s.txns[s.updated[row]].phase.Ended?
  }

  lemma StepKeepsOwnerLiving(cfg: Config, s: State, step: Step, k: LockKey)
    requires OwnerLives(s, k) && Enabled(cfg, s, step)
    ensures OwnerLives(Apply(cfg, s, step), k)
  {
  }

  lemma StepKeepsUpdaterLiving(cfg: Config, s: State, step: Step, row: RowId)
    requires UpdaterLives(s, row) && Enabled(cfg, s, step)
    ensures UpdaterLives(Apply(cfg, s, step), row)
  {
  }

  /** In every reachable state all locks, of the processes and of the database, belong to transactions not yet ended. */
  lemma {:induction false} EndedHoldNothing(cfg: Config, steps: seq<Step>, s: State)
    requires Exec(cfg, steps) == Some(s)
    ensures forall k :: OwnerLives(s, k)
    ensures forall row :: UpdaterLives(s, row)
    ensures forall k | k in s.local :: s.local[k] in s.txns && HoldsLocal(s.txns[s.local[k]].phase)
  {
    if steps != [] {
      var before, step := Exec(cfg, steps[..|steps| - 1]).value, steps[|steps| - 1];
      EndedHoldNothing(cfg, steps[..|steps| - 1], before);
      forall k ensures OwnerLives(s, k) {
        StepKeepsOwnerLiving(cfg, before, step, k);
      }
      forall row ensures UpdaterLives(s, row) {
        StepKeepsUpdaterLiving(cfg, before, step, row);
      }
    }
    RunKeepsInvariants(cfg, steps);
    forall k | k in s.local ensures s.local[k] in s.txns && HoldsLocal(s.txns[s.local[k]].phase) {
      assert Held(s, k);
    }
  }

  // What `steps` adds to `from` are steps of t.
  predicate Alone(from: seq<Step>, steps: seq<Step>, t: TxnId) {
    from <= steps && forall i | |from| <= i < |steps| :: steps[i].t == t
  }

  lemma Advance(cfg: Config, from: seq<Step>, steps: seq<Step>, s: State, step: Step)
    returns (longer: seq<Step>, after: State)
    requires Alone(from, steps, step.t) && Exec(cfg, steps) == Some(s) && Enabled(cfg, s, step)
    ensures after == Apply(cfg, s, step) && Exec(cfg, longer) == Some(after) && Alone(from, longer, step.t)
  {
    longer := steps + [step];
    after := Apply(cfg, s, step);
    assert longer[..|longer| - 1] == steps;
  }

  // Everybody sees what t saw before it ended.
  ghost predicate Shown(before: State, after: State, t: TxnId)
    requires t in before.txns
  {
    forall m :: Of(after.committed, m) == Visible(before, t, m)
  }

  lemma CommitEnds(cfg: Config, from: seq<Step>, steps: seq<Step>, s: State, t: TxnId)
    returns (longer: seq<Step>, after: State)
    requires Alone(from, steps, t) && Exec(cfg, steps) == Some(s) && t in s.txns && s.txns[t].phase.Idle?
    ensures Exec(cfg, longer) == Some(after) && Alone(from, longer, t) && Shown(s, after, t)
    ensures Released(s, after, t) && after.txns.Keys == s.txns.Keys
    ensures after.local == s.local && after.published == s.published
  {
    longer, after := Advance(cfg, from, steps, s, Commit(t));
    forall m ensures Of(after.committed, m) == Visible(s, t, m) {
      CommitShowsAll(cfg, s, t, m);
    }
  }

  lemma LeaveShows(cfg: Config, s: State, t: TxnId, m: MeetingId)
    requires t in s.txns && s.txns[t].phase == Written(m)
    ensures var left := Apply(cfg, s, LeaveEmit(t));
            && t in left.txns && left.txns[t].phase.Idle? && left.txns.Keys == s.txns.Keys
            && left.txns[t].pending == s.txns[t].pending && left.committed == s.committed
            && left.advisory == s.advisory && left.updated == s.updated
            && left.local == s.local - {(s.txns[t].process, m)}
            && (Of(s.txns[t].pending, m) != [] ==>
                  var events := Of(s.txns[t].pending, m);
                  Of(left.published, m) == Of(s.published, m) + [events[|events| - 1]])
  {
  }

  // t has ended, everybody sees what it saw, and the clients got its last number of m.
  ghost predicate Ends(before: State, after: State, t: TxnId, m: MeetingId)
    requires t in before.txns
  {
    && Shown(before, after, t) && Released(before, after, t) && after.txns.Keys == before.txns.Keys
    && var events := Of(before.txns[t].pending, m);
       events != [] ==> Of(after.published, m) == Of(before.published, m) + [events[|events| - 1]]
  }

  lemma WrittenCommits(cfg: Config, from: seq<Step>, steps: seq<Step>, s: State, t: TxnId, m: MeetingId)
    returns (longer: seq<Step>, after: State)
    requires Alone(from, steps, t) && Exec(cfg, steps) == Some(s) && t in s.txns && s.txns[t].phase == Written(m)
    ensures Exec(cfg, longer) == Some(after) && Alone(from, longer, t)
    ensures Ends(s, after, t, m) && after.local == s.local - {(s.txns[t].process, m)}
  {
    LeaveShows(cfg, s, t, m);
    longer, after := Advance(cfg, from, steps, s, LeaveEmit(t));
    var left := after;
    longer, after := CommitEnds(cfg, from, longer, left, t);
    forall n ensures Of(after.committed, n) == Visible(s, t, n) {
      assert Of(after.committed, n) == Visible(left, t, n);
    }
  }

  // t has ended, and everybody sees its new event of m behind what it saw; the clients got the number.
  ghost predicate Emitted(before: State, after: State, t: TxnId, m: MeetingId)
    requires t in before.txns
  {
    && Released(before, after, t) && after.txns.Keys == before.txns.Keys
    && (forall n | n != m :: Of(after.committed, n) == Visible(before, t, n))
    && Of(after.committed, m) == Visible(before, t, m) + [|Visible(before, t, m)| + 1]
    && Of(after.published, m) == Of(before.published, m) + [|Visible(before, t, m)| + 1]
  }

  // The state with one more uncommitted event of m.
  function WithEvent(s: State, t: TxnId, m: MeetingId, number: nat): State
    requires t in s.txns
  {
    var txn := s.txns[t];
    s.(txns := s.txns[t := txn.(phase := Written(m), pending := txn.pending[m := Of(txn.pending, m) + [number]])])
  }

  lemma InsertsNext(cfg: Config, s: State, t: TxnId, m: MeetingId)
    requires PendingOk(cfg, s, t, m) && Dense(Of(s.committed, m)) && t in s.txns && s.txns[t].phase == Numbering(m)
    ensures Apply(cfg, s, Insert(t)) == WithEvent(s, t, m, |Visible(s, t, m)| + 1)
  {
    HighestOfDense(Visible(s, t, m));
  }

  lemma EventIsVisible(s: State, t: TxnId, m: MeetingId, number: nat, n: MeetingId)
    requires t in s.txns
    ensures Visible(WithEvent(s, t, m, number), t, n) ==
            (if n == m then Visible(s, t, m) + [number] else Visible(s, t, n))
    ensures Of(WithEvent(s, t, m, number).txns[t].pending, m) == Of(s.txns[t].pending, m) + [number]
  {
  }

  lemma InsertShows(cfg: Config, s: State, t: TxnId, m: MeetingId, n: MeetingId)
    requires NumberInv(cfg, s) && t in s.txns && s.txns[t].phase == Numbering(m)
    ensures var after := Apply(cfg, s, Insert(t));
            && Visible(after, t, n) ==
               (if n == m then Visible(s, t, m) + [|Visible(s, t, m)| + 1] else Visible(s, t, n))
            && var events := Of(after.txns[t].pending, m);
               events != [] && events[|events| - 1] == |Visible(s, t, m)| + 1
  {
    assert PendingOk(cfg, s, t, m) && Dense(Of(s.committed, m));
    InsertsNext(cfg, s, t, m);
    EventIsVisible(s, t, m, |Visible(s, t, m)| + 1, n);
  }

  lemma InsertFrame(cfg: Config, s: State, t: TxnId, m: MeetingId)
    requires t in s.txns && s.txns[t].phase == Numbering(m)
    ensures var after := Apply(cfg, s, Insert(t));
            && t in after.txns && after.txns.Keys == s.txns.Keys && after.txns[t].phase == Written(m)
            && after.txns[t].process == s.txns[t].process && after.local == s.local
            && after.advisory == s.advisory && after.updated == s.updated && after.published == s.published
  {
  }

  // What is shown of a written event, seen from before it was written.
  lemma InsertEmits(cfg: Config, s: State, t: TxnId, m: MeetingId, after: State)
    requires NumberInv(cfg, s) && t in s.txns && s.txns[t].phase == Numbering(m)
    requires Ends(Apply(cfg, s, Insert(t)), after, t, m)
    ensures Emitted(s, after, t, m)
  {
    InsertFrame(cfg, s, t, m);
    InsertShows(cfg, s, t, m, m);
    var written := Apply(cfg, s, Insert(t));
    assert Of(after.committed, m) == Visible(written, t, m);
    forall n | n != m ensures Of(after.committed, n) == Visible(s, t, n) {
      InsertShows(cfg, s, t, m, n);
      assert Of(after.committed, n) == Visible(written, t, n);
    }
  }

  lemma NumberingCommits(cfg: Config, from: seq<Step>, steps: seq<Step>, s: State, t: TxnId, m: MeetingId)
    returns (longer: seq<Step>, after: State)
    requires Alone(from, steps, t) && Exec(cfg, steps) == Some(s) && t in s.txns && s.txns[t].phase == Numbering(m)
    ensures Exec(cfg, longer) == Some(after) && Alone(from, longer, t)
    ensures Emitted(s, after, t, m) && after.local == s.local - {(s.txns[t].process, m)}
  {
    RunKeepsInvariants(cfg, steps);
    InsertFrame(cfg, s, t, m);
    longer, after := Advance(cfg, from, steps, s, Insert(t));
    longer, after := WrittenCommits(cfg, from, longer, after, t, m);
    InsertEmits(cfg, s, t, m, after);
  }

  // The last lock on the way to a number: PostgreSQL's for the meeting, or the row to be flushed.
  predicate TakesLast(cfg: Config, s: State, step: Step, t: TxnId, m: MeetingId) {
    && step.t == t && t in s.txns && Enabled(cfg, s, step)
    && var phase := s.txns[t].phase;
       (step.TakeAdvisory? && phase == WantAdvisory(m)) || (step.TakeRow? && phase.Flushing? && phase.meeting == m)
  }

  lemma TakeFrame(cfg: Config, s: State, step: Step, t: TxnId, m: MeetingId)
    requires TakesLast(cfg, s, step, t, m)
    ensures var mid := Apply(cfg, s, step);
            && t in mid.txns && mid.txns.Keys == s.txns.Keys && mid.txns[t].phase == Numbering(m)
            && mid.txns[t].process == s.txns[t].process && mid.txns[t].pending == s.txns[t].pending
            && mid.local == s.local && mid.committed == s.committed && mid.published == s.published
  {
  }

  lemma TakenIsReleased(cfg: Config, s: State, step: Step, t: TxnId, m: MeetingId, after: State)
    requires TakesLast(cfg, s, step, t, m)
    requires t in Apply(cfg, s, step).txns && Released(Apply(cfg, s, step), after, t)
    ensures Released(s, after, t)
  {
    var mid := Apply(cfg, s, step);
    assert (map k | k in mid.advisory && mid.advisory[k] != t :: mid.advisory[k]) ==
           (map k | k in s.advisory && s.advisory[k] != t :: s.advisory[k]);
    assert (map row | row in mid.updated && mid.updated[row] != t :: mid.updated[row]) ==
           (map row | row in s.updated && s.updated[row] != t :: s.updated[row]);
  }

  lemma TakenEmits(cfg: Config, s: State, step: Step, t: TxnId, m: MeetingId, after: State)
    requires TakesLast(cfg, s, step, t, m)
    requires t in Apply(cfg, s, step).txns && Emitted(Apply(cfg, s, step), after, t, m)
    ensures Emitted(s, after, t, m)
  {
    TakeFrame(cfg, s, step, t, m);
    TakenIsReleased(cfg, s, step, t, m, after);
    var mid := Apply(cfg, s, step);
    assert forall n :: Visible(mid, t, n) == Visible(s, t, n);
  }

  lemma TakingCommits(cfg: Config, from: seq<Step>, steps: seq<Step>, s: State, step: Step, t: TxnId, m: MeetingId)
    returns (longer: seq<Step>, after: State)
    requires Alone(from, steps, t) && Exec(cfg, steps) == Some(s)
    requires TakesLast(cfg, s, step, t, m)
    ensures Exec(cfg, longer) == Some(after) && Alone(from, longer, t)
    ensures t in s.txns && Emitted(s, after, t, m) && after.local == s.local - {(s.txns[t].process, m)}
  {
    TakeFrame(cfg, s, step, t, m);
    longer, after := Advance(cfg, from, steps, s, step);
    longer, after := NumberingCommits(cfg, from, longer, after, t, m);
    TakenEmits(cfg, s, step, t, m, after);
  }

  /**
   From every reachable state, a transaction inside `emit` that nobody blocks gets by itself to its
   commit: its event takes the next number of the meeting, the clients are sent that number, and its
   locks are free again.
   */
  lemma UnblockedEmitCommits(cfg: Config, steps: seq<Step>, s: State, t: TxnId)
    returns (longer: seq<Step>, after: State)
    requires Exec(cfg, steps) == Some(s) && t in s.txns && HoldsLocal(s.txns[t].phase)
    requires forall u :: !BlockedBy(cfg, s, t, u)
    ensures Exec(cfg, longer) == Some(after) && Alone(steps, longer, t)
    ensures after.local == s.local - {(s.txns[t].process, s.txns[t].phase.meeting)}
    ensures if s.txns[t].phase.Written? then Ends(s, after, t, s.txns[t].phase.meeting)
            else Emitted(s, after, t, s.txns[t].phase.meeting)
  {
    match s.txns[t].phase
    case Numbering(m) => longer, after := NumberingCommits(cfg, steps, steps, s, t, m);
    case Written(m) => longer, after := WrittenCommits(cfg, steps, steps, s, t, m);
    case WantAdvisory(m) =>
      WaitsExactly(cfg, steps, s, t);
      longer, after := TakingCommits(cfg, steps, steps, s, TakeAdvisory(t), t, m);
    case Flushing(m, _) =>
      WaitsExactly(cfg, steps, s, t);
      longer, after := TakingCommits(cfg, steps, steps, s, TakeRow(t), t, m);
  }

  // t is at the advisory lock of m, and nothing else has changed.
  predicate Entered(s: State, mid: State, t: TxnId, m: MeetingId)
    requires t in s.txns
  {
    var txn := s.txns[t];
    && mid.txns == s.txns[t := txn.(phase := WantAdvisory(m), emits := txn.emits + 1)]
    && mid == s.(txns := mid.txns, local := s.local[(txn.process, m) := t])
  }

  lemma IdleEnters(cfg: Config, from: seq<Step>, steps: seq<Step>, s: State, t: TxnId, m: MeetingId)
    returns (longer: seq<Step>, mid: State)
    requires Alone(from, steps, t) && Exec(cfg, steps) == Some(s) && MayEmit(cfg, s, t, m)
    ensures Exec(cfg, longer) == Some(mid) && Alone(from, longer, t) && Entered(s, mid, t, m)
  {
    longer, mid := Advance(cfg, from, steps, s, CallEmit(t, m));
    longer, mid := Advance(cfg, from, longer, mid, TakeLocal(t));
  }

  // Nobody holds a lock of the meeting but t itself, and the discipline admits one more emit.
  predicate MayEmit(cfg: Config, s: State, t: TxnId, m: MeetingId) {
    && t in s.txns && s.txns[t].phase.Idle? && s.txns[t].emits < cfg.limit && (HoldsRow(s, t) ==> cfg.rowsFirst)
    && (s.txns[t].process, m) !in s.local && (cfg.key(m) in s.advisory ==> s.advisory[cfg.key(m)] == t)
  }

  lemma EnteredEmits(s: State, mid: State, after: State, t: TxnId, m: MeetingId)
    requires t in s.txns && Entered(s, mid, t, m) && t in mid.txns && Emitted(mid, after, t, m)
    ensures Emitted(s, after, t, m)
  {
    assert forall n :: Visible(mid, t, n) == Visible(s, t, n);
  }

  /** From every reachable state a transaction that finds the locks of a meeting free can emit and commit. */
  lemma IdleEmitCommits(cfg: Config, from: seq<Step>, steps: seq<Step>, s: State, t: TxnId, m: MeetingId)
    returns (longer: seq<Step>, after: State)
    requires Alone(from, steps, t) && Exec(cfg, steps) == Some(s) && MayEmit(cfg, s, t, m)
    ensures Exec(cfg, longer) == Some(after) && Alone(from, longer, t)
    ensures Emitted(s, after, t, m) && after.local == s.local
  {
    var mid;
    longer, mid := IdleEnters(cfg, from, steps, s, t, m);
    longer, after := TakingCommits(cfg, from, longer, mid, TakeAdvisory(t), t, m);
    EnteredEmits(s, mid, after, t, m);
    assert after.local == s.local;
  }

  lemma NewcomerHoldsNoRow(cfg: Config, s: State, t: TxnId)
    requires t !in s.txns && DoorInv(cfg, s)
    ensures forall row | row in s.updated :: s.updated[row] != t
  {
    forall row | row in s.updated ensures s.updated[row] != t {
      assert UpdaterOk(cfg, s, row);
    }
  }

  lemma NewcomerMayEmit(cfg: Config, s: State, t: TxnId, process: ProcessId, m: MeetingId)
    requires DoorInv(cfg, s) && t !in s.txns && cfg.limit >= 1
    requires (process, m) !in s.local && cfg.key(m) !in s.advisory
    ensures MayEmit(cfg, Apply(cfg, s, Begin(t, process)), t, m)
  {
    NewcomerHoldsNoRow(cfg, s, t);
  }

  // What a newcomer that has emitted leaves behind, seen from before it began.
  ghost predicate Extends(s: State, after: State, t: TxnId, m: MeetingId) {
    && after.txns.Keys == s.txns.Keys + {t}
    && after.local == s.local && after.advisory == s.advisory && after.updated == s.updated
    && Of(after.committed, m) == Of(s.committed, m) + [|Of(s.committed, m)| + 1]
    && Of(after.published, m) == Of(s.published, m) + [|Of(s.committed, m)| + 1]
    && forall n | n != m :: Of(after.committed, n) == Of(s.committed, n)
  }

  lemma NewcomerExtends(cfg: Config, s: State, after: State, t: TxnId, process: ProcessId, m: MeetingId)
    requires t !in s.txns && DoorInv(cfg, s) && t in Apply(cfg, s, Begin(t, process)).txns
    requires Emitted(Apply(cfg, s, Begin(t, process)), after, t, m) && after.local == s.local
    ensures Extends(s, after, t, m)
  {
    forall k | k in s.advisory ensures s.advisory[k] != t {
      assert OwnerOk(s, k);
    }
    forall row | row in s.updated ensures s.updated[row] != t {
      assert UpdaterOk(cfg, s, row);
    }
    assert after.advisory == s.advisory && after.updated == s.updated;
    assert forall n :: Visible(Apply(cfg, s, Begin(t, process)), t, n) == Of(s.committed, n);
  }

  /**
   From every reachable state in which the two locks of a meeting are free, a new transaction can emit
   and commit: the meeting then has exactly one committed event more, with the next number.
   */
  lemma EmitAndCommit(cfg: Config, steps: seq<Step>, s: State, t: TxnId, process: ProcessId, m: MeetingId)
    returns (longer: seq<Step>, after: State)
    requires Exec(cfg, steps) == Some(s) && t !in s.txns && cfg.limit >= 1
    requires (process, m) !in s.local && cfg.key(m) !in s.advisory
    ensures Exec(cfg, longer) == Some(after) && Extends(s, after, t, m)
  {
    RunKeepsInvariants(cfg, steps);
    NewcomerMayEmit(cfg, s, t, process, m);
    var begun;
    longer, begun := Advance(cfg, steps, steps, s, Begin(t, process));
    longer, after := IdleEmitCommits(cfg, steps, longer, begun, t, m);
    NewcomerExtends(cfg, s, after, t, process, m);
  }

  // Outside `emit`, or between its locks and its number, a transaction updates a row that nobody else has.
  lemma RowIsUpdated(cfg: Config, s: State, t: TxnId, row: RowId)
    requires t in s.txns && (s.txns[t].phase.Idle? || s.txns[t].phase.Numbering?)
    requires row in s.updated ==> s.updated[row] == t
    ensures var wait := if s.txns[t].phase.Idle? then WriteRow(t, row) else FlushRow(t, row);
            && Enabled(cfg, s, wait) && Enabled(cfg, Apply(cfg, s, wait), TakeRow(t))
            && var after := Apply(cfg, Apply(cfg, s, wait), TakeRow(t));
               after.txns[t] == s.txns[t] && after == s.(txns := after.txns, updated := s.updated[row := t])
  {
  }

  /** Any number of events gets committed: for every n a run reaches the committed numbers 1, 2, ..., n. */
  lemma {:induction false} NumbersAreReached(cfg: Config, m: MeetingId, n: nat) returns (steps: seq<Step>, s: State)
    requires cfg.limit >= 1
    ensures Exec(cfg, steps) == Some(s) && |Of(s.committed, m)| == n
    ensures forall i | 0 <= i < n :: Of(s.committed, m)[i] == i + 1
    ensures Of(s.published, m) == Of(s.committed, m)
    ensures s.local == map[] && s.advisory == map[] && forall t | t in s.txns :: t < n
  {
    if n == 0 {
      steps, s := [], INITIAL;
    } else {
      var before;
      steps, before := NumbersAreReached(cfg, m, n - 1);
      steps, s := EmitAndCommit(cfg, steps, before, n - 1, 0, m);
      assert forall t | t in s.txns :: t in before.txns.Keys + {n - 1};
    }
  }

  // ---- what the clients see ----

  predicate Below(numbers: seq<nat>, bound: int) {
    forall i | 0 <= i < |numbers| :: numbers[i] <= bound
  }

  predicate Increasing(numbers: seq<nat>) {
    forall i, j | 0 <= i < j < |numbers| :: numbers[i] < numbers[j]
  }

  predicate Quiet(s: State, m: MeetingId) {
    forall t | t in s.txns :: m !in s.txns[t].pending
  }

  function Sent(txn: Txn, m: MeetingId): nat {
    if m in txn.sent then txn.sent[m] else 0
  }

  // The highest number of the meeting this transaction may have published.
  function Top(s: State, t: TxnId, m: MeetingId): nat
    requires t in s.txns
  {
    |Of(s.committed, m)| + Sent(s.txns[t], m)
  }

  predicate SeenOk(s: State, t: TxnId, m: MeetingId) {
    t in s.txns ==>
      && (m in s.txns[t].pending ==> Below(Of(s.published, m), Top(s, t, m)))
      && Sent(s.txns[t], m) <= |Of(s.txns[t].pending, m)|
      && (s.txns[t].phase == Written(m) ==> Sent(s.txns[t], m) < |Of(s.txns[t].pending, m)|)
  }

  predicate QuietOk(s: State, m: MeetingId) {
    Quiet(s, m) ==> Below(Of(s.published, m), |Of(s.committed, m)|)
  }

  ghost predicate PublishInv(s: State) {
    && (forall m :: Increasing(Of(s.published, m)))
    && (forall t, m :: SeenOk(s, t, m))
    && (forall m :: QuietOk(s, m))
  }

  lemma InsertKeepsSeen(cfg: Config, s: State, t: TxnId, u: TxnId, n: MeetingId)
    requires Enabled(cfg, s, Insert(t)) && SeenOk(s, u, n) && QuietOk(s, n)
    requires NumberInv(cfg, s)
    ensures SeenOk(Apply(cfg, s, Insert(t)), u, n)
  {
    var m, after := s.txns[t].phase.meeting, Apply(cfg, s, Insert(t));
    if u == t && n == m {
      assert PhaseOwns(cfg, s, t);
      if m !in s.txns[t].pending {
        forall w | w in s.txns ensures m !in s.txns[w].pending {
          assert PendingOk(cfg, s, w, m);
        }
      }
      assert Top(after, t, m) == Top(s, t, m);
    }
  }

  lemma InsertKeepsQuiet(cfg: Config, s: State, t: TxnId, n: MeetingId)
    requires Enabled(cfg, s, Insert(t)) && QuietOk(s, n)
    ensures QuietOk(Apply(cfg, s, Insert(t)), n)
  {
    var after := Apply(cfg, s, Insert(t));
    if Quiet(after, n) {
      forall u | u in s.txns ensures n !in s.txns[u].pending {
        assert n !in after.txns[u].pending;
      }
    }
  }

  lemma InsertKeepsPublished(cfg: Config, s: State, t: TxnId)
    requires NumberInv(cfg, s) && PublishInv(s) && Enabled(cfg, s, Insert(t))
    ensures PublishInv(Apply(cfg, s, Insert(t)))
  {
    forall u, n ensures SeenOk(Apply(cfg, s, Insert(t)), u, n) {
      InsertKeepsSeen(cfg, s, t, u, n);
    }
    forall n ensures QuietOk(Apply(cfg, s, Insert(t)), n) {
      InsertKeepsQuiet(cfg, s, t, n);
    }
  }

  // What leaving `emit` publishes: the last of the transaction's own numbers, the highest there is.
  lemma PublishedIsTop(cfg: Config, s: State, t: TxnId)
    requires NumberInv(cfg, s) && Enabled(cfg, s, LeaveEmit(t)) && SeenOk(s, t, s.txns[t].phase.meeting)
    ensures var m := s.txns[t].phase.meeting;
            && m in s.txns[t].pending && Below(Of(s.published, m), |Visible(s, t, m)| - 1)
            && Of(Apply(cfg, s, LeaveEmit(t)).published, m) == Of(s.published, m) + [|Visible(s, t, m)|]
  {
    var m := s.txns[t].phase.meeting;
    var seen := Visible(s, t, m);
    assert PendingOk(cfg, s, t, m);
    assert seen[|seen| - 1] == |seen|;
  }

  lemma LeaveKeepsSeen(cfg: Config, s: State, t: TxnId, u: TxnId, n: MeetingId)
    requires NumberInv(cfg, s) && Enabled(cfg, s, LeaveEmit(t)) && SeenOk(s, u, n)
    requires SeenOk(s, t, s.txns[t].phase.meeting)
    ensures SeenOk(Apply(cfg, s, LeaveEmit(t)), u, n)
  {
    PublishedIsTop(cfg, s, t);
    assert PendingOk(cfg, s, u, n) && PendingOk(cfg, s, t, n);
  }

  lemma LeaveKeepsPublished(cfg: Config, s: State, t: TxnId)
    requires NumberInv(cfg, s) && PublishInv(s) && Enabled(cfg, s, LeaveEmit(t))
    ensures PublishInv(Apply(cfg, s, LeaveEmit(t)))
  {
    var m, after := s.txns[t].phase.meeting, Apply(cfg, s, LeaveEmit(t));
    assert SeenOk(s, t, m);
    PublishedIsTop(cfg, s, t);
    forall n ensures Increasing(Of(after.published, n)) && QuietOk(after, n) {
      assert Increasing(Of(s.published, n)) && QuietOk(s, n);
      if n == m {
        assert n in after.txns[t].pending;
      } else {
        assert Of(after.published, n) == Of(s.published, n);
        LeaveKeepsQuiet(cfg, s, t, n);
      }
    }
    forall u, n ensures SeenOk(after, u, n) {
      assert SeenOk(s, u, n);
      LeaveKeepsSeen(cfg, s, t, u, n);
    }
  }

  lemma LeaveKeepsQuiet(cfg: Config, s: State, t: TxnId, n: MeetingId)
    requires Enabled(cfg, s, LeaveEmit(t)) && n != s.txns[t].phase.meeting && QuietOk(s, n)
    ensures QuietOk(Apply(cfg, s, LeaveEmit(t)), n)
  {
    var after := Apply(cfg, s, LeaveEmit(t));
    if Quiet(after, n) {
      forall u | u in s.txns ensures n !in s.txns[u].pending {
        assert n !in after.txns[u].pending;
      }
    }
  }

  lemma CommitKeepsSeen(cfg: Config, s: State, t: TxnId, u: TxnId, n: MeetingId)
    requires NumberInv(cfg, s) && Enabled(cfg, s, Commit(t)) && SeenOk(s, u, n)
    ensures SeenOk(Apply(cfg, s, Commit(t)), u, n)
  {
    var after := Apply(cfg, s, Commit(t));
    if u in after.txns && n in after.txns[u].pending {
      assert PendingOk(cfg, s, u, n) && PendingOk(cfg, s, t, n);
      assert u != t && n !in s.txns[t].pending;
      assert Of(after.committed, n) == Of(s.committed, n);
    }
  }

  lemma CommitKeepsQuiet(cfg: Config, s: State, t: TxnId, n: MeetingId)
    requires Enabled(cfg, s, Commit(t)) && SeenOk(s, t, n) && QuietOk(s, n)
    ensures QuietOk(Apply(cfg, s, Commit(t)), n)
  {
    var after := Apply(cfg, s, Commit(t));
    if Quiet(after, n) {
      if n in s.txns[t].pending {
        assert Of(after.committed, n) == Visible(s, t, n);
      } else {
        forall u | u in s.txns ensures n !in s.txns[u].pending {
          assert u != t ==> n !in after.txns[u].pending;
        }
        assert Of(after.committed, n) == Of(s.committed, n);
      }
    }
  }

  lemma CommitKeepsPublished(cfg: Config, s: State, t: TxnId)
    requires NumberInv(cfg, s) && PublishInv(s) && Enabled(cfg, s, Commit(t))
    ensures PublishInv(Apply(cfg, s, Commit(t)))
  {
    forall u, n ensures SeenOk(Apply(cfg, s, Commit(t)), u, n) {
      CommitKeepsSeen(cfg, s, t, u, n);
    }
    forall n ensures QuietOk(Apply(cfg, s, Commit(t)), n) {
      CommitKeepsQuiet(cfg, s, t, n);
    }
  }

  // A transaction that has sent nothing leaves no trace when it is rolled back.
  lemma RollbackKeepsPublished(cfg: Config, s: State, t: TxnId)
    requires !cfg.rollbacks && PublishInv(s) && Enabled(cfg, s, Rollback(t))
    ensures PublishInv(Apply(cfg, s, Rollback(t)))
  {
    var after := Apply(cfg, s, Rollback(t));
    forall u, n ensures SeenOk(after, u, n) {
      assert SeenOk(s, u, n);
    }
    forall n ensures QuietOk(after, n) {
      assert SeenOk(s, t, n) && QuietOk(s, n);
      if Quiet(after, n) && n !in s.txns[t].pending {
        forall u | u in s.txns ensures n !in s.txns[u].pending {
          assert u != t ==> n !in after.txns[u].pending;
        }
        assert Quiet(s, n);
      }
    }
  }

  // No event appears or disappears, and no number is published.
  predicate Plain(step: Step) {
    !step.Insert? && !step.LeaveEmit? && !step.Commit? && !step.Rollback?
  }

  lemma OthersKeepSeen(cfg: Config, s: State, step: Step, u: TxnId, n: MeetingId)
    requires Plain(step) && SeenOk(s, u, n) && Enabled(cfg, s, step)
    ensures SeenOk(Apply(cfg, s, step), u, n)
  {
  }

  lemma OthersKeepQuiet(cfg: Config, s: State, step: Step, n: MeetingId)
    requires Plain(step) && QuietOk(s, n) && Enabled(cfg, s, step)
    ensures QuietOk(Apply(cfg, s, step), n)
  {
    var after := Apply(cfg, s, step);
    if Quiet(after, n) {
      forall u | u in s.txns ensures n !in s.txns[u].pending {
        assert n !in after.txns[u].pending;
      }
    }
  }

  lemma OthersKeepPublished(cfg: Config, s: State, step: Step)
    requires Plain(step) && PublishInv(s) && Enabled(cfg, s, step)
    ensures PublishInv(Apply(cfg, s, step))
  {
    forall u, n ensures SeenOk(Apply(cfg, s, step), u, n) {
      OthersKeepSeen(cfg, s, step, u, n);
    }
    forall n ensures QuietOk(Apply(cfg, s, step), n) {
      OthersKeepQuiet(cfg, s, step, n);
    }
  }

  lemma {:induction false} RunKeepsPublished(cfg: Config, steps: seq<Step>, s: State)
    requires !cfg.rollbacks && Exec(cfg, steps) == Some(s)
    ensures PublishInv(s)
  {
    if steps != [] {
      var before, step := Exec(cfg, steps[..|steps| - 1]).value, steps[|steps| - 1];
      RunKeepsInvariants(cfg, steps[..|steps| - 1]);
      RunKeepsPublished(cfg, steps[..|steps| - 1], before);
      match step
      case Insert(t) => InsertKeepsPublished(cfg, before, t);
      case LeaveEmit(t) => LeaveKeepsPublished(cfg, before, t);
      case Commit(t) => CommitKeepsPublished(cfg, before, t);
      case Rollback(t) => RollbackKeepsPublished(cfg, before, t);
      case _ => OthersKeepPublished(cfg, before, step);
    }
  }

  lemma RolledBack(cfg: Config, m: MeetingId) returns (steps: seq<Step>, s: State)
    requires cfg.rollbacks && cfg.limit >= 1
    ensures Exec(cfg, steps) == Some(s) && s.txns.Keys == {0} && s.local == map[] && s.advisory == map[]
    ensures s.updated == map[]
    ensures s.committed == map[] && s.published == map[m := [1]]
  {
    steps, s := OneEmit(cfg, m);
    steps, s := Extend(cfg, steps, s, Rollback(0));
  }

  lemma NumberedAgain(cfg: Config, m: MeetingId) returns (steps: seq<Step>, s: State)
    requires cfg.rollbacks && cfg.limit >= 1
    ensures Exec(cfg, steps) == Some(s) && 1 in s.txns && s.txns[1] == Txn(0, Numbering(m), 1, map[], map[])
    ensures s.committed == map[] && s.published == map[m := [1]]
  {
    steps, s := RolledBack(cfg, m);
    steps, s := Extend(cfg, steps, s, Begin(1, 0));
    steps, s := Extend(cfg, steps, s, CallEmit(1, m));
    steps, s := Extend(cfg, steps, s, TakeLocal(1));
    steps, s := Extend(cfg, steps, s, TakeAdvisory(1));
  }

  // A transaction emits, is rolled back, and the next one publishes the same number again.
  lemma RepublishWitness(cfg: Config, m: MeetingId) returns (steps: seq<Step>, s: State)
    requires cfg.rollbacks && cfg.limit >= 1
    ensures Exec(cfg, steps) == Some(s) && Of(s.published, m) == [1, 1]
  {
    steps, s := NumberedAgain(cfg, m);
    assert Visible(s, 1, m) == [] && Of(map[], m) + [1] == [1];
    steps, s := Extend(cfg, steps, s, Insert(1));
    assert s.txns[1].pending == map[m := [1]];
    steps, s := Extend(cfg, steps, s, LeaveEmit(1));
  }

  /**
   Clients are sent the numbers of every meeting strictly increasing, in every reachable state, exactly
   when no transaction is rolled back after it has sent one (or none emits): `emit` publishes too early.
   */
  lemma PublishedOnceExactly(cfg: Config)
    ensures (forall s, m | Reachable(cfg, s) :: Increasing(Of(s.published, m)))
            <==> !cfg.rollbacks || cfg.limit == 0
  {
    if !cfg.rollbacks {
      forall s, m | Reachable(cfg, s) ensures Increasing(Of(s.published, m)) {
        var steps :| Exec(cfg, steps) == Some(s);
        RunKeepsPublished(cfg, steps, s);
      }
    } else if cfg.limit == 0 {
      forall s, m | Reachable(cfg, s) ensures Increasing(Of(s.published, m)) {
        var steps :| Exec(cfg, steps) == Some(s);
        NothingPublished(cfg, steps, s);
      }
    } else {
      var steps, s := RepublishWitness(cfg, "m");
      assert Reachable(cfg, s) && Of(s.published, "m")[0] == Of(s.published, "m")[1];
    }
  }

  lemma StepPublishesNothing(cfg: Config, s: State, step: Step)
    requires cfg.limit == 0 && (forall t :: EmitterOk(s, t)) && Enabled(cfg, s, step)
    requires s.published == map[] && forall t | t in s.txns :: s.txns[t].emits == 0
    ensures Apply(cfg, s, step).published == map[]
    ensures forall t | t in Apply(cfg, s, step).txns :: Apply(cfg, s, step).txns[t].emits == 0
  {
    assert EmitterOk(s, step.t);
  }

  lemma {:induction false} NothingPublished(cfg: Config, steps: seq<Step>, s: State)
    requires cfg.limit == 0 && Exec(cfg, steps) == Some(s)
    ensures s.published == map[] && forall t | t in s.txns :: s.txns[t].emits == 0
  {
    if steps != [] {
      var before := Exec(cfg, steps[..|steps| - 1]).value;
      NothingPublished(cfg, steps[..|steps| - 1], before);
      RunKeepsInvariants(cfg, steps[..|steps| - 1]);
      StepPublishesNothing(cfg, before, steps[|steps| - 1]);
    }
  }
}
