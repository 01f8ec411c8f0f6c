/**
 The reasoning engine's job manager (`EngineManager` in `backend/app/services/engine.py`),
 on its local path. A step is what one coroutine does between two awaits; steps of
 all runs, of cancel requests and of shutdown interleave freely.
 */
module EngineJobs {
  import opened Prelude

  type RunId = string
  type MeetingId = string

  // Where the coroutine of one run stands. A run may call the CLI twice (`repair`).
  datatype Phase =
    | Queued                    // waiting for the meeting's lock
    | Granted                   // lock held, row being loaded
    | Starting                  // in `_execute`, before the first cancellation check
    | Spawning(repair: bool)
    | Calling(repair: bool)     // process registered, waiting for it
    | Parsing                   // first answer committed as "validating"
    | Applying                  // answer valid, state patch about to be applied
    | Finishing                 // in the `finally` block
    | Done                      // coroutine over, done callback not yet run
    | Gone

  datatype Task = Task(meeting: MeetingId, phase: Phase)

  datatype Process = Running | Exited(success: bool)

  datatype Manager = Manager(
    locks: map<MeetingId, RunId>,
    processes: map<RunId, Process>,
    tracked: set<RunId>,
    cancelled: set<RunId>,
    tasks: map<RunId, Task>,
    patched: set<RunId>,
    closing: bool)

  datatype Step =
    | Enqueue(run: RunId, meeting: MeetingId)
    | Grant(run: RunId)
    | Load(run: RunId, runnable: bool)
    | Start(run: RunId)
    | Spawn(run: RunId)
    | ProcessExits(run: RunId, success: bool)
    | CliReturns(run: RunId, valid: bool)
    | Parse(run: RunId, valid: bool)
    | ApplyPatch(run: RunId)
    | Abort(run: RunId)
    | Finish(run: RunId)
    | DoneCallback(run: RunId)
    | Cancel(run: RunId)
    | BeginShutdown
    | ClearTables

  const INITIAL := Manager(map[], map[], {}, {}, map[], {}, false)

  predicate Holding(phase: Phase) {
    !phase.Queued? && !phase.Done? && !phase.Gone?
  }

  // Inside `_execute`.
  predicate Executing(phase: Phase) {
    Holding(phase) && !phase.Granted?
  }

  // Not yet inside `_execute`.
  predicate Waiting(phase: Phase) {
    phase.Queued? || phase.Granted?
  }

  predicate Over(phase: Phase) {
    phase.Done? || phase.Gone?
  }

  predicate Enabled(s: Manager, step: Step) {
    match step
    case Enqueue(run, _) => run !in s.tasks && !s.closing
    case Grant(run) => run in s.tasks && s.tasks[run].phase.Queued? && s.tasks[run].meeting !in s.locks
    case Load(run, _) => run in s.tasks && s.tasks[run].phase.Granted?
    case Start(run) => run in s.tasks && s.tasks[run].phase.Starting?
    case Spawn(run) => run in s.tasks && s.tasks[run].phase.Spawning?
    case ProcessExits(run, _) => run in s.processes && s.processes[run].Running?
    case CliReturns(run, _) =>
      run in s.tasks && s.tasks[run].phase.Calling? && run in s.processes && s.processes[run].Exited?
    case Parse(run, _) => run in s.tasks && s.tasks[run].phase.Parsing?
    case ApplyPatch(run) => run in s.tasks && s.tasks[run].phase.Applying?
    case Abort(run) => run in s.tasks && !Over(s.tasks[run].phase)
    case Finish(run) => run in s.tasks && s.tasks[run].phase.Finishing?
    case DoneCallback(run) => run in s.tasks && s.tasks[run].phase.Done?
    case Cancel(_) => !s.closing
    case BeginShutdown => true
    case ClearTables => s.closing && forall run | run in s.tasks :: Over(s.tasks[run].phase)
  }

  function Move(s: Manager, run: RunId, phase: Phase): Manager
    requires run in s.tasks
  {
    s.(tasks := s.tasks[run := s.tasks[run].(phase := phase)])
  }

  // Leaving the `async with` of the meeting's lock ends the coroutine.
  function Leave(s: Manager, run: RunId): Manager
    requires run in s.tasks
  {
    Move(s, run, Done).(locks := s.locks - {s.tasks[run].meeting})
  }

  // The `finally` block first forgets the process.
  function Finally(s: Manager, run: RunId): Manager
    requires run in s.tasks
  {
    Move(s, run, Finishing).(processes := s.processes - {run})
  }

  predicate Cancellable(s: Manager, run: RunId) {
    || (run in s.processes && s.processes[run].Running?)
    || (run in s.tracked && run in s.tasks && !Over(s.tasks[run].phase))
  }

  function Apply(s: Manager, step: Step): Manager
    requires Enabled(s, step)
  {
    match step
    case Enqueue(run, meeting) =>
      s.(tasks := s.tasks[run := Task(meeting, Queued)], tracked := s.tracked + {run})
    case Grant(run) => Move(s, run, Granted).(locks := s.locks[s.tasks[run].meeting := run])
    case Load(run, runnable) =>
      if runnable && run !in s.cancelled then Move(s, run, Starting) else Leave(s, run)
    case Start(run) =>
      if run in s.cancelled then Finally(s, run) else Move(s, run, Spawning(false))
    case Spawn(run) =>
      Move(s, run, Calling(s.tasks[run].phase.repair)).(processes := s.processes[run := Running])
    case ProcessExits(run, success) => s.(processes := s.processes[run := Exited(success)])
    case CliReturns(run, valid) =>
      if run in s.cancelled || !s.processes[run].success then Finally(s, run)
      else if !s.tasks[run].phase.repair then Move(s, run, Parsing)
      else if valid then Move(s, run, Applying) else Finally(s, run)
    case Parse(run, valid) => Move(s, run, if valid then Applying else Spawning(true))
    case ApplyPatch(run) => Finally(s, run).(patched := s.patched + {run})
    case Abort(run) =>
      match s.tasks[run].phase {
        case Queued => Move(s, run, Done)
        case Granted => Leave(s, run)
        case Finishing => Leave(s, run)
        case _ => Finally(s, run)
      }
    case Finish(run) => Leave(s, run)
    case DoneCallback(run) =>
      Move(s, run, Gone).(tracked := s.tracked - {run}, cancelled := s.cancelled - {run})
    case Cancel(run) =>
      if Cancellable(s, run) then s.(cancelled := s.cancelled + {run}) else s
    case BeginShutdown => s.(closing := true)
    case ClearTables => s.(processes := map[], tracked := {}, cancelled := {})
  }

  // The state after running steps from s, or None when one of them could not happen.
  function ExecFrom(s: Manager, steps: seq<Step>): Option<Manager> {
    if steps == [] then Some(s)
    else
      var before := ExecFrom(s, steps[..|steps| - 1]);
      var step := steps[|steps| - 1];
      if before.Some? && Enabled(before.value, step) then Some(Apply(before.value, step)) else None
  }

  // ---- invariants ----

  ghost predicate LockInv(s: Manager) {
    && (forall run | run in s.tasks && Holding(s.tasks[run].phase) ::
          s.tasks[run].meeting in s.locks && s.locks[s.tasks[run].meeting] == run)
    && (forall m | m in s.locks ::
          s.locks[m] in s.tasks && Holding(s.tasks[s.locks[m]].phase) && s.tasks[s.locks[m]].meeting == m)
  }

  // What the four tables say about one run.
  predicate Consistent(s: Manager, run: RunId) {
    && (run in s.cancelled ==> run in s.tracked)
    && (run in s.tracked ==> run in s.tasks && !s.tasks[run].phase.Gone?)
    && (run in s.tasks && !Over(s.tasks[run].phase) ==> run in s.tracked)
    && (run in s.processes ==>
          run in s.tasks && Executing(s.tasks[run].phase) && !s.tasks[run].phase.Finishing?)
    && (run in s.processes && s.processes[run].Running? ==> s.tasks[run].phase.Calling?)
    && (run in s.tasks && s.tasks[run].phase.Calling? ==> run in s.processes)
    && (run in s.patched ==>
          run in s.tasks && (s.tasks[run].phase.Finishing? || Over(s.tasks[run].phase)))
  }

  ghost predicate TableInv(s: Manager) {
    forall run {:trigger Consistent(s, run)} :: Consistent(s, run)
  }

  lemma LeaveKeepsLocks(s: Manager, run: RunId)
    requires LockInv(s) && run in s.tasks && Holding(s.tasks[run].phase)
    ensures LockInv(Leave(s, run))
  {
  }

  lemma MoveKeepsLocks(s: Manager, run: RunId, phase: Phase)
    requires LockInv(s) && run in s.tasks && Holding(s.tasks[run].phase) == Holding(phase)
    ensures LockInv(Move(s, run, phase)) && LockInv(Finally(s, run)) == LockInv(Move(s, run, Finishing))
  {
  }

  lemma AbortKeepsLocks(s: Manager, run: RunId)
    requires LockInv(s) && Enabled(s, Abort(run))
    ensures LockInv(Apply(s, Abort(run)))
  {
    match s.tasks[run].phase
    case Queued => MoveKeepsLocks(s, run, Done);
    case Granted => LeaveKeepsLocks(s, run);
    case Finishing => LeaveKeepsLocks(s, run);
    case _ => MoveKeepsLocks(s, run, Finishing);
  }

  lemma CliReturnKeepsLocks(s: Manager, step: Step)
    requires step.CliReturns? && LockInv(s) && Enabled(s, step)
    ensures LockInv(Apply(s, step))
  {
    MoveKeepsLocks(s, step.run, Finishing);
    MoveKeepsLocks(s, step.run, Parsing);
    MoveKeepsLocks(s, step.run, Applying);
  }

  // The steps that only write the manager's own tables.
  predicate WritesTables(step: Step) {
    step.Enqueue? || step.DoneCallback? || step.Cancel? || step.BeginShutdown? || step.ClearTables?
  }

  // The steps of a run's coroutine up to its first process, but for aborts.
  predicate Enters(step: Step) {
    step.Grant? || step.Load? || step.Start?
  }

  predicate Works(step: Step) {
    step.Spawn? || step.ProcessExits? || step.Parse? || step.ApplyPatch? || step.Finish?
  }

  lemma TablesKeepLocks(s: Manager, step: Step)
    requires WritesTables(step) && LockInv(s) && Enabled(s, step)
    ensures LockInv(Apply(s, step))
  {
    if step.DoneCallback? {
      MoveKeepsLocks(s, step.run, Gone);
    }
  }

  lemma EntryKeepsLocks(s: Manager, step: Step)
    requires Enters(step) && LockInv(s) && Enabled(s, step)
    ensures LockInv(Apply(s, step))
  {
    match step
    case Grant(_) =>
    case Load(run, _) =>
      LeaveKeepsLocks(s, run);
      MoveKeepsLocks(s, run, Starting);
    case Start(run) =>
      MoveKeepsLocks(s, run, Finishing);
      MoveKeepsLocks(s, run, Spawning(false));
  }

  lemma WorkKeepsLocks(s: Manager, step: Step)
    requires Works(step) && LockInv(s) && Enabled(s, step)
    ensures LockInv(Apply(s, step))
  {
    match step
    case Spawn(run) => MoveKeepsLocks(s, run, Calling(s.tasks[run].phase.repair));
    case ProcessExits(_, _) =>
    case Parse(run, valid) => MoveKeepsLocks(s, run, if valid then Applying else Spawning(true));
    case ApplyPatch(run) => MoveKeepsLocks(s, run, Finishing);
    case Finish(run) => LeaveKeepsLocks(s, run);
  }

  lemma StepKeepsLocks(s: Manager, step: Step)
    requires LockInv(s) && Enabled(s, step)
    ensures LockInv(Apply(s, step))
  {
    if WritesTables(step) {
      TablesKeepLocks(s, step);
    } else if Enters(step) {
      EntryKeepsLocks(s, step);
    } else if Works(step) {
      WorkKeepsLocks(s, step);
    } else if step.Abort? {
      AbortKeepsLocks(s, step.run);
    } else {
      CliReturnKeepsLocks(s, step);
    }
  }

  lemma AbortKeepsConsistent(s: Manager, step: Step, run: RunId)
    requires step.Abort? && Consistent(s, run) && Enabled(s, step)
    ensures Consistent(Apply(s, step), run)
  {
  }

  lemma CliReturnKeepsConsistent(s: Manager, step: Step, run: RunId)
    requires step.CliReturns? && Consistent(s, run) && Enabled(s, step)
    ensures Consistent(Apply(s, step), run)
  {
  }

  lemma TablesKeepConsistent(s: Manager, step: Step, run: RunId)
    requires WritesTables(step) && Consistent(s, run) && Enabled(s, step)
    ensures Consistent(Apply(s, step), run)
  {
  }

  lemma EntryKeepsConsistent(s: Manager, step: Step, run: RunId)
    requires Enters(step) && Consistent(s, run) && Enabled(s, step)
    ensures Consistent(Apply(s, step), run)
  {
  }

  lemma WorkKeepsConsistent(s: Manager, step: Step, run: RunId)
    requires Works(step) && Consistent(s, run) && Enabled(s, step)
    ensures Consistent(Apply(s, step), run)
  {
  }

  lemma StepKeepsConsistent(s: Manager, step: Step, run: RunId)
    requires Consistent(s, run) && Enabled(s, step)
    ensures Consistent(Apply(s, step), run)
  {
    if WritesTables(step) {
      TablesKeepConsistent(s, step, run);
    } else if Enters(step) {
      EntryKeepsConsistent(s, step, run);
    } else if Works(step) {
      WorkKeepsConsistent(s, step, run);
    } else if step.Abort? {
      AbortKeepsConsistent(s, step, run);
    } else {
      CliReturnKeepsConsistent(s, step, run);
    }
  }

  lemma {:induction false} RunKeepsInvariants(steps: seq<Step>)
    requires ExecFrom(INITIAL, steps).Some?
    ensures LockInv(ExecFrom(INITIAL, steps).value) && TableInv(ExecFrom(INITIAL, steps).value)
  {
    if steps != [] {
      var s, step := ExecFrom(INITIAL, steps[..|steps| - 1]).value, steps[|steps| - 1];
      RunKeepsInvariants(steps[..|steps| - 1]);
      StepKeepsLocks(s, step);
      forall run ensures Consistent(Apply(s, step), run) {
        StepKeepsConsistent(s, step, run);
      }
    }
  }

  /** At most one run of a meeting is inside `_execute`. */
  lemma OneRunPerMeeting(steps: seq<Step>, s: Manager, a: RunId, b: RunId)
    requires ExecFrom(INITIAL, steps) == Some(s)
    requires a in s.tasks && b in s.tasks && s.tasks[a].meeting == s.tasks[b].meeting
    requires Executing(s.tasks[a].phase) && Executing(s.tasks[b].phase)
    ensures a == b
  {
    RunKeepsInvariants(steps);
  }

  /** Cancelled ids are always tracked, and once every callback has run all tables are empty. */
  lemma BookkeepingNeverLeaks(steps: seq<Step>, s: Manager)
    requires ExecFrom(INITIAL, steps) == Some(s)
    ensures s.cancelled <= s.tracked <= s.tasks.Keys
    ensures (forall run | run in s.tasks :: s.tasks[run].phase.Gone?) ==>
              s.cancelled == {} && s.tracked == {} && s.processes == map[] && s.locks == map[]
  {
    RunKeepsInvariants(steps);
    forall run
      ensures run in s.cancelled ==> run in s.tracked
      ensures run in s.tracked || run in s.processes ==> run in s.tasks && !s.tasks[run].phase.Gone?
    {
      assert Consistent(s, run);
    }
    if forall run | run in s.tasks :: s.tasks[run].phase.Gone? {
      assert s.locks.Keys == {} && s.processes.Keys == {};
    }
  }

  // ---- what a recorded cancellation prevents ----

  // Recorded before the run was let into `_execute`; or the run is over without having been.
  predicate NeverStarted(s: Manager, run: RunId) {
    && run in s.tasks && run !in s.patched
    && (Over(s.tasks[run].phase) || (run in s.cancelled && Waiting(s.tasks[run].phase)))
  }

  // Recorded while a CLI call was still to return; or the call failed, or the run is past the point of patching.
  predicate NeverPatched(s: Manager, run: RunId) {
    && run in s.tasks && run !in s.patched
    && (|| s.tasks[run].phase.Finishing? || Over(s.tasks[run].phase) || CallFailed(s, run)
        || (run in s.cancelled && AwaitsCli(s.tasks[run].phase)))
  }

  // Its process has exited with an error and is about to be noticed.
  predicate CallFailed(s: Manager, run: RunId)
    requires run in s.tasks
  {
    s.tasks[run].phase.Calling? && run in s.processes && s.processes[run] == Exited(false)
  }

  predicate AwaitsCli(phase: Phase) {
    phase.Queued? || phase.Granted? || phase.Starting? || phase.Spawning? || phase.Calling?
  }

  lemma TablesSeal(s: Manager, step: Step, run: RunId)
    requires WritesTables(step) && Enabled(s, step)
    ensures NeverStarted(s, run) ==> NeverStarted(Apply(s, step), run)
    ensures NeverPatched(s, run) ==> NeverPatched(Apply(s, step), run)
  {
  }

  lemma EntrySeals(s: Manager, step: Step, run: RunId)
    requires Enters(step) && Enabled(s, step)
    ensures NeverStarted(s, run) ==> NeverStarted(Apply(s, step), run)
    ensures NeverPatched(s, run) ==> NeverPatched(Apply(s, step), run)
  {
  }

  lemma WorkSeals(s: Manager, step: Step, run: RunId)
    requires Works(step) && Enabled(s, step)
    ensures NeverStarted(s, run) ==> NeverStarted(Apply(s, step), run)
    ensures NeverPatched(s, run) ==> NeverPatched(Apply(s, step), run)
  {
  }

  lemma EndSeals(s: Manager, step: Step, run: RunId)
    requires (step.Abort? || step.CliReturns?) && Enabled(s, step)
    ensures NeverStarted(s, run) ==> NeverStarted(Apply(s, step), run)
    ensures NeverPatched(s, run) ==> NeverPatched(Apply(s, step), run)
  {
  }

  lemma StepSeals(s: Manager, step: Step, run: RunId)
    requires Enabled(s, step)
    ensures NeverStarted(s, run) ==> NeverStarted(Apply(s, step), run)
    ensures NeverPatched(s, run) ==> NeverPatched(Apply(s, step), run)
  {
    if WritesTables(step) {
      TablesSeal(s, step, run);
    } else if Enters(step) {
      EntrySeals(s, step, run);
    } else if Works(step) {
      WorkSeals(s, step, run);
    } else {
      EndSeals(s, step, run);
    }
  }

  lemma {:induction false} FateIsSealed(s: Manager, later: seq<Step>, run: RunId)
    requires ExecFrom(s, later).Some?
    ensures NeverStarted(s, run) ==> NeverStarted(ExecFrom(s, later).value, run)
    ensures NeverPatched(s, run) ==> NeverPatched(ExecFrom(s, later).value, run)
  {
    if later != [] {
      FateIsSealed(s, later[..|later| - 1], run);
      StepSeals(ExecFrom(s, later[..|later| - 1]).value, later[|later| - 1], run);
    }
  }

  /** A run recorded as cancelled before its lock is granted (or its row read) never executes. */
  lemma CancelledEarlyNeverExecutes(steps: seq<Step>, s: Manager, later: seq<Step>, t: Manager, run: RunId)
    requires ExecFrom(INITIAL, steps) == Some(s) && ExecFrom(s, later) == Some(t)
    requires run in s.cancelled && run in s.tasks && Waiting(s.tasks[run].phase)
    ensures run in t.tasks && !Executing(t.tasks[run].phase) && run !in t.patched
  {
    RunKeepsInvariants(steps);
    assert Consistent(s, run);
    FateIsSealed(s, later, run);
  }

  /** A run recorded as cancelled while a CLI call has yet to return never applies a state patch. */
  lemma CancelledInTimeNeverPatches(steps: seq<Step>, s: Manager, later: seq<Step>, t: Manager, run: RunId)
    requires ExecFrom(INITIAL, steps) == Some(s) && ExecFrom(s, later) == Some(t)
    requires run in s.cancelled && run in s.tasks && AwaitsCli(s.tasks[run].phase)
    ensures run !in t.patched
  {
    RunKeepsInvariants(steps);
    assert Consistent(s, run);
    FateIsSealed(s, later, run);
  }

  lemma Extend(from: Manager, steps: seq<Step>, s: Manager, step: Step) returns (longer: seq<Step>, after: Manager)
    requires ExecFrom(from, steps) == Some(s) && Enabled(s, step)
    ensures after == Apply(s, step) && ExecFrom(from, longer) == Some(after)
  {
    longer := steps + [step];
    after := Apply(s, step);
    assert longer[..|longer| - 1] == steps;
  }

  /** Recorded later than that, a cancellation comes too late: the patch can still be applied. */
  lemma CancelledLateMayPatch(s: Manager, run: RunId) returns (later: seq<Step>, after: Manager)
    requires run in s.tasks && PastLastCheck(s.tasks[run].phase)
    ensures ExecFrom(s, later) == Some(after) && run in after.patched
  {
    later, after := AppliesPatch(s, [], s, run);
  }

  lemma AppliesPatch(from: Manager, steps: seq<Step>, s: Manager, run: RunId)
    returns (later: seq<Step>, after: Manager)
    requires ExecFrom(from, steps) == Some(s) && run in s.tasks && PastLastCheck(s.tasks[run].phase)
    ensures ExecFrom(from, later) == Some(after) && run in after.patched
  {
    later, after := steps, s;
    if s.tasks[run].phase.Parsing? {
      later, after := Extend(from, later, after, Parse(run, true));
    }
    later, after := Extend(from, later, after, ApplyPatch(run));
  }

  // A lone run on its way to its first answer.
  ghost predicate Lone(s: Manager, run: RunId, meeting: MeetingId, phase: Phase) {
    && s.tasks == map[run := Task(meeting, phase)] && s.tracked == {run}
    && s.cancelled == {} && !s.closing
  }

  lemma LoneStarts(run: RunId, meeting: MeetingId) returns (steps: seq<Step>, s: Manager)
    ensures ExecFrom(INITIAL, steps) == Some(s) && Lone(s, run, meeting, Spawning(false))
  {
    steps, s := Extend(INITIAL, [], INITIAL, Enqueue(run, meeting));
    assert Lone(s, run, meeting, Queued);
    steps, s := Extend(INITIAL, steps, s, Grant(run));
    steps, s := Extend(INITIAL, steps, s, Load(run, true));
    assert Lone(s, run, meeting, Starting);
    steps, s := Extend(INITIAL, steps, s, Start(run));
  }

  /** A lone run whose first answer has just been committed when its cancellation is accepted. */
  lemma LateCancelWitness(run: RunId, meeting: MeetingId) returns (steps: seq<Step>, s: Manager)
    ensures ExecFrom(INITIAL, steps) == Some(s)
    ensures run in s.cancelled && run in s.tasks && s.tasks[run].phase.Parsing? && run !in s.patched
  {
    steps, s := LoneStarts(run, meeting);
    RunKeepsInvariants(steps);
    assert Consistent(s, run);
    steps, s := Extend(INITIAL, steps, s, Spawn(run));
    assert Lone(s, run, meeting, Calling(false));
    steps, s := Extend(INITIAL, steps, s, ProcessExits(run, true));
    steps, s := Extend(INITIAL, steps, s, CliReturns(run, false));
    assert Lone(s, run, meeting, Parsing);
    steps, s := Extend(INITIAL, steps, s, Cancel(run));
  }

  predicate PastLastCheck(phase: Phase) {
    phase.Parsing? || phase.Applying?
  }

  // Nothing that has happened keeps the run from its patch.
  predicate MayStillPatch(s: Manager, run: RunId)
    requires run in s.tasks
  {
    var phase := s.tasks[run].phase;
    PastLastCheck(phase) || (AwaitsCli(phase) && run !in s.cancelled && !CallFailed(s, run))
  }

  // The run stands at `phase` and is not cancelled.
  predicate At(s: Manager, run: RunId, phase: Phase) {
    run in s.tasks && s.tasks[run].phase == phase && run !in s.cancelled
  }

  // Whoever holds the meeting's lock can be aborted, which frees it.
  lemma LockIsFreed(from: Manager, steps: seq<Step>, s: Manager, run: RunId) returns (later: seq<Step>, after: Manager)
    requires ExecFrom(from, steps) == Some(s) && LockInv(s) && At(s, run, Queued)
    ensures ExecFrom(from, later) == Some(after) && At(after, run, Queued)
    ensures after.tasks[run].meeting !in after.locks
  {
    var m := s.tasks[run].meeting;
    later, after := steps, s;
    if m in s.locks {
      var holder := s.locks[m];
      later, after := Extend(from, later, after, Abort(holder));
      if after.tasks[holder].phase.Finishing? {
        later, after := Extend(from, later, after, Finish(holder));
      }
    }
  }

  lemma QueuedSpawns(from: Manager, steps: seq<Step>, s: Manager, run: RunId)
    returns (later: seq<Step>, after: Manager)
    requires ExecFrom(from, steps) == Some(s) && LockInv(s) && run in s.tasks && run !in s.cancelled
    requires s.tasks[run].phase in {Queued, Granted, Starting}
    ensures ExecFrom(from, later) == Some(after) && At(after, run, Spawning(false))
  {
    later, after := steps, s;
    if after.tasks[run].phase.Queued? {
      later, after := LockIsFreed(from, later, after, run);
      later, after := Extend(from, later, after, Grant(run));
    }
    if after.tasks[run].phase.Granted? {
      later, after := Extend(from, later, after, Load(run, true));
    }
    later, after := Extend(from, later, after, Start(run));
  }

  lemma CallReturns(from: Manager, steps: seq<Step>, s: Manager, run: RunId) returns (later: seq<Step>, after: Manager)
    requires ExecFrom(from, steps) == Some(s) && run in s.tasks && run !in s.cancelled
    requires s.tasks[run].phase.Calling? && run in s.processes && !CallFailed(s, run)
    ensures ExecFrom(from, later) == Some(after) && run in after.tasks && PastLastCheck(after.tasks[run].phase)
  {
    later, after := steps, s;
    if after.processes[run].Running? {
      later, after := Extend(from, later, after, ProcessExits(run, true));
    }
    later, after := Extend(from, later, after, CliReturns(run, true));
  }

  lemma CanStillPatch(s: Manager, run: RunId) returns (later: seq<Step>, after: Manager)
    requires LockInv(s) && Consistent(s, run) && run in s.tasks && MayStillPatch(s, run)
    ensures ExecFrom(s, later) == Some(after) && run in after.patched
  {
    later, after := [], s;
    if !PastLastCheck(after.tasks[run].phase) {
      if after.tasks[run].phase in {Queued, Granted, Starting} {
        later, after := QueuedSpawns(s, later, after, run);
      }
      if after.tasks[run].phase.Spawning? {
        later, after := Extend(s, later, after, Spawn(run));
      }
      later, after := CallReturns(s, later, after, run);
    }
    later, after := AppliesPatch(s, later, after, run);
  }

  /**
   In every reachable state, a run that has not patched yet can still do so exactly when its last call
   has been checked, or no call has failed and it is not cancelled while one is still to return.
   */
  lemma PatchesExactly(steps: seq<Step>, s: Manager, run: RunId)
    requires ExecFrom(INITIAL, steps) == Some(s) && run in s.tasks && run !in s.patched
    ensures (exists later :: ExecFrom(s, later).Some? && run in ExecFrom(s, later).value.patched)
            <==> MayStillPatch(s, run)
  {
    RunKeepsInvariants(steps);
    assert Consistent(s, run);
    if MayStillPatch(s, run) {
      var later, after := CanStillPatch(s, run);
      assert run in ExecFrom(s, later).value.patched;
    } else {
      forall later | ExecFrom(s, later).Some? ensures run !in ExecFrom(s, later).value.patched {
        FateIsSealed(s, later, run);
      }
    }
  }

  /** So a cancelled run can still patch exactly when it is past its last check. Such states are reached. */
  lemma CancelledPatchesExactly(steps: seq<Step>, s: Manager, run: RunId)
    requires ExecFrom(INITIAL, steps) == Some(s)
    requires run in s.cancelled && run in s.tasks && run !in s.patched
    ensures (exists later :: ExecFrom(s, later).Some? && run in ExecFrom(s, later).value.patched)
            <==> PastLastCheck(s.tasks[run].phase)
  {
    PatchesExactly(steps, s, run);
  }

  /** An invalid first answer is not the end: the run can still patch, exactly unless it is cancelled. */
  lemma InvalidAnswerIsRepaired(steps: seq<Step>, s: Manager, run: RunId)
    requires ExecFrom(INITIAL, steps) == Some(s) && Enabled(s, Parse(run, false))
    ensures var after := Apply(s, Parse(run, false));
            (exists later :: ExecFrom(after, later).Some? && run in ExecFrom(after, later).value.patched)
            <==> run !in s.cancelled
  {
    RunKeepsInvariants(steps);
    assert Consistent(s, run);
    var longer, after := Extend(INITIAL, steps, s, Parse(run, false));
    PatchesExactly(longer, after, run);
  }

  // ---- shutdown ----

  /** Once shutdown has begun it is never taken back, and no run comes in any more. */
  lemma ShutdownIsFinal(s: Manager, step: Step)
    requires Enabled(s, step)
    ensures s.closing || step.BeginShutdown? ==> Apply(s, step).closing && Apply(s, step).tasks.Keys == s.tasks.Keys
  {
  }

  // A run that is not over is aborted and gets to the end of its coroutine.
  lemma AbortEnds(from: Manager, steps: seq<Step>, s: Manager, run: RunId) returns (later: seq<Step>, after: Manager)
    requires ExecFrom(from, steps) == Some(s) && run in s.tasks && !Over(s.tasks[run].phase)
    ensures ExecFrom(from, later) == Some(after) && after.closing == s.closing
    ensures after.tasks == s.tasks[run := s.tasks[run].(phase := Done)]
  {
    later, after := Extend(from, steps, s, Abort(run));
    if after.tasks[run].phase.Finishing? {
      later, after := Extend(from, later, after, Finish(run));
    }
  }

  // Then its callback runs.
  lemma RunEnds(from: Manager, steps: seq<Step>, s: Manager, run: RunId) returns (later: seq<Step>, after: Manager)
    requires ExecFrom(from, steps) == Some(s) && run in s.tasks && !s.tasks[run].phase.Gone?
    ensures ExecFrom(from, later) == Some(after) && after.closing == s.closing
    ensures after.tasks == s.tasks[run := s.tasks[run].(phase := Gone)]
  {
    later, after := steps, s;
    if !Over(s.tasks[run].phase) {
      later, after := AbortEnds(from, later, after, run);
    }
    later, after := Extend(from, later, after, DoneCallback(run));
  }

  lemma {:induction false} AllEnd(from: Manager, steps: seq<Step>, s: Manager, left: set<RunId>)
    returns (later: seq<Step>, after: Manager)
    requires ExecFrom(from, steps) == Some(s) && s.closing
    requires forall run | run in s.tasks && !s.tasks[run].phase.Gone? :: run in left
    ensures ExecFrom(from, later) == Some(after) && after.closing && after.tasks.Keys == s.tasks.Keys
    ensures forall run | run in after.tasks :: after.tasks[run].phase.Gone?
    decreases left
  {
    later, after := steps, s;
    if run :| run in s.tasks && !s.tasks[run].phase.Gone? {
      later, after := RunEnds(from, later, after, run);
      later, after := AllEnd(from, later, after, left - {run});
    }
  }

  /** From every state a shutdown can be completed: every run and its callback end, and all tables are empty. */
  lemma ShutdownCompletes(s: Manager) returns (later: seq<Step>, after: Manager)
    ensures ExecFrom(s, later) == Some(after) && after.closing && after.tasks.Keys == s.tasks.Keys
    ensures forall run | run in after.tasks :: after.tasks[run].phase.Gone?
    ensures after.processes == map[] && after.tracked == {} && after.cancelled == {}
  {
    later, after := Extend(s, [], s, BeginShutdown);
    later, after := AllEnd(s, later, after, s.tasks.Keys);
    later, after := Extend(s, later, after, ClearTables);
  }

  /** Until shutdown every new run is taken in, and can then get as far as its patch. */
  lemma EnqueuedCanPatch(steps: seq<Step>, s: Manager, run: RunId, meeting: MeetingId)
    requires ExecFrom(INITIAL, steps) == Some(s) && run !in s.tasks && !s.closing
    ensures Enabled(s, Enqueue(run, meeting))
    ensures var after := Apply(s, Enqueue(run, meeting));
            exists later :: ExecFrom(after, later).Some? && run in ExecFrom(after, later).value.patched
  {
    RunKeepsInvariants(steps);
    assert Consistent(s, run);
    var longer, after := Extend(INITIAL, steps, s, Enqueue(run, meeting));
    PatchesExactly(longer, after, run);
  }

  /** Until shutdown a cancellation is recorded in every reachable state, exactly for runs that are not over. */
  lemma CancelRecordsExactly(steps: seq<Step>, s: Manager, run: RunId)
    requires ExecFrom(INITIAL, steps) == Some(s) && !s.closing
    ensures Enabled(s, Cancel(run))
    ensures run in Apply(s, Cancel(run)).cancelled <==>
            run in s.cancelled || (run in s.tasks && !Over(s.tasks[run].phase))
  {
    RunKeepsInvariants(steps);
    assert Consistent(s, run);
  }

  // ---- what a patch takes ----

  // How many processes were started for a run.
  function Spawns(steps: seq<Step>, run: RunId): nat {
    if steps == [] then 0
    else Spawns(steps[..|steps| - 1], run) + (if steps[|steps| - 1] == Spawn(run) then 1 else 0)
  }

  // Its first answer was invalid, and a call after that returned a valid one.
  predicate Repaired(steps: seq<Step>, run: RunId) {
    exists i, j :: 0 <= i < j < |steps| && steps[i] == Parse(run, false) && steps[j] == CliReturns(run, true)
  }

  // The history shows a valid answer: that of the only call, or that of the second one after an invalid
  // first; and no call that failed.
  predicate Validated(steps: seq<Step>, run: RunId) {
    && ProcessExits(run, false) !in steps
    && (if Parse(run, false) in steps then Repaired(steps, run) && Spawns(steps, run) == 2
        else Parse(run, true) in steps && Spawns(steps, run) == 1)
  }

  // So many calls were made, and the first answer has not been found valid.
  predicate Called(steps: seq<Step>, run: RunId, invalid: bool, spawns: nat) {
    Spawns(steps, run) == spawns && (Parse(run, false) in steps <==> invalid)
  }

  // What the history must show of a run that stands at `phase`.
  predicate Recorded(steps: seq<Step>, run: RunId, phase: Phase) {
    match phase
    case Spawning(repair) => Called(steps, run, repair, if repair then 1 else 0)
    case Calling(repair) => Called(steps, run, repair, if repair then 2 else 1)
    case Parsing => Called(steps, run, false, 1)
    case Applying => Validated(steps, run)
    case _ => if Waiting(phase) || phase.Starting? then Called(steps, run, false, 0) else Spawns(steps, run) <= 2
  }

  // After a failed call nothing but its end is left.
  predicate FailedCallEnds(steps: seq<Step>, s: Manager, run: RunId) {
    ProcessExits(run, false) in steps ==>
      run in s.tasks && (s.tasks[run].phase.Finishing? || Over(s.tasks[run].phase) || CallFailed(s, run))
  }

  predicate HistoryOk(steps: seq<Step>, s: Manager, run: RunId) {
    && FailedCallEnds(steps, s, run)
    && (if run in s.tasks then Recorded(steps, run, s.tasks[run].phase) else Called(steps, run, false, 0))
    && (run in s.patched ==> Validated(steps, run))
  }

  lemma HistoryGrows(steps: seq<Step>, step: Step, run: RunId)
    ensures Spawns(steps + [step], run) == Spawns(steps, run) + (if step == Spawn(run) then 1 else 0)
    ensures Repaired(steps, run) ==> Repaired(steps + [step], run)
    ensures step == CliReturns(run, true) && Parse(run, false) in steps ==> Repaired(steps + [step], run)
  {
    var longer := steps + [step];
    assert longer[..|steps|] == steps;
    if Repaired(steps, run) {
      var i, j :| 0 <= i < j < |steps| && steps[i] == Parse(run, false) && steps[j] == CliReturns(run, true);
      assert longer[i] == Parse(run, false) && longer[j] == CliReturns(run, true);
    }
    if step == CliReturns(run, true) && Parse(run, false) in steps {
      var i :| 0 <= i < |steps| && steps[i] == Parse(run, false);
      assert longer[i] == Parse(run, false) && longer[|steps|] == step;
    }
  }

  // The steps that leave a mark in what is recorded of the run.
  predicate Marks(step: Step, run: RunId) {
    step in {Spawn(run), Parse(run, true), Parse(run, false), ProcessExits(run, false), CliReturns(run, true)}
  }

  lemma UnmarkedStays(steps: seq<Step>, s: Manager, step: Step, run: RunId)
    requires !Marks(step, run) && HistoryOk(steps, s, run)
    ensures HistoryOk(steps + [step], s, run)
  {
    HistoryGrows(steps, step, run);
  }

  lemma TablesKeepHistory(steps: seq<Step>, s: Manager, step: Step, run: RunId)
    requires WritesTables(step) && HistoryOk(steps, s, run) && Enabled(s, step)
    ensures HistoryOk(steps, Apply(s, step), run)
  {
  }

  lemma EntryKeepsHistory(steps: seq<Step>, s: Manager, step: Step, run: RunId)
    requires Enters(step) && HistoryOk(steps, s, run) && Enabled(s, step)
    ensures HistoryOk(steps, Apply(s, step), run)
  {
  }

  lemma WorkKeepsHistory(steps: seq<Step>, s: Manager, step: Step, run: RunId)
    requires Works(step) && !Marks(step, run) && HistoryOk(steps, s, run) && Consistent(s, run) && Enabled(s, step)
    ensures HistoryOk(steps, Apply(s, step), run)
  {
  }

  lemma AbortKeepsHistory(steps: seq<Step>, s: Manager, step: Step, run: RunId)
    requires step.Abort? && HistoryOk(steps, s, run) && Enabled(s, step)
    ensures HistoryOk(steps, Apply(s, step), run)
  {
  }

  lemma CliReturnKeepsHistory(steps: seq<Step>, s: Manager, step: Step, run: RunId)
    requires step.CliReturns? && !Marks(step, run) && HistoryOk(steps, s, run) && Enabled(s, step)
    ensures HistoryOk(steps, Apply(s, step), run)
  {
  }

  lemma UnmarkedKeepsHistory(steps: seq<Step>, s: Manager, step: Step, run: RunId)
    requires !Marks(step, run) && HistoryOk(steps, s, run) && Consistent(s, run) && Enabled(s, step)
    ensures HistoryOk(steps + [step], Apply(s, step), run)
  {
    if WritesTables(step) {
      TablesKeepHistory(steps, s, step, run);
    } else if Enters(step) {
      EntryKeepsHistory(steps, s, step, run);
    } else if Works(step) {
      WorkKeepsHistory(steps, s, step, run);
    } else if step.Abort? {
      AbortKeepsHistory(steps, s, step, run);
    } else {
      CliReturnKeepsHistory(steps, s, step, run);
    }
    UnmarkedStays(steps, Apply(s, step), step, run);
  }

  lemma SpawnKeepsHistory(steps: seq<Step>, s: Manager, run: RunId)
    requires HistoryOk(steps, s, run) && Consistent(s, run) && Enabled(s, Spawn(run))
    ensures HistoryOk(steps + [Spawn(run)], Apply(s, Spawn(run)), run)
  {
    HistoryGrows(steps, Spawn(run), run);
  }

  lemma ParseKeepsHistory(steps: seq<Step>, s: Manager, run: RunId, valid: bool)
    requires HistoryOk(steps, s, run) && Consistent(s, run) && Enabled(s, Parse(run, valid))
    ensures HistoryOk(steps + [Parse(run, valid)], Apply(s, Parse(run, valid)), run)
  {
    HistoryGrows(steps, Parse(run, valid), run);
    assert (steps + [Parse(run, valid)])[|steps|] == Parse(run, valid);
  }

  lemma FailureKeepsHistory(steps: seq<Step>, s: Manager, run: RunId)
    requires HistoryOk(steps, s, run) && Consistent(s, run) && Enabled(s, ProcessExits(run, false))
    ensures HistoryOk(steps + [ProcessExits(run, false)], Apply(s, ProcessExits(run, false)), run)
  {
    HistoryGrows(steps, ProcessExits(run, false), run);
  }

  lemma ReturnKeepsHistory(steps: seq<Step>, s: Manager, run: RunId)
    requires HistoryOk(steps, s, run) && Consistent(s, run) && Enabled(s, CliReturns(run, true))
    ensures HistoryOk(steps + [CliReturns(run, true)], Apply(s, CliReturns(run, true)), run)
  {
    HistoryGrows(steps, CliReturns(run, true), run);
  }

  lemma StepKeepsHistory(steps: seq<Step>, s: Manager, step: Step, run: RunId)
    requires HistoryOk(steps, s, run) && Consistent(s, run) && Enabled(s, step)
    ensures HistoryOk(steps + [step], Apply(s, step), run)
  {
    if !Marks(step, run) {
      UnmarkedKeepsHistory(steps, s, step, run);
    } else {
      match step
      case Spawn(_) => SpawnKeepsHistory(steps, s, run);
      case Parse(_, valid) => ParseKeepsHistory(steps, s, run, valid);
      case ProcessExits(_, _) => FailureKeepsHistory(steps, s, run);
      case CliReturns(_, _) => ReturnKeepsHistory(steps, s, run);
    }
  }

  lemma {:induction false} RunKeepsHistory(steps: seq<Step>, s: Manager, run: RunId)
    requires ExecFrom(INITIAL, steps) == Some(s)
    ensures HistoryOk(steps, s, run)
  {
    if steps != [] {
      var front, step := steps[..|steps| - 1], steps[|steps| - 1];
      var before := ExecFrom(INITIAL, front).value;
      RunKeepsHistory(front, before, run);
      RunKeepsInvariants(front);
      assert Consistent(before, run);
      StepKeepsHistory(front, before, step, run);
      assert steps == front + [step];
    }
  }

  /**
   Over every run: a state patch is applied only after a valid answer. Either that of the one call there
   was; or, when that was invalid, the one of exactly one more call, which came later.
   */
  lemma PatchNeedsValidAnswer(steps: seq<Step>, s: Manager, run: RunId)
    requires ExecFrom(INITIAL, steps) == Some(s)
    ensures run in s.patched ==> Validated(steps, run)
    ensures Spawns(steps, run) <= 2
  {
    RunKeepsHistory(steps, s, run);
  }

  lemma StepPatches(s: Manager, step: Step)
    requires Enabled(s, step)
    ensures Apply(s, step).patched == s.patched + (if step.ApplyPatch? then {step.run} else {})
  {
  }

  /** A run has patched exactly when the step that applies its patch was taken. */
  lemma {:induction false} PatchedByItsStep(steps: seq<Step>, s: Manager, run: RunId)
    requires ExecFrom(INITIAL, steps) == Some(s)
    ensures run in s.patched <==> ApplyPatch(run) in steps
  {
    if steps != [] {
      var front, step := steps[..|steps| - 1], steps[|steps| - 1];
      var before := ExecFrom(INITIAL, front).value;
      PatchedByItsStep(front, before, run);
      StepPatches(before, step);
      assert steps == front + [step];
    }
  }

  lemma {:induction false} PrefixRuns(steps: seq<Step>, i: nat)
    requires ExecFrom(INITIAL, steps).Some? && i <= |steps|
    ensures ExecFrom(INITIAL, steps[..i]).Some?
  {
    if i < |steps| {
      PrefixRuns(steps[..|steps| - 1], i);
      assert steps[..|steps| - 1][..i] == steps[..i];
    } else {
      assert steps[..i] == steps;
    }
  }

  /** The first validation, whatever comes of it, is that of the run's only call so far. */
  lemma FirstAnswerTookOneCall(steps: seq<Step>, i: nat, run: RunId, valid: bool)
    requires ExecFrom(INITIAL, steps).Some? && i < |steps| && steps[i] == Parse(run, valid)
    ensures Spawns(steps[..i], run) == 1 && Parse(run, false) !in steps[..i]
  {
    PrefixRuns(steps, i + 1);
    var front := steps[..i];
    assert steps[..i + 1][..i] == front && steps[..i + 1][i] == Parse(run, valid);
    RunKeepsHistory(front, ExecFrom(INITIAL, front).value, run);
  }

  // ---- the manager object ----

  /**
   The manager's own tables. Locks, tasks and processes belong to asyncio: what the manager reads of
   them is a parameter, and `s` is the whole system it is part of.
   */
  class EngineManager {
    var processes: set<RunId>
    var tasksByRun: set<RunId>
    var cancelledRuns: set<RunId>

    ghost predicate Valid()
      reads this
    {
      cancelledRuns <= tasksByRun && processes <= tasksByRun
    }

    ghost predicate Shows(s: Manager)
      reads this
    {
      processes == s.processes.Keys && tasksByRun == s.tracked && cancelledRuns == s.cancelled
    }

    constructor ()
      ensures Valid() && Shows(INITIAL)
    {
      processes, tasksByRun, cancelledRuns := {}, {}, {};
    }

    /** In every reachable state of the system the tables are consistent. */
    lemma ReachableIsValid(steps: seq<Step>, s: Manager)
      requires ExecFrom(INITIAL, steps) == Some(s) && Shows(s)
      ensures Valid()
    {
      RunKeepsInvariants(steps);
      forall run ensures run in cancelledRuns || run in processes ==> run in tasksByRun {
        assert Consistent(s, run);
      }
    }

    method Enqueue(ghost s: Manager, run: RunId, meeting: MeetingId)
      requires Valid() && Shows(s) && Enabled(s, Step.Enqueue(run, meeting))
      modifies this`tasksByRun
      ensures Valid() && Shows(Apply(s, Step.Enqueue(run, meeting)))
      ensures tasksByRun == old(tasksByRun) + {run}
    {
      tasksByRun := tasksByRun + {run};
    }

    /** The done callback: nothing of the run is left, and nothing else is lost. */
    method Discard(ghost s: Manager, run: RunId)
      requires Valid() && Shows(s) && Enabled(s, DoneCallback(run)) && run !in processes
      modifies this`tasksByRun, this`cancelledRuns
      ensures Valid() && Shows(Apply(s, DoneCallback(run)))
      ensures run !in tasksByRun + cancelledRuns + processes
      ensures tasksByRun == old(tasksByRun) - {run} && cancelledRuns == old(cancelledRuns) - {run}
    {
      tasksByRun := tasksByRun - {run};
      cancelledRuns := cancelledRuns - {run};
    }

    /**
     `cancel` without a worker URL. `running` says whether the registered process has no return code,
     `done` whether the tracked task has finished; the waits that follow change nothing here.
     */
    method Cancel(ghost s: Manager, run: RunId, running: bool, done: bool) returns (accepted: bool)
      requires Valid() && Shows(s) && Enabled(s, Step.Cancel(run))
      requires run in processes ==> running == s.processes[run].Running?
      requires run in tasksByRun ==> run in s.tasks && done == Over(s.tasks[run].phase)
      modifies this`cancelledRuns
      ensures Valid() && Shows(Apply(s, Step.Cancel(run)))
      ensures accepted <==> (run in processes && running) || (run in tasksByRun && !done)
      ensures cancelledRuns == if accepted then old(cancelledRuns) + {run} else old(cancelledRuns)
    {
      if run in processes && running {
        cancelledRuns := cancelledRuns + {run};
        return true;
      }
      if run in tasksByRun && !done {
        cancelledRuns := cancelledRuns + {run};
        return true;
      }
      return false;
    }

    /** `_run` with the lock held and the row loaded: whether `_execute` is entered. */
    method EntersExecute(ghost s: Manager, run: RunId, found: bool, cancelledRow: bool) returns (enters: bool)
      requires Shows(s) && Enabled(s, Load(run, found && !cancelledRow))
      ensures Shows(Apply(s, Load(run, found && !cancelledRow)))
      ensures enters <==> Apply(s, Load(run, found && !cancelledRow)).tasks[run].phase.Starting?
      ensures run in cancelledRuns ==> !enters
    {
      enters := !(!found || cancelledRow || run in cancelledRuns);
    }

    /** `_invoke_cli` once its process has been waited for, up to its caller's check. */
    method MayUseAnswer(ghost s: Manager, run: RunId, success: bool, valid: bool) returns (go: bool)
      requires Shows(s) && Enabled(s, CliReturns(run, valid)) && success == s.processes[run].success
      ensures !go ==> Apply(s, CliReturns(run, valid)) == Finally(s, run)
      ensures go && (valid || !s.tasks[run].phase.repair) ==>
                PastLastCheck(Apply(s, CliReturns(run, valid)).tasks[run].phase)
      ensures run in cancelledRuns ==> !go
    {
      go := run !in cancelledRuns && success;
    }

    /** The end of `shutdown`, after every coroutine has ended. */
    method Clear(ghost s: Manager)
      requires Shows(s) && Enabled(s, ClearTables)
      modifies this
      ensures Valid() && Shows(Apply(s, ClearTables))
      ensures tasksByRun + cancelledRuns + processes == {}
    {
      processes, tasksByRun, cancelledRuns := {}, {}, {};
    }
  }
}
