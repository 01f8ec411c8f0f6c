/**
 The CLI worker's execution lock (`backend/app/workers/engine_api.py`).

 Every `execute` call first takes an in-process asyncio lock for its meeting, then
 polls Redis with SET NX EX until it owns the meeting's lease, runs its body, and
 releases the lease with a compare-and-delete script. The model interleaves any
 number of calls in any number of worker processes with the passage of time, lost
 Redis replies and process crashes. Times are milliseconds on one monotone clock.
 */
module WorkerLock {
  import opened Prelude

  type ProcessId = nat
  type MeetingId = string
  // One per call of `execute`; also stands for the fresh uuid used as owner token.
  type CallId = nat

  const SECOND: nat := 1000
  const LEASE_MARGIN: nat := 120 * SECOND
  const ACQUIRE_WINDOW: nat := 10 * SECOND
  const REPAIR_LIMIT: nat := 60 * SECOND
  const MIN_TIMEOUT: nat := 1 * SECOND
  const MAX_TIMEOUT: nat := 900 * SECOND

  // What a call holding the lease is doing: its own code, or waiting for a CLI process.
  datatype Stage =
    | Work(since: nat)
    | FirstCall(since: nat)
    | RepairCall(since: nat)

  datatype Outcome = Answered | Conflict | Unavailable | Crashed

  // `cliTime` and `workTime` add up the finished stages of the body.
  datatype Phase =
    | WaitingLocal
    | Polling(deadline: nat)
    | Body(setAt: nat, stage: Stage, invocations: nat, cliTime: nat, workTime: nat)
    | Finished(outcome: Outcome)

  datatype Call = Call(process: ProcessId, meeting: MeetingId, timeout: nat, phase: Phase)

  datatype Lease = Lease(owner: CallId, expires: nat)

  datatype State = State(
    now: nat,
    calls: map<CallId, Call>,
    locks: map<(ProcessId, MeetingId), CallId>,
    leases: map<MeetingId, Lease>)

  // `slack` bounds the time one body spends outside the CLI processes it waits for.
  datatype Config = Config(redis: bool, slack: nat)

  datatype Step =
    | Arrive(c: CallId, process: ProcessId, meeting: MeetingId, timeout: nat)
    | TakeLocal(c: CallId)
    | SetGranted(c: CallId)
    | GiveUp(c: CallId)
    | SetFailed(c: CallId, applied: bool)
    | StartCli(c: CallId)
    | CliReturns(c: CallId)
    | Release(c: CallId, reached: bool)
    | Crash(process: ProcessId)
    | Tick(delay: nat)

  const INITIAL := State(0, map[], map[], map[])

  // Redis drops a key once its EX time is over.
  predicate Live(s: State, m: MeetingId) {
    m in s.leases && s.now < s.leases[m].expires
  }

  predicate Holding(s: State, c: CallId) {
    c in s.calls && (s.calls[c].phase.Polling? || s.calls[c].phase.Body?)
  }

  predicate InBody(s: State, c: CallId) {
    c in s.calls && s.calls[c].phase.Body?
  }

  function CliLimit(call: Call, stage: Stage): nat {
    if stage.RepairCall? then Min(REPAIR_LIMIT, call.timeout) else call.timeout
  }

  // Time may pass only while every wait stays within its own limit.
  predicate Patient(cfg: Config, call: Call, now: nat) {
    call.phase.Body? ==>
      match call.phase.stage
      case Work(since) => call.phase.workTime + (now - since) <= cfg.slack
      case _ => now <= call.phase.stage.since + CliLimit(call, call.phase.stage)
  }

  predicate Enabled(cfg: Config, s: State, step: Step) {
    match step
    case Arrive(c, _, _, timeout) => c !in s.calls && MIN_TIMEOUT <= timeout <= MAX_TIMEOUT
    case TakeLocal(c) =>
      c in s.calls && s.calls[c].phase.WaitingLocal? &&
      (s.calls[c].process, s.calls[c].meeting) !in s.locks
    case SetGranted(c) =>
      c in s.calls && s.calls[c].phase.Polling? && !Live(s, s.calls[c].meeting)
    case GiveUp(c) =>
      c in s.calls && s.calls[c].phase.Polling? && Live(s, s.calls[c].meeting) &&
      s.now >= s.calls[c].phase.deadline
    case SetFailed(c, applied) =>
      c in s.calls && s.calls[c].phase.Polling? && (applied ==> !Live(s, s.calls[c].meeting))
    case StartCli(c) =>
      InBody(s, c) && s.calls[c].phase.stage.Work? && s.calls[c].phase.invocations < 2
    case CliReturns(c) => InBody(s, c) && !s.calls[c].phase.stage.Work?
    case Release(c, _) => InBody(s, c) && s.calls[c].phase.stage.Work?
    case Crash(_) => true
    case Tick(delay) => forall c | c in s.calls :: Patient(cfg, s.calls[c], s.now + delay)
  }

  function WithPhase(s: State, c: CallId, phase: Phase): State
    requires c in s.calls
  {
    s.(calls := s.calls[c := s.calls[c].(phase := phase)])
  }

  function Leave(s: State, c: CallId, outcome: Outcome): State
    requires c in s.calls
  {
    WithPhase(s, c, Finished(outcome)).(locks := s.locks - {(s.calls[c].process, s.calls[c].meeting)})
  }

  function Grant(s: State, c: CallId): State
    requires c in s.calls
  {
    s.(leases := s.leases[s.calls[c].meeting :=
    Lease(c, s.now + s.calls[c].timeout + LEASE_MARGIN)])
  }

  // The release script: delete the key only while it still holds the caller's token.
  function CompareAndDelete(s: State, c: CallId): State
    requires c in s.calls
  {
    var m := s.calls[c].meeting;
    if Live(s, m) && s.leases[m].owner == c then s.(leases := s.leases - {m}) else s
  }

  function Apply(cfg: Config, s: State, step: Step): State
    requires Enabled(cfg, s, step)
  {
    match step
    case Arrive(c, process, meeting, timeout) =>
      s.(calls := s.calls[c := Call(process, meeting, timeout, WaitingLocal)])
    case TakeLocal(c) =>
      var key := (s.calls[c].process, s.calls[c].meeting);
      var phase := if cfg.redis then Polling(s.now + ACQUIRE_WINDOW)
                   else Body(s.now, Work(s.now), 0, 0, 0);
      WithPhase(s, c, phase).(locks := s.locks[key := c])
    case SetGranted(c) => WithPhase(Grant(s, c), c, Body(s.now, Work(s.now), 0, 0, 0))
    case GiveUp(c) => Leave(s, c, Conflict)
    case SetFailed(c, applied) => Leave(if applied then Grant(s, c) else s, c, Unavailable)
    case StartCli(c) =>
      var b := s.calls[c].phase;
      var stage := if b.invocations == 0 then FirstCall(s.now) else RepairCall(s.now);
      WithPhase(s, c, b.(stage := stage, workTime := b.workTime + Elapsed(s, b.stage)))
    case CliReturns(c) =>
      var b := s.calls[c].phase;
      WithPhase(s, c, b.(stage := Work(s.now), invocations := b.invocations + 1,
      cliTime := b.cliTime + Elapsed(s, b.stage)))
    case Release(c, reached) => Leave(if reached then CompareAndDelete(s, c) else s, c, Answered)
    case Crash(process) =>
      s.(calls := map c | c in s.calls :: Killed(s.calls[c], process),
      locks := map k | k in s.locks && k.0 != process :: s.locks[k])
    case Tick(delay) => s.(now := s.now + delay)
  }

  function Elapsed(s: State, stage: Stage): nat {
    if stage.since <= s.now then s.now - stage.since else 0
  }

  function Killed(call: Call, process: ProcessId): Call {
    if call.process == process && !call.phase.Finished? then call.(phase := Finished(Crashed)) else call
  }

  // The state after a run, or None when some step of it could not happen.
  function Exec(cfg: Config, steps: seq<Step>): Option<State> {
    if steps == [] then Some(INITIAL)
    else
      var before := Exec(cfg, steps[..|steps| - 1]);
      var step := steps[|steps| - 1];
      if before.Some? && Enabled(cfg, before.value, step)
      then Some(Apply(cfg, before.value, step)) else None
  }

  ghost predicate Exclusive(s: State) {
    forall c, d | InBody(s, c) && InBody(s, d) && s.calls[c].meeting == s.calls[d].meeting :: c == d
  }

  ghost predicate ExclusivePerProcess(s: State) {
    forall c, d | InBody(s, c) && InBody(s, d) && s.calls[c].meeting == s.calls[d].meeting &&
                  s.calls[c].process == s.calls[d].process :: c == d
  }

  // ---- what every step keeps, for every configuration ----

  ghost predicate LocalLockInv(s: State) {
    && (forall c | Holding(s, c) ::
          var k := (s.calls[c].process, s.calls[c].meeting); k in s.locks && s.locks[k] == c)
    && (forall k | k in s.locks ::
          Holding(s, s.locks[k]) &&
          k == (s.calls[s.locks[k]].process, s.calls[s.locks[k]].meeting))
  }

  // A lease never outlives the longest one a call may ask for.
  ghost predicate LeaseBound(s: State) {
    forall m | m in s.leases :: s.leases[m].expires <= s.now + MAX_TIMEOUT + LEASE_MARGIN
  }

  ghost predicate TimeoutsInRange(s: State) {
    forall c | c in s.calls :: MIN_TIMEOUT <= s.calls[c].timeout <= MAX_TIMEOUT
  }

  lemma LeaveKeepsLocalLocks(s: State, c: CallId, outcome: Outcome)
    requires LocalLockInv(s) && Holding(s, c)
    ensures LocalLockInv(Leave(s, c, outcome))
  {
  }

  lemma CrashKeepsLocalLocks(cfg: Config, s: State, process: ProcessId)
    requires LocalLockInv(s)
    ensures LocalLockInv(Apply(cfg, s, Crash(process)))
  {
    var after := Apply(cfg, s, Crash(process));
    forall c | Holding(after, c)
      ensures var k := (s.calls[c].process, s.calls[c].meeting); k in after.locks && after.locks[k] == c
    {
      assert Holding(s, c);
    }
  }

  lemma StepKeepsLocalLocks(cfg: Config, s: State, step: Step)
    requires LocalLockInv(s) && Enabled(cfg, s, step)
    ensures LocalLockInv(Apply(cfg, s, step))
  {
    match step
    case GiveUp(c) => LeaveKeepsLocalLocks(s, c, Conflict);
    case SetFailed(c, applied) =>
      LeaveKeepsLocalLocks(if applied then Grant(s, c) else s, c, Unavailable);
    case Release(c, reached) =>
      LeaveKeepsLocalLocks(if reached then CompareAndDelete(s, c) else s, c, Answered);
    case Crash(process) => CrashKeepsLocalLocks(cfg, s, process);
    case _ =>
  }

  lemma StepKeepsLeaseBound(cfg: Config, s: State, step: Step)
    requires TimeoutsInRange(s) && LeaseBound(s) && Enabled(cfg, s, step)
    ensures TimeoutsInRange(Apply(cfg, s, step)) && LeaseBound(Apply(cfg, s, step))
  {
  }

  // ---- the timing argument ----

  // The stages of a body account for all the time since its SET, within their limits.
  predicate Timely(cfg: Config, call: Call, now: nat) {
    call.phase.Body? ==>
      var b := call.phase;
      && b.stage.since <= now
      && b.stage.since == b.setAt + b.cliTime + b.workTime
      && b.workTime <= cfg.slack
      && Patient(cfg, call, now)
      && b.cliTime <= (if b.invocations >= 1 then call.timeout else 0)
                      + (if b.invocations >= 2 then Min(REPAIR_LIMIT, call.timeout) else 0)
      && b.invocations <= 2
      && (b.stage.FirstCall? ==> b.invocations == 0)
      && (b.stage.RepairCall? ==> b.invocations == 1)
  }

  ghost predicate AllTimely(cfg: Config, s: State) {
    forall c | c in s.calls :: Timely(cfg, s.calls[c], s.now)
  }

  // Each body still owns a lease granted when its SET succeeded.
  ghost predicate LeaseInv(s: State) {
    forall c | InBody(s, c) ::
      var call := s.calls[c];
      && call.meeting in s.leases
      && s.leases[call.meeting] == Lease(c, call.phase.setAt + call.timeout + LEASE_MARGIN)
  }

  lemma StepKeepsTimely(cfg: Config, s: State, step: Step)
    requires AllTimely(cfg, s) && Enabled(cfg, s, step)
    ensures AllTimely(cfg, Apply(cfg, s, step))
  {
  }

  // A body can be at most `timeout + min(60 s, timeout) + slack` old.
  lemma BodyAge(cfg: Config, call: Call, now: nat)
    requires call.phase.Body? && Timely(cfg, call, now)
    ensures now <= call.phase.setAt + call.timeout + Min(REPAIR_LIMIT, call.timeout) + cfg.slack
  {
  }

  lemma StepKeepsLeases(cfg: Config, s: State, step: Step)
    requires cfg.redis && cfg.slack < REPAIR_LIMIT
    requires AllTimely(cfg, s) && LeaseInv(s) && Enabled(cfg, s, step)
    ensures LeaseInv(Apply(cfg, s, step))
  {
    forall c | InBody(s, c) ensures Live(s, s.calls[c].meeting) {
      BodyAge(cfg, s.calls[c], s.now);
    }
  }

  // ---- over whole runs ----

  lemma {:induction false} RunKeepsInvariants(cfg: Config, steps: seq<Step>)
    requires Exec(cfg, steps).Some?
    ensures var s := Exec(cfg, steps).value;
            && LocalLockInv(s) && TimeoutsInRange(s) && LeaseBound(s) && AllTimely(cfg, s)
            && (cfg.redis && cfg.slack < REPAIR_LIMIT ==> LeaseInv(s))
  {
    if steps != [] {
      var s, step := Exec(cfg, steps[..|steps| - 1]).value, steps[|steps| - 1];
      RunKeepsInvariants(cfg, steps[..|steps| - 1]);
      StepKeepsLocalLocks(cfg, s, step);
      StepKeepsLeaseBound(cfg, s, step);
      StepKeepsTimely(cfg, s, step);
      if cfg.redis && cfg.slack < REPAIR_LIMIT {
        StepKeepsLeases(cfg, s, step);
      }
    }
  }

  /** Inside one process the asyncio lock alone keeps bodies apart: no timing, no Redis needed. */
  lemma SameProcessExclusion(cfg: Config, steps: seq<Step>)
    requires Exec(cfg, steps).Some?
    ensures ExclusivePerProcess(Exec(cfg, steps).value)
  {
    RunKeepsInvariants(cfg, steps);
    var s := Exec(cfg, steps).value;
    forall c, d | InBody(s, c) && InBody(s, d) && s.calls[c].meeting == s.calls[d].meeting &&
                  s.calls[c].process == s.calls[d].process
      ensures c == d
    {
      assert Holding(s, c) && Holding(s, d);
    }
  }

  /** Across processes the lease keeps bodies apart while a body spends under 60 s outside its CLI calls. */
  lemma ClusterExclusion(cfg: Config, steps: seq<Step>)
    requires cfg.redis && cfg.slack < REPAIR_LIMIT
    requires Exec(cfg, steps).Some?
    ensures Exclusive(Exec(cfg, steps).value)
    ensures forall c | InBody(Exec(cfg, steps).value, c) ::
              var s := Exec(cfg, steps).value; var m := s.calls[c].meeting;
              Live(s, m) && s.leases[m].owner == c
  {
    RunKeepsInvariants(cfg, steps);
    var s := Exec(cfg, steps).value;
    forall c | InBody(s, c)
      ensures Live(s, s.calls[c].meeting) && s.leases[s.calls[c].meeting].owner == c
    {
      BodyAge(cfg, s.calls[c], s.now);
    }
  }

  lemma Extend(cfg: Config, steps: seq<Step>, s: State, step: Step) returns (longer: seq<Step>, after: State)
    requires Exec(cfg, steps) == Some(s) && Enabled(cfg, s, step)
    ensures after == Apply(cfg, s, step)
    ensures Exec(cfg, longer) == Some(after)
  {
    longer := steps + [step];
    after := Apply(cfg, s, step);
    assert longer[..|longer| - 1] == steps;
  }

  // Call 0 of process 0 holds the lease of meeting "m" since time 0, with the given timeout.
  function Alone(timeout: nat, now: nat, phase: Phase): State {
    State(now, map[0 := Call(0, "m", timeout, phase)], map[(0, "m") := 0],
          map["m" := Lease(0, timeout + LEASE_MARGIN)])
  }

  lemma AloneWith(timeout: nat, now: nat, phase: Phase, next: Phase)
    ensures WithPhase(Alone(timeout, now, phase), 0, next) == Alone(timeout, now, next)
  {
    assert WithPhase(Alone(timeout, now, phase), 0, next).calls == Alone(timeout, now, next).calls;
  }

  lemma AloneArrives(cfg: Config, timeout: nat) returns (steps: seq<Step>)
    requires cfg.redis && MIN_TIMEOUT <= timeout <= MAX_TIMEOUT
    ensures Exec(cfg, steps) == Some(Idle(timeout, 0))
  {
    var s;
    steps, s := Extend(cfg, [], INITIAL, Arrive(0, 0, "m", timeout));
    steps, s := Extend(cfg, steps, s, TakeLocal(0));
    steps, s := Extend(cfg, steps, s, SetGranted(0));
    var idle := Idle(timeout, 0);
    assert s.calls == idle.calls && s.locks == idle.locks && s.leases == idle.leases;
  }

  // When n CLI calls have used up their limits.
  function Ended(timeout: nat, n: nat): nat {
    if n == 0 then 0 else if n == 1 then timeout else timeout + Min(REPAIR_LIMIT, timeout)
  }

  function Idle(timeout: nat, n: nat): State {
    Alone(timeout, Ended(timeout, n), Body(0, Work(Ended(timeout, n)), n, Ended(timeout, n), 0))
  }

  function Invoking(timeout: nat, n: nat, now: nat): State {
    var since := Ended(timeout, n);
    Alone(timeout, now, Body(0, if n == 0 then FirstCall(since) else RepairCall(since), n, since, 0))
  }

  lemma AloneStarts(cfg: Config, timeout: nat, n: nat)
    requires n < 2
    ensures Enabled(cfg, Idle(timeout, n), StartCli(0))
    ensures Apply(cfg, Idle(timeout, n), StartCli(0)) == Invoking(timeout, n, Ended(timeout, n))
  {
    var now := Ended(timeout, n);
    AloneWith(timeout, now, Idle(timeout, n).calls[0].phase, Invoking(timeout, n, now).calls[0].phase);
  }

  lemma AloneReturns(cfg: Config, timeout: nat, n: nat)
    requires n < 2
    ensures var late := Invoking(timeout, n, Ended(timeout, n + 1));
            Enabled(cfg, late, CliReturns(0)) && Apply(cfg, late, CliReturns(0)) == Idle(timeout, n + 1)
  {
    var now := Ended(timeout, n + 1);
    AloneWith(timeout, now, Invoking(timeout, n, now).calls[0].phase, Idle(timeout, n + 1).calls[0].phase);
  }

  lemma AloneWaits(cfg: Config, timeout: nat, steps: seq<Step>, n: nat) returns (longer: seq<Step>)
    requires n < 2 && Exec(cfg, steps) == Some(Idle(timeout, n))
    ensures Exec(cfg, longer) == Some(Invoking(timeout, n, Ended(timeout, n + 1)))
  {
    AloneStarts(cfg, timeout, n);
    AloneIsPatient(cfg, timeout, n);
    var s;
    longer, s := Extend(cfg, steps, Idle(timeout, n), StartCli(0));
    longer, s := Extend(cfg, longer, s, Tick(Ended(timeout, n + 1) - Ended(timeout, n)));
  }

  lemma AloneIsPatient(cfg: Config, timeout: nat, n: nat)
    requires n < 2
    ensures Ended(timeout, n) <= Ended(timeout, n + 1)
    ensures Enabled(cfg, Invoking(timeout, n, Ended(timeout, n)), Tick(Ended(timeout, n + 1) - Ended(timeout, n)))
  {
  }

  // Starting a CLI process, waiting out its limit and collecting its output.
  lemma AloneInvokes(cfg: Config, timeout: nat, steps: seq<Step>, n: nat) returns (longer: seq<Step>)
    requires n < 2 && Exec(cfg, steps) == Some(Idle(timeout, n))
    ensures Exec(cfg, longer) == Some(Idle(timeout, n + 1))
  {
    longer := AloneWaits(cfg, timeout, steps, n);
    AloneReturns(cfg, timeout, n);
    var s;
    longer, s := Extend(cfg, longer, Invoking(timeout, n, Ended(timeout, n + 1)), CliReturns(0));
  }

  /** The bound of `BodyAge` is reached for every timeout: neither limit is shorter than the code's. */
  lemma BodyAgeIsReached(cfg: Config, timeout: nat) returns (steps: seq<Step>, s: State)
    requires cfg.redis && MIN_TIMEOUT <= timeout <= MAX_TIMEOUT
    ensures Exec(cfg, steps) == Some(s) && InBody(s, 0) && s.calls[0].timeout == timeout
    ensures s.now == s.calls[0].phase.setAt + timeout + Min(REPAIR_LIMIT, timeout) + cfg.slack
    ensures s.calls == Idle(timeout, 2).calls && s.locks == map[(0, "m") := 0]
    ensures s.leases == map["m" := Lease(0, timeout + LEASE_MARGIN)]
  {
    steps := AloneArrives(cfg, timeout);
    steps := AloneInvokes(cfg, timeout, steps, 0);
    steps := AloneInvokes(cfg, timeout, steps, 1);
    steps, s := Extend(cfg, steps, Idle(timeout, 2), Tick(cfg.slack));
  }

  // One call that uses both CLI limits and then 60 s of its own outlives its lease, whatever its timeout from 60 s.
  lemma OverrunWitness(cfg: Config, timeout: nat) returns (steps: seq<Step>, s: State)
    requires cfg.redis && cfg.slack >= REPAIR_LIMIT && REPAIR_LIMIT <= timeout <= MAX_TIMEOUT
    ensures Exec(cfg, steps) == Some(s) && 0 in s.calls && s.calls[0].timeout == timeout && !Exclusive(s)
  {
    steps, s := BodyAgeIsReached(cfg, timeout);
    steps, s := Extend(cfg, steps, s, Arrive(1, 1, "m", timeout));
    steps, s := Extend(cfg, steps, s, TakeLocal(1));
    steps, s := Extend(cfg, steps, s, SetGranted(1));
    assert InBody(s, 0) && InBody(s, 1);
  }

  /** The 120 s lease margin is exactly enough: 60 s of slack is the breaking point. */
  lemma ExclusionExactly(cfg: Config)
    requires cfg.redis
    ensures (forall steps | Exec(cfg, steps).Some? :: Exclusive(Exec(cfg, steps).value))
            <==> cfg.slack < REPAIR_LIMIT
  {
    if cfg.slack < REPAIR_LIMIT {
      forall steps | Exec(cfg, steps).Some? ensures Exclusive(Exec(cfg, steps).value) {
        ClusterExclusion(cfg, steps);
      }
    } else {
      var steps, s := OverrunWitness(cfg, REPAIR_LIMIT);
    }
  }

  /**
   A live lease survives every step except its owner's own release, whatever the timing:
   late releases, lost replies and crashes never take a lease away from another call.
   */
  lemma LiveLeaseIsFenced(cfg: Config, s: State, step: Step, m: MeetingId)
    requires Live(s, m) && Enabled(cfg, s, step)
    requires step != Release(s.leases[m].owner, true)
    ensures m in Apply(cfg, s, step).leases && Apply(cfg, s, step).leases[m] == s.leases[m]
  {
  }

  predicate Polls(s: State, c: CallId, m: MeetingId) {
    c in s.calls && s.calls[c].meeting == m && s.calls[c].phase.Polling?
  }

  predicate WaitsIn(s: State, c: CallId, process: ProcessId, m: MeetingId) {
    c in s.calls && s.calls[c].meeting == m && s.calls[c].process == process && s.calls[c].phase.WaitingLocal?
  }

  /**
   Releasing frees the meeting at once: its lease and its asyncio lock are gone, every call that polls
   for the lease may be granted it next, and every call of the process that waits for the lock may take it.
   */
  lemma ReleaseFreesMeeting(cfg: Config, steps: seq<Step>, s: State, c: CallId, d: CallId)
    requires cfg.redis && cfg.slack < REPAIR_LIMIT
    requires Exec(cfg, steps) == Some(s) && Enabled(cfg, s, Release(c, true))
    ensures var m, after := s.calls[c].meeting, Apply(cfg, s, Release(c, true));
            && after.calls[c].phase == Finished(Answered)
            && m !in after.leases && (s.calls[c].process, m) !in after.locks
            && (Polls(s, d, m) ==> Enabled(cfg, after, SetGranted(d)))
            && (WaitsIn(s, d, s.calls[c].process, m) ==> Enabled(cfg, after, TakeLocal(d)))
  {
    ClusterExclusion(cfg, steps);
    assert InBody(s, c);
  }

  /** Whatever the timing, a call that has released no longer owns a live lease. */
  lemma ReleasedOwnsNothing(cfg: Config, s: State, c: CallId)
    requires Enabled(cfg, s, Release(c, true))
    ensures var m, after := s.calls[c].meeting, Apply(cfg, s, Release(c, true));
            Live(after, m) ==> after.leases[m].owner != c
  {
  }

  // No call polls for longer than ten seconds.
  ghost predicate DeadlinesNear(s: State) {
    forall c | c in s.calls && s.calls[c].phase.Polling? :: s.calls[c].phase.deadline <= s.now + ACQUIRE_WINDOW
  }

  lemma StepKeepsDeadlines(cfg: Config, s: State, step: Step)
    requires DeadlinesNear(s) && Enabled(cfg, s, step)
    ensures DeadlinesNear(Apply(cfg, s, step))
  {
  }

  lemma {:induction false} RunKeepsDeadlines(cfg: Config, steps: seq<Step>, s: State)
    requires Exec(cfg, steps) == Some(s)
    ensures DeadlinesNear(s)
  {
    if steps != [] {
      var before := Exec(cfg, steps[..|steps| - 1]).value;
      RunKeepsDeadlines(cfg, steps[..|steps| - 1], before);
      StepKeepsDeadlines(cfg, before, steps[|steps| - 1]);
    }
  }

  /**
   Ten seconds after a call began to poll, or later, it either gets the lease, which is then its own for
   its timeout and two minutes, or is refused and lets go of the asyncio lock: exactly one of the two.
   */
  lemma PollingEnds(cfg: Config, steps: seq<Step>, s: State, c: CallId)
    requires Exec(cfg, steps) == Some(s) && c in s.calls && s.calls[c].phase.Polling?
    ensures s.calls[c].phase.deadline <= s.now + ACQUIRE_WINDOW
    ensures Enabled(cfg, s, GiveUp(c)) <==> !Enabled(cfg, s, SetGranted(c)) && s.now >= s.calls[c].phase.deadline
    ensures Enabled(cfg, s, SetGranted(c)) ==>
              var after, m := Apply(cfg, s, SetGranted(c)), s.calls[c].meeting;
              && InBody(after, c) && Live(after, m)
              && after.leases[m] == Lease(c, s.now + s.calls[c].timeout + LEASE_MARGIN)
    ensures Enabled(cfg, s, GiveUp(c)) ==>
              var after := Apply(cfg, s, GiveUp(c));
              && after.calls[c].phase == Finished(Conflict) && after.leases == s.leases
              && (s.calls[c].process, s.calls[c].meeting) !in after.locks
  {
    RunKeepsDeadlines(cfg, steps, s);
  }

  /** Polling begins with ten seconds left, and nothing that happens meanwhile shortens or extends them. */
  lemma DeadlineIsFixed(cfg: Config, s: State, step: Step, c: CallId)
    requires Enabled(cfg, s, step) && c in s.calls
    ensures cfg.redis && step == TakeLocal(c) ==>
              Apply(cfg, s, step).calls[c].phase == Polling(s.now + ACQUIRE_WINDOW)
    ensures s.calls[c].phase.Polling? && Apply(cfg, s, step).calls[c].phase.Polling? ==>
              Apply(cfg, s, step).calls[c] == s.calls[c]
  {
  }

  /** A crash ends the calls of its process and frees their asyncio locks; all else stays, the leases too. */
  lemma CrashEndsItsCalls(cfg: Config, s: State, process: ProcessId, c: CallId, m: MeetingId)
    requires c in s.calls
    ensures var after := Apply(cfg, s, Crash(process));
            && after.leases == s.leases && c in after.calls && (process, m) !in after.locks
            && (if s.calls[c].process == process then after.calls[c].phase.Finished? else after.calls[c] == s.calls[c])
            && (s.calls[c].process != process ==>
                  var k := (s.calls[c].process, m); k in s.locks ==> k in after.locks && after.locks[k] == s.locks[k])
  {
  }

  // ---- every call can still be answered ----

  // Everything but c may have moved on; c stands where it stood, with the same locks to wait for.
  predicate SameCall(s: State, after: State, c: CallId) {
    c in s.calls && c in after.calls && after.calls[c] == s.calls[c]
  }

  // A call that holds its asyncio lock can be brought to its end.
  lemma HolderEnds(cfg: Config, steps: seq<Step>, s: State, d: CallId) returns (longer: seq<Step>, after: State)
    requires Exec(cfg, steps) == Some(s) && Holding(s, d)
    ensures Exec(cfg, longer) == Some(after) && after.calls.Keys == s.calls.Keys
    ensures after.calls[d].phase.Finished? && (s.calls[d].phase.Body? ==> after.calls[d].phase == Finished(Answered))
    ensures forall c | c in s.calls && c != d :: after.calls[c] == s.calls[c]
  {
    longer, after := steps, s;
    if s.calls[d].phase.Polling? {
      longer, after := Extend(cfg, longer, after, SetFailed(d, false));
    } else {
      if !s.calls[d].phase.stage.Work? {
        longer, after := Extend(cfg, longer, after, CliReturns(d));
      }
      longer, after := Extend(cfg, longer, after, Release(d, true));
    }
  }

  lemma {:induction false} OthersEnd(cfg: Config, steps: seq<Step>, s: State, c: CallId, left: set<CallId>)
    returns (longer: seq<Step>, after: State)
    requires Exec(cfg, steps) == Some(s) && c in s.calls && (forall d | Holding(s, d) && d != c :: d in left)
    ensures Exec(cfg, longer) == Some(after) && SameCall(s, after, c)
    ensures forall d | Holding(after, d) :: d == c
    decreases left
  {
    longer, after := steps, s;
    if d :| Holding(s, d) && d != c {
      longer, after := HolderEnds(cfg, longer, after, d);
      longer, after := OthersEnd(cfg, longer, after, c, left - {d});
    }
  }

  lemma NobodyElse(cfg: Config, steps: seq<Step>, s: State, c: CallId)
    requires Exec(cfg, steps) == Some(s) && c in s.calls && !s.calls[c].phase.Body?
    requires forall d | Holding(s, d) :: d == c
    ensures Enabled(cfg, s, Tick(MAX_TIMEOUT + LEASE_MARGIN))
    ensures !Live(Apply(cfg, s, Tick(MAX_TIMEOUT + LEASE_MARGIN)), s.calls[c].meeting)
    ensures s.calls[c].phase.WaitingLocal? ==> Enabled(cfg, s, TakeLocal(c))
  {
    RunKeepsInvariants(cfg, steps);
    forall d | d in s.calls ensures Patient(cfg, s.calls[d], s.now + MAX_TIMEOUT + LEASE_MARGIN) {
      assert s.calls[d].phase.Body? ==> Holding(s, d);
    }
  }

  /** From every reachable state every call that has not finished can still get to its body and be answered. */
  lemma EveryCallCanBeAnswered(cfg: Config, steps: seq<Step>, s: State, c: CallId)
    returns (longer: seq<Step>, after: State)
    requires Exec(cfg, steps) == Some(s) && c in s.calls && !s.calls[c].phase.Finished?
    ensures Exec(cfg, longer) == Some(after) && c in after.calls && after.calls[c].phase == Finished(Answered)
  {
    longer, after := OthersEnd(cfg, steps, s, c, s.calls.Keys);
    if !after.calls[c].phase.Body? {
      NobodyElse(cfg, longer, after, c);
      longer, after := Extend(cfg, longer, after, Tick(MAX_TIMEOUT + LEASE_MARGIN));
      if after.calls[c].phase.WaitingLocal? {
        longer, after := Extend(cfg, longer, after, TakeLocal(c));
      }
      if after.calls[c].phase.Polling? {
        longer, after := Extend(cfg, longer, after, SetGranted(c));
      }
    }
    longer, after := HolderEnds(cfg, longer, after, c);
  }

  /** When every call has finished, no asyncio lock is held, and a stale lease ends within 1020 s. */
  lemma NothingLeaks(cfg: Config, steps: seq<Step>)
    requires Exec(cfg, steps).Some?
    requires forall c | c in Exec(cfg, steps).value.calls ::
               Exec(cfg, steps).value.calls[c].phase.Finished?
    ensures var s := Exec(cfg, steps).value;
            && s.locks == map[]
            && forall later, m | s.now + MAX_TIMEOUT + LEASE_MARGIN <= later :: !Live(s.(now := later), m)
  {
    RunKeepsInvariants(cfg, steps);
  }
}
