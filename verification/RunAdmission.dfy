/**
 Admission of engine runs: `request_codex`, the audio loop's own check and `cancel_run` in
 `backend/app/api/meetings.py`, the engine's status writes in `backend/app/services/engine.py`, and
 the recovery step in `backend/app/main.py`. A request counts the active runs, awaits other queries,
 and then inserts and commits; an engine job reads its row once and overwrites its status later.
 Nothing locks the rows in between, so the steps of all requests and jobs interleave.
 */
module RunAdmission {
  import opened Prelude

  type Id = string
  type RequestId = nat

  datatype Status =
    | Queued | PreparingContext | Running | Validating
    | Completed | TimedOut | Failed | Cancelled

  datatype Run = Run(meeting: Id, status: Status)

  type Runs = map<Id, Run>

  // The statuses `request_codex` counts; the audio loop counts all but PreparingContext.
  predicate InFlight(status: Status) {
    status.PreparingContext? || Counted(status)
  }

  predicate Counted(status: Status) {
    status.Queued? || status.Running? || status.Validating?
  }

  predicate Busy(runs: Runs, m: Id) {
    exists r :: r in runs && runs[r].meeting == m && InFlight(runs[r].status)
  }

  predicate BusyForAudio(runs: Runs, m: Id) {
    exists r :: r in runs && runs[r].meeting == m && Counted(runs[r].status)
  }

  function SetStatus(runs: Runs, r: Id, status: Status): Runs
    requires r in runs
  {
    runs[r := runs[r].(status := status)]
  }

  function Fail(run: Run): Run {
    if InFlight(run.status) then run.(status := Failed) else run
  }

  // What an engine job writes after the status it read or wrote last.
  predicate Follows(last: Status, to: Status) {
    match last
    case Queued => to.Running?
    case Running => to.Validating? || to.Completed? || to.TimedOut? || to.Failed?
    case Validating => to.Completed? || to.TimedOut? || to.Failed?
    case _ => false
  }

  // `admitted`: requests whose count came out zero; `jobs`: the status each engine job last read or wrote.
  datatype State = State(runs: Runs, admitted: map<RequestId, Id>, jobs: map<Id, Status>)

  // `serial`: the admissions of one meeting do not overlap between count and commit.
  // `rereads`: an engine job writes only while its row is still in flight.
  datatype Config = Config(serial: bool, rereads: bool)

  datatype Step =
    | Count(q: RequestId, m: Id, audio: bool)
    | Insert(q: RequestId, r: Id)
    | Abandon(q: RequestId)
    | Load(r: Id)
    | Write(r: Id, to: Status)
    | Quit(r: Id)
    // `seen` is the status the cancel request read, `stopped` what the engine manager answered.
    | Cancel(r: Id, seen: Status, stopped: bool)
    | Restart

  const INITIAL := State(map[], map[], map[])

  predicate Pending(s: State, m: Id) {
    exists q :: q in s.admitted && s.admitted[q] == m
  }

  predicate Enabled(cfg: Config, s: State, step: Step) {
    match step
    case Count(q, m, _) => q !in s.admitted && (cfg.serial ==> !Pending(s, m))
    case Insert(q, r) => q in s.admitted && r !in s.runs
    case Abandon(q) => q in s.admitted
    case Load(r) => r in s.runs && s.runs[r].status.Queued? && r !in s.jobs
    case Write(r, to) =>
      r in s.jobs && r in s.runs && Follows(s.jobs[r], to) && (cfg.rereads ==> InFlight(s.runs[r].status))
    case Quit(r) => r in s.jobs
    case Cancel(r, _, _) => r in s.runs
    case Restart => true
  }

  // A count above zero refuses the request (409); a restart ends all requests and jobs.
  function Apply(cfg: Config, s: State, step: Step): State
    requires Enabled(cfg, s, step)
  {
    match step
    case Count(q, m, audio) =>
      if (if audio then BusyForAudio(s.runs, m) else Busy(s.runs, m)) then s
      else s.(admitted := s.admitted[q := m])
    case Insert(q, r) => s.(runs := s.runs[r := Run(s.admitted[q], Queued)], admitted := s.admitted - {q})
    case Abandon(q) => s.(admitted := s.admitted - {q})
    case Load(r) => s.(jobs := s.jobs[r := Queued])
    case Write(r, to) => s.(runs := SetStatus(s.runs, r, to), jobs := s.jobs[r := to])
    case Quit(r) => s.(jobs := s.jobs - {r})
    case Cancel(r, seen, stopped) =>
      if seen.Queued? || seen.PreparingContext? || stopped then s.(runs := SetStatus(s.runs, r, Cancelled)) else s
    case Restart => State(map r | r in s.runs :: Fail(s.runs[r]), map[], map[])
  }

  function Exec(cfg: Config, steps: seq<Step>): Option<State> {
    if steps == [] then Some(INITIAL)
    else
      var before := Exec(cfg, steps[..|steps| - 1]);
      var step := steps[|steps| - 1];
      if before.Some? && Enabled(cfg, before.value, step) then Some(Apply(cfg, before.value, step)) else None
  }

  ghost predicate Reachable(cfg: Config, s: State) {
    exists steps :: Exec(cfg, steps) == Some(s)
  }

  ghost predicate OneInFlight(runs: Runs) {
    forall a, b | a in runs && b in runs && InFlight(runs[a].status) && InFlight(runs[b].status) ::
      runs[a].meeting == runs[b].meeting ==> a == b
  }

  // ---- with both gaps closed ----

  ghost predicate NonePreparing(runs: Runs) {
    forall r | r in runs :: !runs[r].status.PreparingContext?
  }

  ghost predicate Inv(s: State) {
    && OneInFlight(s.runs)
    && (forall q | q in s.admitted :: !Busy(s.runs, s.admitted[q]))
    && (forall p, q | p in s.admitted && q in s.admitted && s.admitted[p] == s.admitted[q] :: p == q)
  }

  lemma SameCount(runs: Runs, m: Id)
    requires NonePreparing(runs)
    ensures Busy(runs, m) <==> BusyForAudio(runs, m)
  {
    if Busy(runs, m) {
      var r :| r in runs && runs[r].meeting == m && InFlight(runs[r].status);
      assert Counted(runs[r].status);
    }
  }

  /** The audio loop's narrower count agrees with the count of `request_codex` in every reachable state. */
  lemma CountsAgree(cfg: Config, steps: seq<Step>, s: State, m: Id)
    requires Exec(cfg, steps) == Some(s)
    ensures Busy(s.runs, m) <==> BusyForAudio(s.runs, m)
  {
    NeverPreparing(cfg, steps, s);
    SameCount(s.runs, m);
  }

  lemma {:induction false} NeverPreparing(cfg: Config, steps: seq<Step>, s: State)
    requires Exec(cfg, steps) == Some(s)
    ensures NonePreparing(s.runs)
  {
    if steps != [] {
      var before := Exec(cfg, steps[..|steps| - 1]).value;
      NeverPreparing(cfg, steps[..|steps| - 1], before);
      StepNeverPrepares(cfg, before, steps[|steps| - 1]);
    }
  }

  lemma StepNeverPrepares(cfg: Config, s: State, step: Step)
    requires NonePreparing(s.runs) && Enabled(cfg, s, step)
    ensures NonePreparing(Apply(cfg, s, step).runs)
  {
  }

  lemma InsertKeeps(cfg: Config, s: State, q: RequestId, r: Id)
    requires Inv(s) && Enabled(cfg, s, Insert(q, r))
    ensures Inv(Apply(cfg, s, Insert(q, r)))
  {
    var after := Apply(cfg, s, Insert(q, r));
    forall p | p in after.admitted ensures !Busy(after.runs, after.admitted[p]) {
      assert s.admitted[p] != s.admitted[q];
      assert !Busy(s.runs, s.admitted[p]);
    }
  }

  // No run turns in flight, so nobody who counted zero is contradicted.
  lemma FewerInFlight(s: State, after: State)
    requires Inv(s) && after.admitted.Keys <= s.admitted.Keys
    requires forall q | q in after.admitted :: after.admitted[q] == s.admitted[q]
    requires forall r | r in after.runs && InFlight(after.runs[r].status) ::
               r in s.runs && InFlight(s.runs[r].status) && after.runs[r].meeting == s.runs[r].meeting
    ensures Inv(after)
  {
    forall q | q in after.admitted ensures !Busy(after.runs, after.admitted[q]) {
      assert !Busy(s.runs, s.admitted[q]);
    }
  }

  lemma StepKeeps(cfg: Config, s: State, step: Step)
    requires cfg.serial && cfg.rereads && Inv(s) && NonePreparing(s.runs) && Enabled(cfg, s, step)
    ensures Inv(Apply(cfg, s, step))
  {
    match step
    case Count(_, m, _) => SameCount(s.runs, m);
    case Insert(q, r) => InsertKeeps(cfg, s, q, r);
    case _ => FewerInFlight(s, Apply(cfg, s, step));
  }

  lemma {:induction false} RunKeeps(cfg: Config, steps: seq<Step>, s: State)
    requires cfg.serial && cfg.rereads && Exec(cfg, steps) == Some(s)
    ensures Inv(s)
  {
    if steps != [] {
      var before := Exec(cfg, steps[..|steps| - 1]).value;
      RunKeeps(cfg, steps[..|steps| - 1], before);
      NeverPreparing(cfg, steps[..|steps| - 1], before);
      StepKeeps(cfg, before, steps[|steps| - 1]);
    }
  }

  // ---- with one of them open ----

  lemma Extend(cfg: Config, steps: seq<Step>, s: State, step: Step) returns (longer: seq<Step>, after: State)
    requires Exec(cfg, steps) == Some(s) && Enabled(cfg, s, step)
    ensures after == Apply(cfg, s, step) && Exec(cfg, longer) == Some(after)
  {
    longer := steps + [step];
    after := Apply(cfg, s, step);
    assert longer[..|longer| - 1] == steps;
  }

  /** When no run of a meeting is in flight, a request's run is admitted, and only then. */
  lemma AdmittedExactly(cfg: Config, steps: seq<Step>, s: State, q: RequestId, m: Id, audio: bool)
    requires Exec(cfg, steps) == Some(s) && Enabled(cfg, s, Count(q, m, audio))
    ensures q in Apply(cfg, s, Count(q, m, audio)).admitted <==> !Busy(s.runs, m)
    ensures Apply(cfg, s, Count(q, m, audio)).runs == s.runs
  {
    CountsAgree(cfg, steps, s, m);
  }

  /** Its run is then inserted as queued, and every request of the meeting is refused until it is over. */
  lemma InsertedIsInFlight(cfg: Config, steps: seq<Step>, s: State, q: RequestId, r: Id, next: RequestId, audio: bool)
    requires Exec(cfg, steps) == Some(s) && q in s.admitted && r !in s.runs && next !in s.admitted
    ensures Enabled(cfg, s, Insert(q, r))
    ensures var after := Apply(cfg, s, Insert(q, r));
            && after.runs == s.runs[r := Run(s.admitted[q], Queued)] && q !in after.admitted
            && (Enabled(cfg, after, Count(next, s.admitted[q], audio)) ==>
                  Apply(cfg, after, Count(next, s.admitted[q], audio)) == after)
  {
    var after := Apply(cfg, s, Insert(q, r));
    assert after.runs[r].meeting == s.admitted[q] && InFlight(after.runs[r].status) && Counted(after.runs[r].status);
  }

  /** A queued run whose job has not read it yet can be executed to the end, and then blocks nobody. */
  lemma QueuedCompletes(cfg: Config, steps: seq<Step>, s: State, r: Id) returns (longer: seq<Step>, t: State)
    requires Exec(cfg, steps) == Some(s) && r in s.runs && s.runs[r].status.Queued? && r !in s.jobs
    ensures Exec(cfg, longer) == Some(t) && t.runs == s.runs[r := s.runs[r].(status := Completed)]
    ensures t.admitted == s.admitted
  {
    longer, t := Extend(cfg, steps, s, Load(r));
    longer, t := Extend(cfg, longer, t, Write(r, Running));
    longer, t := Extend(cfg, longer, t, Write(r, Validating));
    longer, t := Extend(cfg, longer, t, Write(r, Completed));
  }

  /** A cancel request cancels what it saw not yet started, and what the manager stopped; nothing else. */
  lemma CancelExactly(cfg: Config, s: State, r: Id, seen: Status, stopped: bool, other: Id)
    requires Enabled(cfg, s, Cancel(r, seen, stopped)) && other in s.runs
    ensures var after := Apply(cfg, s, Cancel(r, seen, stopped));
            && after.admitted == s.admitted && after.jobs == s.jobs && other in after.runs
            && after.runs[other] ==
               if other == r && (stopped || seen in {Queued, PreparingContext})
               then Run(s.runs[r].meeting, Cancelled) else s.runs[other]
  {
  }

  // Two requests count zero before either inserts.
  lemma OverlapWitness(cfg: Config) returns (steps: seq<Step>, s: State)
    requires !cfg.serial
    ensures Exec(cfg, steps) == Some(s) && !OneInFlight(s.runs)
  {
    steps, s := Extend(cfg, [], INITIAL, Count(0, "m", false));
    steps, s := Extend(cfg, steps, s, Count(1, "m", true));
    assert s == State(map[], map[0 := "m", 1 := "m"], map[]);
    steps, s := Extend(cfg, steps, s, Insert(0, "a"));
    steps, s := Extend(cfg, steps, s, Insert(1, "b"));
    assert s.runs["a"] == Run("m", Queued) && s.runs["b"] == Run("m", Queued);
  }

  // A job has read its row when the run is cancelled.
  lemma CancelledAfterLoad(cfg: Config) returns (steps: seq<Step>, s: State)
    ensures Exec(cfg, steps) == Some(s)
    ensures s == State(map["a" := Run("m", Cancelled)], map[], map["a" := Queued])
  {
    steps, s := Extend(cfg, [], INITIAL, Count(0, "m", false));
    steps, s := Extend(cfg, steps, s, Insert(0, "a"));
    steps, s := Extend(cfg, steps, s, Load("a"));
    steps, s := Extend(cfg, steps, s, Cancel("a", Queued, true));
  }

  // Another run is admitted, and the job starts its own all the same.
  lemma StaleWriteWitness(cfg: Config) returns (steps: seq<Step>, s: State)
    requires !cfg.rereads
    ensures Exec(cfg, steps) == Some(s) && !OneInFlight(s.runs)
  {
    steps, s := CancelledAfterLoad(cfg);
    steps, s := Extend(cfg, steps, s, Count(1, "m", false));
    steps, s := Extend(cfg, steps, s, Insert(1, "b"));
    assert s.jobs == map["a" := Queued];
    steps, s := Extend(cfg, steps, s, Write("a", Running));
    assert s.runs["a"] == Run("m", Running) && s.runs["b"] == Run("m", Queued);
  }

  /**
   In every reachable state at most one run per meeting is in flight, exactly when the admissions of one
   meeting do not overlap between count and commit and engine jobs do not overwrite a cancelled row.
   The code ensures neither.
   */
  lemma OneInFlightExactly(cfg: Config)
    ensures (forall s | Reachable(cfg, s) :: OneInFlight(s.runs)) <==> cfg.serial && cfg.rereads
  {
    if cfg.serial && cfg.rereads {
      forall s | Reachable(cfg, s) ensures OneInFlight(s.runs) {
        var steps :| Exec(cfg, steps) == Some(s);
        RunKeeps(cfg, steps, s);
      }
    } else if !cfg.serial {
      var steps, s := OverlapWitness(cfg);
      assert Reachable(cfg, s);
    } else {
      var steps, s := StaleWriteWitness(cfg);
      assert Reachable(cfg, s);
    }
  }
}
