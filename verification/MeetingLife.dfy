/**
 The life of a meeting (`transition` in `backend/app/api/meetings.py` and the recovery step of
 `lifespan` in `backend/app/main.py`). A transition reads the row, awaits, and writes the columns it
 changed when it commits; transitions of several requests interleave, and nothing locks the row.
 */
module MeetingLife {
  import opened Prelude

  type Id = string
  type RequestId = nat

  datatype Status = Draft | Active | Paused | Interrupted | Ended

  datatype Meeting = Meeting(status: Status, startedAt: Option<int>, endedAt: Option<int>)

  datatype Command = Start | Pause | Resume | End

  function Allowed(command: Command): set<Status> {
    match command
    case Start => {Draft, Interrupted}
    case Pause => {Active}
    case Resume => {Paused}
    case End => {Active, Paused, Interrupted}
  }

  function Target(command: Command): Status {
    match command
    case Start => Active
    case Pause => Paused
    case Resume => Active
    case End => Ended
  }

  // A transition that passed its check; `first` says whether the row read had no start time.
  datatype Move = Move(meeting: Id, command: Command, first: bool, at: int)

  function Read(m: Id, row: Meeting, command: Command, now: int): Option<Move> {
    if row.status in Allowed(command)
    then Some(Move(m, command, Target(command).Active? && row.startedAt.None?, now)) else None
  }

  function Written(row: Meeting, move: Move): Meeting {
    Meeting(Target(move.command),
            if move.first then Some(move.at) else row.startedAt,
            if move.command.End? then Some(move.at) else row.endedAt)
  }

  function Interrupt(row: Meeting): Meeting {
    if row.status.Active? || row.status.Paused? then row.(status := Interrupted) else row
  }

  /** The state machine: into the meeting from draft and from every break, and out of it but from draft. */
  lemma EdgesExactly(before: Status, after: Status)
    ensures (exists command :: before in Allowed(command) && Target(command) == after) <==>
            || (after.Active? && before in {Draft, Paused, Interrupted})
            || (after.Paused? && before.Active?)
            || (after.Ended? && before in {Active, Paused, Interrupted})
  {
    if command :| before in Allowed(command) && Target(command) == after {
      match command
      case Start =>
      case Pause =>
      case Resume =>
      case End =>
    }
    assert before in {Draft, Interrupted} ==> before in Allowed(Start);
    assert before.Active? ==> before in Allowed(Pause);
    assert before.Paused? ==> before in Allowed(Resume);
    assert before in {Active, Paused, Interrupted} ==> before in Allowed(End);
    assert Target(Start) == Active && Target(Pause) == Paused && Target(Resume) == Active && Target(End) == Ended;
  }

  // ---- interleaved requests ----

  datatype State = State(meetings: map<Id, Meeting>, moves: map<RequestId, Move>, clock: int)

  // `serial` says whether the transitions of one meeting are kept from overlapping.
  datatype Config = Config(serial: bool)

  datatype Step =
    | Create(m: Id)
    | Check(q: RequestId, m: Id, command: Command)
    | Commit(q: RequestId)
    | Abandon(q: RequestId)
    | Restart
    | Tick(delta: nat)

  const INITIAL := State(map[], map[], 0)

  predicate Moving(s: State, m: Id) {
    exists q :: q in s.moves && s.moves[q].meeting == m
  }

  predicate Enabled(cfg: Config, s: State, step: Step) {
    match step
    case Create(m) => m !in s.meetings
    case Check(q, m, _) => q !in s.moves && (cfg.serial ==> !Moving(s, m))
    case Commit(q) => q in s.moves && s.moves[q].meeting in s.meetings
    case Abandon(q) => q in s.moves
    case _ => true
  }

  // A refused check (404 or 409) leaves nothing behind; a restart ends all requests.
  function Apply(cfg: Config, s: State, step: Step): State
    requires Enabled(cfg, s, step)
  {
    match step
    case Create(m) => s.(meetings := s.meetings[m := Meeting(Draft, None, None)])
    case Check(q, m, command) =>
      if m !in s.meetings then s
      else
        var move := Read(m, s.meetings[m], command, s.clock);
        if move.Some? then s.(moves := s.moves[q := move.value]) else s
    case Commit(q) =>
      var move := s.moves[q];
      s.(meetings := s.meetings[move.meeting := Written(s.meetings[move.meeting], move)], moves := s.moves - {q})
    case Abandon(q) => s.(moves := s.moves - {q})
    case Restart => State(map m | m in s.meetings :: Interrupt(s.meetings[m]), map[], s.clock)
    case Tick(delta) => s.(clock := s.clock + delta)
  }

  function ExecFrom(cfg: Config, s: State, steps: seq<Step>): Option<State> {
    if steps == [] then Some(s)
    else
      var before := ExecFrom(cfg, s, steps[..|steps| - 1]);
      var step := steps[|steps| - 1];
      if before.Some? && Enabled(cfg, before.value, step) then Some(Apply(cfg, before.value, step)) else None
  }

  ghost predicate Leads(cfg: Config, s: State, t: State) {
    exists steps :: ExecFrom(cfg, s, steps) == Some(t)
  }

  ghost predicate Reachable(cfg: Config, s: State) {
    Leads(cfg, INITIAL, s)
  }

  // ---- what is promised ----

  // The start time is set once the meeting has left draft; the end time exactly when it ended, and
  // not before the start.
  predicate Consistent(row: Meeting, clock: int) {
    && (row.startedAt.None? <==> row.status.Draft?)
    && (row.endedAt.Some? <==> row.status.Ended?)
    && (row.startedAt.Some? ==> row.startedAt.value <= clock)
    && (row.endedAt.Some? && row.startedAt.Some? ==> row.startedAt.value <= row.endedAt.value <= clock)
  }

  ghost predicate AllConsistent(s: State) {
    forall m | m in s.meetings :: Consistent(s.meetings[m], s.clock)
  }

  // An ended meeting never changes again, and a start time never moves.
  predicate Evolves(before: Meeting, after: Meeting) {
    && (before.status.Ended? ==> after == before)
    && (before.startedAt.Some? ==> after.startedAt == before.startedAt)
  }

  ghost predicate AllEvolve(s: State, t: State) {
    forall m | m in s.meetings :: m in t.meetings && Evolves(s.meetings[m], t.meetings[m])
  }

  // ---- with serial transitions ----

  // What a transition read still holds when it writes.
  predicate Current(s: State, q: RequestId) {
    q in s.moves ==>
      var move := s.moves[q];
      && move.meeting in s.meetings && move.at <= s.clock
      && var row := s.meetings[move.meeting];
         && row.status in Allowed(move.command)
         && (move.first <==> Target(move.command).Active? && row.startedAt.None?)
         && (row.startedAt.Some? ==> row.startedAt.value <= move.at)
  }

  ghost predicate Alone(s: State) {
    forall p, q | p in s.moves && q in s.moves && s.moves[p].meeting == s.moves[q].meeting :: p == q
  }

  ghost predicate Inv(s: State) {
    AllConsistent(s) && Alone(s) && forall q :: Current(s, q)
  }

  lemma CommitKeeps(cfg: Config, s: State, q: RequestId)
    requires Inv(s) && Enabled(cfg, s, Commit(q))
    ensures Inv(Apply(cfg, s, Commit(q))) && AllEvolve(s, Apply(cfg, s, Commit(q)))
  {
    var after := Apply(cfg, s, Commit(q));
    assert Current(s, q);
    forall p ensures Current(after, p) {
      assert Current(s, p);
    }
  }

  lemma StepKeeps(cfg: Config, s: State, step: Step)
    requires cfg.serial && Inv(s) && Enabled(cfg, s, step)
    ensures Inv(Apply(cfg, s, step)) && AllEvolve(s, Apply(cfg, s, step))
  {
    if step.Commit? {
      CommitKeeps(cfg, s, step.q);
    } else {
      forall p ensures Current(Apply(cfg, s, step), p) {
        assert Current(s, p);
      }
    }
  }

  lemma {:induction false} RunKeeps(cfg: Config, s: State, steps: seq<Step>, t: State)
    requires cfg.serial && Inv(s) && ExecFrom(cfg, s, steps) == Some(t)
    ensures Inv(t) && AllEvolve(s, t)
  {
    if steps != [] {
      var before := ExecFrom(cfg, s, steps[..|steps| - 1]).value;
      RunKeeps(cfg, s, steps[..|steps| - 1], before);
      StepKeeps(cfg, before, steps[|steps| - 1]);
      forall m | m in s.meetings ensures m in t.meetings && Evolves(s.meetings[m], t.meetings[m]) {
        assert m in before.meetings && Evolves(before.meetings[m], t.meetings[m]);
      }
    }
  }

  // ---- without ----

  lemma Extend(cfg: Config, from: State, steps: seq<Step>, s: State, step: Step)
    returns (longer: seq<Step>, after: State)
    requires ExecFrom(cfg, from, steps) == Some(s) && Enabled(cfg, s, step)
    ensures after == Apply(cfg, s, step) && ExecFrom(cfg, from, longer) == Some(after)
  {
    longer := steps + [step];
    after := Apply(cfg, s, step);
    assert longer[..|longer| - 1] == steps;
  }

  // What a command makes of a row it is allowed for.
  predicate TakesEffect(row: Meeting, command: Command, at: int, after: Meeting) {
    && after.status == Target(command)
    && (command.End? ==> after.endedAt == Some(at)) && (!command.End? ==> after.endedAt == row.endedAt)
    && (row.startedAt.None? && (command.Start? || command.Resume?) ==> after.startedAt == Some(at))
    && (row.startedAt.Some? || command.Pause? || command.End? ==> after.startedAt == row.startedAt)
  }

  /** A command that no other transition of the meeting overlaps takes effect, and touches no other meeting. */
  lemma CommandTakesEffect(cfg: Config, from: State, steps: seq<Step>, s: State, q: RequestId, m: Id, command: Command)
    returns (longer: seq<Step>, t: State)
    requires ExecFrom(cfg, from, steps) == Some(s) && q !in s.moves && (cfg.serial ==> !Moving(s, m))
    requires m in s.meetings && s.meetings[m].status in Allowed(command)
    ensures ExecFrom(cfg, from, longer) == Some(t) && t.moves == s.moves && t.clock == s.clock
    ensures m in t.meetings && TakesEffect(s.meetings[m], command, s.clock, t.meetings[m])
    ensures t.meetings == s.meetings[m := t.meetings[m]]
  {
    longer, t := Extend(cfg, from, steps, s, Check(q, m, command));
    longer, t := Extend(cfg, from, longer, t, Commit(q));
    assert t.moves == s.moves;
  }

  // With serial transitions, the one under way can be abandoned.
  lemma NobodyMoves(cfg: Config, steps: seq<Step>, s: State, m: Id) returns (later: seq<Step>, t: State)
    requires ExecFrom(cfg, INITIAL, steps) == Some(s)
    ensures ExecFrom(cfg, s, later) == Some(t) && t.meetings == s.meetings && t.moves.Keys <= s.moves.Keys
    ensures t.clock == s.clock
    ensures cfg.serial ==> !Moving(t, m)
  {
    later, t := [], s;
    if cfg.serial && Moving(s, m) {
      RunKeeps(cfg, INITIAL, steps, s);
      var q :| q in s.moves && s.moves[q].meeting == m;
      later, t := Extend(cfg, s, later, t, Abandon(q));
    }
  }

  /** From every reachable state, every meeting that has not ended can be ended, at any later time. */
  lemma EveryMeetingCanEnd(cfg: Config, steps: seq<Step>, s: State, q: RequestId, m: Id, at: int)
    returns (later: seq<Step>, t: State)
    requires ExecFrom(cfg, INITIAL, steps) == Some(s) && q !in s.moves && s.clock <= at
    requires m in s.meetings && !s.meetings[m].status.Ended?
    ensures ExecFrom(cfg, s, later) == Some(t) && m in t.meetings && t.meetings[m].status.Ended?
    ensures t.meetings[m].endedAt == Some(at)
  {
    later, t := NobodyMoves(cfg, steps, s, m);
    later, t := Extend(cfg, s, later, t, Tick(at - t.clock));
    if t.meetings[m].status.Draft? {
      later, t := CommandTakesEffect(cfg, s, later, t, q, m, Start);
    }
    later, t := CommandTakesEffect(cfg, s, later, t, q, m, End);
  }

  // An active meeting is ended while a pause is between its check and its commit.
  lemma OverlapWitness(cfg: Config) returns (s: State, t: State)
    requires !cfg.serial
    ensures Reachable(cfg, s) && Leads(cfg, s, t) && Reachable(cfg, t)
    ensures !AllEvolve(s, t) && !AllConsistent(t)
  {
    var steps;
    steps, s := Extend(cfg, INITIAL, [], INITIAL, Create("m"));
    steps, s := Extend(cfg, INITIAL, steps, s, Check(0, "m", Start));
    steps, s := Extend(cfg, INITIAL, steps, s, Commit(0));
    assert s.meetings["m"] == Meeting(Active, Some(0), None) && s.moves == map[];
    steps, s := Extend(cfg, INITIAL, steps, s, Check(1, "m", Pause));
    steps, s := Extend(cfg, INITIAL, steps, s, Check(2, "m", End));
    steps, s := Extend(cfg, INITIAL, steps, s, Commit(2));
    assert s.meetings["m"] == Meeting(Ended, Some(0), Some(0));
    steps, t := Extend(cfg, INITIAL, steps, s, Commit(1));
    assert t.meetings["m"] == Meeting(Paused, Some(0), Some(0));
    var one, last := Extend(cfg, s, [], s, Commit(1));
  }

  /**
   In every reachable state the times of every meeting fit its status and each other, exactly when the
   transitions of one meeting do not overlap between check and commit.
   */
  lemma TimesFitExactly(cfg: Config)
    ensures (forall s | Reachable(cfg, s) :: AllConsistent(s)) <==> cfg.serial
  {
    if cfg.serial {
      forall s | Reachable(cfg, s) ensures AllConsistent(s) {
        var steps :| ExecFrom(cfg, INITIAL, steps) == Some(s);
        RunKeeps(cfg, INITIAL, steps, s);
      }
    } else {
      var s, t := OverlapWitness(cfg);
    }
  }

  /**
   From every reachable state on, ended meetings never change and start times never move, exactly when
   the transitions of one meeting do not overlap between check and commit.
   */
  lemma EndIsFinalExactly(cfg: Config)
    ensures (forall s, t | Reachable(cfg, s) && Leads(cfg, s, t) :: AllEvolve(s, t)) <==> cfg.serial
  {
    if cfg.serial {
      forall s, t | Reachable(cfg, s) && Leads(cfg, s, t) ensures AllEvolve(s, t) {
        var first :| ExecFrom(cfg, INITIAL, first) == Some(s);
        RunKeeps(cfg, INITIAL, first, s);
        var later :| ExecFrom(cfg, s, later) == Some(t);
        RunKeeps(cfg, s, later, t);
      }
    } else {
      var s, t := OverlapWitness(cfg);
    }
  }
}
