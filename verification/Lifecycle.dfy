/**
 The handlers of `backend/app/api/meetings.py` and the recovery step of `backend/app/main.py` on the
 two tables they share, each as one request on its own; `MeetingLife` and `RunAdmission` are about
 what happens when requests interleave.
 */
module Lifecycle {
  import opened Prelude
  import MeetingLife
  import RunAdmission

  type Id = string

  datatype Error = NotFound | Conflict

  class Database {
    var meetings: map<Id, MeetingLife.Meeting>
    var runs: RunAdmission.Runs

    /** `transition`: refused without a trace, or the one row moves on and keeps its start. */
    method Transition(m: Id, command: MeetingLife.Command, now: int) returns (r: Result<(), Error>)
      modifies this`meetings
      ensures r == Err(NotFound) <==> m !in old(meetings)
      ensures r.Ok? <==> m in old(meetings) && old(meetings)[m].status in MeetingLife.Allowed(command)
      ensures r.Err? ==> meetings == old(meetings)
      ensures r.Ok? ==>
                && m in meetings && meetings == old(meetings)[m := meetings[m]]
                && meetings[m].status == MeetingLife.Target(command)
                && MeetingLife.Evolves(old(meetings)[m], meetings[m])
                && (MeetingLife.Consistent(old(meetings)[m], now) ==> MeetingLife.Consistent(meetings[m], now))
    {
      if m !in meetings {
        return Err(NotFound);
      }
      var row := meetings[m];
      if row.status !in MeetingLife.Allowed(command) {
        return Err(Conflict);
      }
      var target := MeetingLife.Target(command);
      var startedAt, endedAt := row.startedAt, row.endedAt;
      if target == MeetingLife.Active && startedAt == None {
        startedAt := Some(now);
      }
      if target == MeetingLife.Ended {
        endedAt := Some(now);
      }
      meetings := meetings[m := MeetingLife.Meeting(target, startedAt, endedAt)];
      r := Ok(());
    }

    /** `request_codex`: conflicts exactly while a run of the meeting is in flight. */
    method RequestCodex(m: Id, run: Id) returns (r: Result<Id, Error>)
      requires run !in runs
      modifies this`runs
      ensures r == Err(NotFound) <==> m !in meetings
      ensures r.Ok? <==> m in meetings && !RunAdmission.Busy(old(runs), m)
      ensures r.Err? ==> runs == old(runs)
      ensures r.Ok? ==> r.value == run && runs == old(runs)[run := RunAdmission.Run(m, RunAdmission.Queued)]
      ensures RunAdmission.OneInFlight(old(runs)) ==> RunAdmission.OneInFlight(runs)
    {
      if m !in meetings {
        return Err(NotFound);
      }
      if RunAdmission.Busy(runs, m) {
        return Err(Conflict);
      }
      runs := runs[run := RunAdmission.Run(m, RunAdmission.Queued)];
      r := Ok(run);
    }

    /** `end`: once the meeting has ended, a summary run refused with a conflict is no error. */
    method EndMeeting(m: Id, run: Id, now: int) returns (r: Result<(), Error>)
      requires run !in runs
      modifies this
      ensures r.Ok? <==> m in old(meetings) && old(meetings)[m].status in MeetingLife.Allowed(MeetingLife.End)
      ensures r.Ok? ==> m in meetings && meetings[m].status.Ended? && RunAdmission.Busy(runs, m)
      ensures r.Err? ==> meetings == old(meetings) && runs == old(runs)
      ensures RunAdmission.OneInFlight(old(runs)) ==> RunAdmission.OneInFlight(runs)
    {
      r := Transition(m, MeetingLife.End, now);
      if r.Ok? {
        var summary := RequestCodex(m, run);
        assert summary.Ok? ==> runs[run] == RunAdmission.Run(m, RunAdmission.Queued);
      }
    }

    /** `cancel_run`: cancels what has not started or was stopped, and reports exactly that. */
    method CancelCodexRun(run: Id, stopped: bool) returns (r: Result<bool, Error>)
      modifies this`runs
      ensures r == Err(NotFound) <==> run !in old(runs)
      ensures r.Ok? ==> runs.Keys == old(runs).Keys && forall other | other in runs && other != run ::
                          runs[other] == old(runs)[other]
      ensures r.Ok? ==>
                (r.value <==> stopped || old(runs)[run].status in {RunAdmission.Queued, RunAdmission.PreparingContext})
      ensures r.Ok? ==>
                if r.value then runs[run] == RunAdmission.Run(old(runs)[run].meeting, RunAdmission.Cancelled)
                else runs == old(runs)
    {
      if run !in runs {
        return Err(NotFound);
      }
      var status := runs[run].status;
      if status == RunAdmission.Queued || status == RunAdmission.PreparingContext || stopped {
        runs := RunAdmission.SetStatus(runs, run, RunAdmission.Cancelled);
        return Ok(true);
      }
      r := Ok(false);
    }

    /**
     The recovery step, from any state at all: afterwards no meeting is active or paused, nothing blocks
     a request, all times are kept, and whatever was not in progress is untouched.
     */
    method Restart()
      modifies this
      ensures meetings.Keys == old(meetings).Keys && runs.Keys == old(runs).Keys
      ensures forall m | m in meetings :: !meetings[m].status.Active? && !meetings[m].status.Paused?
      ensures forall m | m in meetings ::
                var before, after := old(meetings)[m], meetings[m];
                && after.startedAt == before.startedAt && after.endedAt == before.endedAt
                && (if before.status.Active? || before.status.Paused? then after.status.Interrupted?
                    else after == before)
      ensures forall m :: !RunAdmission.Busy(runs, m)
      ensures forall r | r in runs ::
                if RunAdmission.InFlight(old(runs)[r].status)
                then runs[r] == RunAdmission.Run(old(runs)[r].meeting, RunAdmission.Failed)
                else runs[r] == old(runs)[r]
    {
      meetings := map m | m in meetings :: MeetingLife.Interrupt(meetings[m]);
      runs := map r | r in runs :: RunAdmission.Fail(runs[r]);
    }
  }

  /**
   After a restart, from any state at all, every meeting that was active or paused can be started again
   or ended, and the next count of every meeting admits its request.
   */
  lemma RestartUnblocks(one: MeetingLife.Config, life: MeetingLife.State, two: RunAdmission.Config,
                        admission: RunAdmission.State, m: Id, q: nat)
    requires m in life.meetings
    ensures var row := MeetingLife.Apply(one, life, MeetingLife.Restart).meetings[m];
            life.meetings[m].status in {MeetingLife.Active, MeetingLife.Paused} ==>
              row.status in MeetingLife.Allowed(MeetingLife.Start) && row.status in MeetingLife.Allowed(MeetingLife.End)
    ensures var after := RunAdmission.Apply(two, admission, RunAdmission.Restart);
            var count := RunAdmission.Count(q, m, false);
            RunAdmission.Enabled(two, after, count) && q in RunAdmission.Apply(two, after, count).admitted
  {
    var after := RunAdmission.Apply(two, admission, RunAdmission.Restart);
    assert forall r | r in after.runs :: !RunAdmission.InFlight(after.runs[r].status);
  }
}
