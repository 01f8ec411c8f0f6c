/**
 Versioned decisions (`backend/app/api/work_items.py`). A change of a decision inserts
 a replacement row and links the two; rows are never rewritten or removed. Requests
 are atomic: one request's transaction commits before the next one reads.
 */
module Decisions {
  import opened Prelude

  type DecisionId = string
  type MeetingId = string
  type ProjectId = string
  type SegmentId = string

  datatype Status = Draft | Proposed | Confirmed | Rejected | Superseded | Archived

  datatype Error = NotFound | Conflict | Unprocessable | Failed

  // What a user writes: everything of a row that is not bookkeeping.
  datatype Body = Body(
    title: string,
    description: string,
    content: string,
    owner: Option<string>,
    confidence: real,
    evidence: seq<SegmentId>)

  datatype Decision = Decision(
    meeting: MeetingId,
    project: Option<ProjectId>,
    body: Body,
    status: Status,
    version: nat,
    supersedes: Option<DecisionId>,
    supersededBy: Option<DecisionId>)

  type Rows = map<DecisionId, Decision>

  // The validated request bodies `DecisionWrite` and `DecisionSupersede`.
  datatype Write = Write(
    title: string,
    description: string,
    owner: Option<string>,
    status: Status,
    confidence: real,
    evidence: seq<SegmentId>)

  // The other tables a request consults.
  datatype World = World(
    meetings: map<MeetingId, Option<ProjectId>>,
    projects: set<ProjectId>,
    segments: map<SegmentId, MeetingId>)

  // `id` is the fresh primary key of the row a request may insert.
  datatype Request =
    | Create(id: DecisionId, meeting: MeetingId, project: Option<ProjectId>, write: Write)
    // Rows made from a suggestion, a state item or an engine patch.
    | Generate(id: DecisionId, meeting: MeetingId, text: string, evidence: seq<SegmentId>)
    | Supersede(id: DecisionId, target: DecisionId, write: Write)
    | Update(id: DecisionId, target: DecisionId, meeting: MeetingId, project: Option<ProjectId>, write: Write)
    | Confirm(target: DecisionId)
    | Reject(target: DecisionId)

  predicate Replaceable(status: Status) {
    status.Draft? || status.Proposed? || status.Confirmed?
  }

  // Primary keys are fresh, and the supersede endpoint's schema admits three statuses only.
  predicate Admissible(rows: Rows, request: Request) {
    match request
    case Create(id, _, _, _) => id !in rows
    case Generate(id, _, _, _) => id !in rows
    case Supersede(id, _, write) => id !in rows && Replaceable(write.status)
    case Update(id, _, _, _, _) => id !in rows
    case _ => true
  }

  function BodyOf(write: Write): Body {
    Body(write.title, write.description, if write.description != "" then write.description else write.title,
         write.owner, write.confidence, write.evidence)
  }

  predicate EvidenceIn(w: World, meeting: MeetingId, evidence: seq<SegmentId>) {
    forall e | e in evidence :: e in w.segments && w.segments[e] == meeting
  }

  predicate ProjectMatches(w: World, meeting: MeetingId, requested: Option<ProjectId>)
    requires meeting in w.meetings
  {
    requested.Some? ==> requested == w.meetings[meeting] && requested.value in w.projects
  }

  function Link(rows: Rows, id: DecisionId, target: DecisionId, write: Write): Rows
    requires target in rows
  {
    var row := rows[target];
    var replacement := Decision(row.meeting, row.project, BodyOf(write), write.status,
                                row.version + 1, Some(target), None);
    rows[id := replacement][target := row.(status := Superseded, supersededBy := Some(id))]
  }

  // `_supersede`, once the row has been found.
  function Replace(w: World, rows: Rows, id: DecisionId, target: DecisionId, write: Write): (Rows, Option<Error>)
    requires target in rows
  {
    if rows[target].status.Superseded? then (rows, Some(Conflict))
    else if !EvidenceIn(w, rows[target].meeting, write.evidence) then (rows, Some(Unprocessable))
    else (Link(rows, id, target, write), None)
  }

  function SetStatus(rows: Rows, target: DecisionId, status: Status): Rows
    requires target in rows
  {
    rows[target := rows[target].(status := status)]
  }

  // The table after a request, and the error it answered with, if any.
  function Handle(w: World, rows: Rows, request: Request): (Rows, Option<Error>) {
    match request
    case Create(id, meeting, project, write) =>
      if meeting !in w.meetings || !ProjectMatches(w, meeting, project) then (rows, Some(Unprocessable))
      else if !EvidenceIn(w, meeting, write.evidence) then (rows, Some(Unprocessable))
      else (rows[id := Decision(meeting, w.meetings[meeting], BodyOf(write), write.status, 1, None, None)], None)
    case Generate(id, meeting, text, evidence) =>
      if meeting !in w.meetings then (rows, Some(NotFound))
      else
        var body := Body(text, text, text, None, 1.0, evidence);
        (rows[id := Decision(meeting, w.meetings[meeting], body, Draft, 1, None, None)], None)
    case Supersede(id, target, write) =>
      if target !in rows then (rows, Some(NotFound)) else Replace(w, rows, id, target, write)
    case Update(id, target, meeting, project, write) =>
      if target !in rows then (rows, Some(NotFound))
      else if meeting != rows[target].meeting || (project.Some? && project != rows[target].project)
      then (rows, Some(Unprocessable))
      // Rebuilding the payload as a DecisionSupersede raises for the other statuses.
      else if !Replaceable(write.status) then (rows, Some(Failed))
      else Replace(w, rows, id, target, write)
    case Confirm(target) =>
      if target !in rows then (rows, Some(NotFound))
      else if rows[target].status in {Rejected, Superseded, Archived} then (rows, Some(Conflict))
      else (SetStatus(rows, target, Confirmed), None)
    case Reject(target) =>
      if target !in rows then (rows, Some(NotFound))
      else if rows[target].status in {Confirmed, Superseded, Archived} then (rows, Some(Conflict))
      else (SetStatus(rows, target, Rejected), None)
  }

  // The table after a history of requests; None when one was not admissible.
  function Replay(w: World, rows: Rows, history: seq<Request>): Option<Rows> {
    if history == [] then Some(rows)
    else
      var before := Replay(w, rows, history[..|history| - 1]);
      var last := history[|history| - 1];
      if before.Some? && Admissible(before.value, last) then Some(Handle(w, before.value, last).0) else None
  }

  /** The decisions table and the request handlers that write it. */
  class DecisionTable {
    const world: World
    var rows: Rows

    constructor (world: World)
      ensures this.world == world && rows == map[]
    {
      this.world := world;
      rows := map[];
    }

    method SupersedeRow(id: DecisionId, target: DecisionId, write: Write) returns (error: Option<Error>)
      requires target in rows && id !in rows
      modifies this
      ensures (rows, error) == Replace(world, old(rows), id, target, write)
      ensures error.None? ==> id in rows && Says(rows[id], write) && rows[id].status == write.status
    {
      var row := rows[target];
      if row.status.Superseded? {
        return Some(Conflict);
      }
      if exists e :: e in write.evidence && (e !in world.segments || world.segments[e] != row.meeting) {
        return Some(Unprocessable);
      }
      rows := rows[id := Decision(row.meeting, row.project, BodyOf(write), write.status,
      row.version + 1, Some(target), None)];
      rows := rows[target := row.(status := Superseded, supersededBy := Some(id))];
      return None;
    }

    method CreateDecision(id: DecisionId, meeting: MeetingId, project: Option<ProjectId>, write: Write)
      returns (error: Option<Error>)
      requires id !in rows
      modifies this
      ensures (rows, error) == Handle(world, old(rows), Create(id, meeting, project, write))
      ensures error.None? ==> id in rows && Says(rows[id], write) && rows[id].status == write.status
    {
      if meeting !in world.meetings {
        return Some(Unprocessable);
      }
      if project.Some? && (project != world.meetings[meeting] || project.value !in world.projects) {
        return Some(Unprocessable);
      }
      if exists e :: e in write.evidence && (e !in world.segments || world.segments[e] != meeting) {
        return Some(Unprocessable);
      }
      rows := rows[id := Decision(meeting, world.meetings[meeting], BodyOf(write), write.status, 1, None, None)];
      return None;
    }

    method SupersedeDecision(id: DecisionId, target: DecisionId, write: Write) returns (error: Option<Error>)
      requires id !in rows
      modifies this
      ensures (rows, error) == Handle(world, old(rows), Supersede(id, target, write))
      ensures error.None? ==> id in rows && Says(rows[id], write) && rows[id].status == write.status
    {
      if target !in rows {
        return Some(NotFound);
      }
      error := SupersedeRow(id, target, write);
    }

    method UpdateDecision(id: DecisionId, target: DecisionId, meeting: MeetingId, project: Option<ProjectId>,
                          write: Write) returns (error: Option<Error>)
      requires id !in rows
      modifies this
      ensures (rows, error) == Handle(world, old(rows), Update(id, target, meeting, project, write))
      ensures error.None? ==> id in rows && Says(rows[id], write) && rows[id].status == write.status
    {
      if target !in rows {
        return Some(NotFound);
      }
      if meeting != rows[target].meeting || (project != None && project != rows[target].project) {
        return Some(Unprocessable);
      }
      if !Replaceable(write.status) {
        return Some(Failed);
      }
      error := SupersedeRow(id, target, write);
    }

    method ConfirmDecision(target: DecisionId) returns (error: Option<Error>)
      modifies this
      ensures (rows, error) == Handle(world, old(rows), Confirm(target))
    {
      if target !in rows {
        return Some(NotFound);
      }
      if rows[target].status in {Rejected, Superseded, Archived} {
        return Some(Conflict);
      }
      rows := rows[target := rows[target].(status := Confirmed)];
      return None;
    }

    method RejectDecision(target: DecisionId) returns (error: Option<Error>)
      modifies this
      ensures (rows, error) == Handle(world, old(rows), Reject(target))
    {
      if target !in rows {
        return Some(NotFound);
      }
      if rows[target].status in {Confirmed, Superseded, Archived} {
        return Some(Conflict);
      }
      rows := rows[target := rows[target].(status := Rejected)];
      return None;
    }
  }

  // ---- what a row says ----

  // The row says what the user wrote, field by field.
  predicate Says(row: Decision, write: Write) {
    && row.body.title == write.title && row.body.description == write.description
    && row.body.owner == write.owner && row.body.confidence == write.confidence
    && row.body.evidence == write.evidence
    && (write.description == "" ==> row.body.content == write.title)
    && (write.description != "" ==> row.body.content == write.description)
  }

  predicate SaysText(row: Decision, text: string, evidence: seq<SegmentId>) {
    && row.body.title == text && row.body.description == text && row.body.content == text
    && row.body.owner.None? && row.body.confidence == 1.0 && row.body.evidence == evidence
  }

  predicate Inserts(request: Request, id: DecisionId) {
    !request.Confirm? && !request.Reject? && request.id == id
  }

  // A first version belongs to the project of its meeting.
  predicate Starts(w: World, row: Decision, meeting: MeetingId) {
    meeting in w.meetings && row.meeting == meeting && row.project == w.meetings[meeting] && row.version == 1
  }

  // The row says what the request that inserted it asked for.
  predicate SaysRequest(w: World, row: Decision, request: Request) {
    match request
    case Create(_, meeting, _, write) => Says(row, write) && Starts(w, row, meeting)
    case Generate(_, meeting, text, evidence) => SaysText(row, text, evidence) && Starts(w, row, meeting)
    case Supersede(_, target, write) => Says(row, write) && row.supersedes == Some(target)
    case Update(_, target, meeting, _, write) =>
      Says(row, write) && row.supersedes == Some(target) && row.meeting == meeting
    case _ => false
  }

  // The status an accepted request gives to a row, if it is about it.
  function StatusGiven(request: Request, id: DecisionId): Option<Status> {
    match request
    case Create(inserted, _, _, write) => if inserted == id then Some(write.status) else None
    case Generate(inserted, _, _, _) => if inserted == id then Some(Draft) else None
    case Supersede(inserted, target, write) =>
      if target == id then Some(Superseded) else if inserted == id then Some(write.status) else None
    case Update(inserted, target, _, _, write) =>
      if target == id then Some(Superseded) else if inserted == id then Some(write.status) else None
    case Confirm(target) => if target == id then Some(Confirmed) else None
    case Reject(target) => if target == id then Some(Rejected) else None
  }

  predicate Refused(w: World, rows: Rows, request: Request) {
    Handle(w, rows, request).1.Some?
  }

  // What a request must meet: its row, its project and its evidence belong together, and the row's
  // status admits the change.
  predicate Acceptable(w: World, rows: Rows, request: Request) {
    match request
    case Create(_, meeting, project, write) =>
      && meeting in w.meetings && EvidenceIn(w, meeting, write.evidence)
      && (project.None? || (project == w.meetings[meeting] && project.value in w.projects))
    case Generate(_, meeting, _, _) => meeting in w.meetings
    case Supersede(_, target, write) => MayReplace(w, rows, target, write)
    case Update(_, target, meeting, project, write) =>
      && MayReplace(w, rows, target, write) && (Open(write.status) || write.status.Confirmed?)
      && meeting == rows[target].meeting && (project.None? || project == rows[target].project)
    case Confirm(target) => target in rows && (Open(rows[target].status) || rows[target].status.Confirmed?)
    case Reject(target) => target in rows && (Open(rows[target].status) || rows[target].status.Rejected?)
  }

  predicate Open(status: Status) {
    status.Draft? || status.Proposed?
  }

  predicate MayReplace(w: World, rows: Rows, target: DecisionId, write: Write) {
    target in rows && rows[target].status != Superseded && EvidenceIn(w, rows[target].meeting, write.evidence)
  }

  /**
   Exactly the acceptable requests are accepted, and a refused one changes nothing. An accepted one
   inserts a row that says what was written and gives the rows it is about their status; every other row
   stays as it is.
   */
  lemma RequestSays(w: World, rows: Rows, request: Request, id: DecisionId)
    requires Admissible(rows, request)
    ensures var after := Handle(w, rows, request).0;
            if !Acceptable(w, rows, request) then Refused(w, rows, request) && after == rows
            else
              && !Refused(w, rows, request)
              && (Inserts(request, id) ==> id in after && SaysRequest(w, after[id], request))
              && (!Inserts(request, id) ==> (id in after <==> id in rows))
              && (id in rows ==> after[id].body == rows[id].body)
              && (StatusGiven(request, id).Some? ==> id in after && Some(after[id].status) == StatusGiven(request, id))
              && (StatusGiven(request, id).None? && id in rows ==> after[id] == rows[id])
  {
    match request
    case Create(_, _, _, _) =>
    case Generate(_, _, _, _) =>
    case Supersede(_, _, _) =>
    case Update(_, _, _, _, _) =>
    case Confirm(_) =>
    case Reject(_) =>
  }

  // ---- chains ----

  // A row points back to the row it replaced, one version earlier in the same meeting.
  predicate LinkedBack(rows: Rows, id: DecisionId)
    requires id in rows
  {
    var row := rows[id];
    match row.supersedes
    case None => row.version == 1
    case Some(p) =>
      && p in rows && rows[p].supersededBy == Some(id) && row.version == rows[p].version + 1
      && rows[p].meeting == row.meeting && rows[p].project == row.project
  }

  // A row with a successor is superseded, and the successor points back to it.
  predicate LinkedForward(rows: Rows, id: DecisionId)
    requires id in rows
  {
    var row := rows[id];
    row.supersededBy.Some? ==>
      && row.supersededBy.value in rows && rows[row.supersededBy.value].supersedes == Some(id)
      && row.status.Superseded?
  }

  ghost predicate Chains(rows: Rows) {
    forall id | id in rows :: LinkedBack(rows, id) && LinkedForward(rows, id) && rows[id].version >= 1
  }

  lemma LinkKeepsChains(rows: Rows, id: DecisionId, target: DecisionId, write: Write)
    requires Chains(rows) && id !in rows && target in rows && !rows[target].status.Superseded?
    ensures Chains(Link(rows, id, target, write))
  {
    var after := Link(rows, id, target, write);
    assert LinkedForward(rows, target);
    forall x | x in after ensures LinkedBack(after, x) && LinkedForward(after, x) && after[x].version >= 1 {
      if x != id {
        assert LinkedBack(rows, x) && LinkedForward(rows, x);
      }
    }
  }

  lemma InsertKeepsChains(rows: Rows, id: DecisionId, row: Decision)
    requires Chains(rows) && id !in rows
    requires row.version == 1 && row.supersedes.None? && row.supersededBy.None?
    ensures Chains(rows[id := row])
  {
    forall x | x in rows ensures LinkedBack(rows[id := row], x) && LinkedForward(rows[id := row], x) {
      assert LinkedBack(rows, x) && LinkedForward(rows, x);
    }
  }

  lemma SetStatusKeepsChains(rows: Rows, target: DecisionId, status: Status)
    requires Chains(rows) && target in rows && !rows[target].status.Superseded?
    ensures Chains(SetStatus(rows, target, status))
  {
    var after := SetStatus(rows, target, status);
    forall x | x in rows ensures LinkedBack(after, x) && LinkedForward(after, x) {
      assert LinkedBack(rows, x) && LinkedForward(rows, x);
    }
  }

  lemma HandleKeepsChains(w: World, rows: Rows, request: Request)
    requires Chains(rows) && Admissible(rows, request)
    ensures Chains(Handle(w, rows, request).0)
  {
    var after := Handle(w, rows, request).0;
    if after != rows {
      match request
      case Create(id, _, _, _) => InsertKeepsChains(rows, id, after[id]);
      case Generate(id, _, _, _) => InsertKeepsChains(rows, id, after[id]);
      case Supersede(id, target, write) => LinkKeepsChains(rows, id, target, write);
      case Update(id, target, _, _, write) => LinkKeepsChains(rows, id, target, write);
      case Confirm(target) => SetStatusKeepsChains(rows, target, Confirmed);
      case Reject(target) => SetStatusKeepsChains(rows, target, Rejected);
    }
  }

  /** Every history of requests keeps the version links mutually inverse, one version apart. */
  lemma {:induction false} HistoryKeepsChains(w: World, history: seq<Request>)
    requires Replay(w, map[], history).Some?
    ensures Chains(Replay(w, map[], history).value)
  {
    if history != [] {
      HistoryKeepsChains(w, history[..|history| - 1]);
      HandleKeepsChains(w, Replay(w, map[], history[..|history| - 1]).value, history[|history| - 1]);
    }
  }

  // k links back from id.
  function Back(rows: Rows, id: DecisionId, k: nat): Option<DecisionId>
    decreases k
  {
    if id !in rows then None
    else if k == 0 then Some(id)
    else if rows[id].supersedes.None? then None else Back(rows, rows[id].supersedes.value, k - 1)
  }

  /** From version v, k links lead to version v - k of the same meeting and project; v links lead nowhere. */
  lemma {:induction false} WalkBack(rows: Rows, id: DecisionId, k: nat)
    requires Chains(rows) && id in rows
    ensures k < rows[id].version ==>
              var at := Back(rows, id, k);
              && at.Some? && at.value in rows && rows[at.value].version == rows[id].version - k
              && rows[at.value].meeting == rows[id].meeting && rows[at.value].project == rows[id].project
              && (k + 1 == rows[id].version <==> rows[at.value].supersedes.None?)
    ensures k >= rows[id].version ==> Back(rows, id, k).None?
    decreases k
  {
    assert LinkedBack(rows, id);
    if k > 0 && rows[id].supersedes.Some? {
      WalkBack(rows, rows[id].supersedes.value, k - 1);
    } else if k == 0 && rows[id].supersedes.Some? {
      assert LinkedBack(rows, rows[id].supersedes.value);
    }
  }

  ghost function Root(rows: Rows, id: DecisionId): (r: DecisionId)
    requires Chains(rows) && id in rows
    ensures r in rows && rows[r].supersedes.None?
    decreases rows[id].version
  {
    assert LinkedBack(rows, id);
    if rows[id].supersedes.None? then id else Root(rows, rows[id].supersedes.value)
  }

  function NewerThan(rows: Rows, version: nat): set<DecisionId> {
    set x | x in rows && rows[x].version > version
  }

  lemma NewerShrinks(rows: Rows, id: DecisionId, version: nat)
    requires id in rows && rows[id].version > version
    ensures NewerThan(rows, rows[id].version) < NewerThan(rows, version)
  {
    assert id in NewerThan(rows, version) && id !in NewerThan(rows, rows[id].version);
  }

  // The newest version of a decision.
  ghost function Latest(rows: Rows, id: DecisionId): (r: DecisionId)
    requires Chains(rows) && id in rows
    ensures r in rows && rows[r].supersededBy.None? && Root(rows, r) == Root(rows, id)
    ensures rows[r].version >= rows[id].version
    decreases NewerThan(rows, rows[id].version)
  {
    assert LinkedForward(rows, id);
    if rows[id].supersededBy.None? then id
    else
      var next := rows[id].supersededBy.value;
      assert LinkedBack(rows, next);
      NewerShrinks(rows, next, rows[id].version);
      Latest(rows, next)
  }

  lemma {:induction false} SameVersionSameRow(rows: Rows, a: DecisionId, b: DecisionId)
    requires Chains(rows) && a in rows && b in rows
    requires Root(rows, a) == Root(rows, b) && rows[a].version == rows[b].version
    ensures a == b
    decreases rows[a].version
  {
    assert LinkedBack(rows, a) && LinkedBack(rows, b);
    if rows[a].version > 1 {
      SameVersionSameRow(rows, rows[a].supersedes.value, rows[b].supersedes.value);
    }
  }

  lemma {:induction false} NothingAfterCurrent(rows: Rows, current: DecisionId, b: DecisionId)
    requires Chains(rows) && current in rows && b in rows && rows[current].supersededBy.None?
    requires Root(rows, current) == Root(rows, b) && rows[current].version <= rows[b].version
    ensures current == b
    decreases rows[b].version
  {
    if rows[current].version == rows[b].version {
      SameVersionSameRow(rows, current, b);
    } else {
      assert LinkedBack(rows, b) && LinkedBack(rows, current);
      NothingAfterCurrent(rows, current, rows[b].supersedes.value);
    }
  }

  lemma SameRootSameLatest(rows: Rows, a: DecisionId, b: DecisionId)
    requires Chains(rows) && a in rows && b in rows
    ensures Root(rows, a) == Root(rows, b) <==> Latest(rows, a) == Latest(rows, b)
  {
    if Root(rows, a) == Root(rows, b) {
      var la, lb := Latest(rows, a), Latest(rows, b);
      if rows[la].version <= rows[lb].version {
        NothingAfterCurrent(rows, la, lb);
      } else {
        NothingAfterCurrent(rows, lb, la);
      }
    }
  }

  /** Chains are disjoint simple paths: each has one row per version and exactly one current row. */
  lemma OneCurrentPerChain(w: World, history: seq<Request>, rows: Rows, a: DecisionId, b: DecisionId)
    requires Replay(w, map[], history) == Some(rows) && a in rows && b in rows
    ensures Chains(rows)
    ensures Root(rows, a) == Root(rows, b) <==> Latest(rows, a) == Latest(rows, b)
    ensures Root(rows, a) == Root(rows, b) && rows[a].version == rows[b].version ==> a == b
    ensures rows[a].supersededBy.None? <==> a == Latest(rows, a)
  {
    HistoryKeepsChains(w, history);
    SameRootSameLatest(rows, a, b);
    if Root(rows, a) == Root(rows, b) && rows[a].version == rows[b].version {
      SameVersionSameRow(rows, a, b);
    }
  }

  // ---- what never changes ----

  // Everything but status and successor is fixed; those two end at "superseded".
  predicate Evolves(before: Decision, after: Decision) {
    && after.(status := before.status, supersededBy := before.supersededBy) == before
    && (before.supersededBy.Some? ==> after.supersededBy == before.supersededBy)
    && (before.status.Superseded? ==> after == before)
  }

  lemma ReplaceEvolves(w: World, rows: Rows, id: DecisionId, target: DecisionId, write: Write, x: DecisionId)
    requires Chains(rows) && id !in rows && target in rows && x in rows
    ensures x in Replace(w, rows, id, target, write).0 && Evolves(rows[x], Replace(w, rows, id, target, write).0[x])
  {
    assert LinkedForward(rows, x);
  }

  lemma HandleEvolves(w: World, rows: Rows, request: Request, id: DecisionId)
    requires Chains(rows) && Admissible(rows, request) && id in rows
    ensures id in Handle(w, rows, request).0 && Evolves(rows[id], Handle(w, rows, request).0[id])
  {
    assert LinkedForward(rows, id);
    match request
    case Supersede(newId, target, write) =>
      if target in rows {
        ReplaceEvolves(w, rows, newId, target, write, id);
      }
    case Update(newId, target, _, _, write) =>
      if target in rows {
        ReplaceEvolves(w, rows, newId, target, write, id);
      }
    case _ =>
  }

  /** No later request removes a row, changes what it says, or revives a superseded one. */
  lemma {:induction false} HistoryIsImmutable(w: World, history: seq<Request>, later: seq<Request>, id: DecisionId)
    requires Replay(w, map[], history).Some?
    requires id in Replay(w, map[], history).value
    requires Replay(w, Replay(w, map[], history).value, later).Some?
    ensures var rows := Replay(w, map[], history).value;
            var after := Replay(w, rows, later).value;
            Chains(after) && id in after && Evolves(rows[id], after[id])
  {
    var rows := Replay(w, map[], history).value;
    HistoryKeepsChains(w, history);
    if later != [] {
      HistoryIsImmutable(w, history, later[..|later| - 1], id);
      var before := Replay(w, rows, later[..|later| - 1]).value;
      HandleKeepsChains(w, before, later[|later| - 1]);
      HandleEvolves(w, before, later[|later| - 1], id);
    }
  }

  /** Every row of every history says what the request that inserted it wrote. */
  lemma {:induction false} RowsSayWhatWasWritten(w: World, history: seq<Request>, rows: Rows, id: DecisionId)
    returns (i: nat)
    requires Replay(w, map[], history) == Some(rows) && id in rows
    ensures i < |history| && Inserts(history[i], id) && SaysRequest(w, rows[id], history[i])
  {
    var front, last := history[..|history| - 1], history[|history| - 1];
    var before := Replay(w, map[], front).value;
    RequestSays(w, before, last, id);
    if id in before {
      i := RowsSayWhatWasWritten(w, front, before, id);
      HistoryKeepsChains(w, front);
      HandleEvolves(w, before, last, id);
    } else {
      i := |front|;
    }
  }

  // What the last accepted request about a row made of its status.
  function LastStatus(w: World, history: seq<Request>, id: DecisionId): Option<Status> {
    if history == [] then None
    else
      var front, last := history[..|history| - 1], history[|history| - 1];
      var before := Replay(w, map[], front);
      if before.Some? && Acceptable(w, before.value, last) && StatusGiven(last, id).Some?
      then StatusGiven(last, id) else LastStatus(w, front, id)
  }

  /**
   After every history a row has exactly the status the last accepted request about it gave it: the
   written one until it is confirmed, rejected or superseded. Rows nobody inserted do not exist.
   */
  lemma {:induction false} StatusIsLastGiven(w: World, history: seq<Request>, rows: Rows, id: DecisionId)
    requires Replay(w, map[], history) == Some(rows)
    ensures LastStatus(w, history, id) == if id in rows then Some(rows[id].status) else None
  {
    if history != [] {
      var front, last := history[..|history| - 1], history[|history| - 1];
      var before := Replay(w, map[], front).value;
      StatusIsLastGiven(w, front, before, id);
      RequestSays(w, before, last, id);
    }
  }

  /**
   A superseded row without a successor exists only because it was created with that status;
   `create_decision` is the one request that does not refuse it.
   */
  lemma {:induction false} OrphansAreCreated(w: World, history: seq<Request>, id: DecisionId)
    requires Replay(w, map[], history).Some?
    requires var rows := Replay(w, map[], history).value;
             id in rows && rows[id].status.Superseded? && rows[id].supersededBy.None?
    ensures exists i :: 0 <= i < |history| && history[i].Create? && history[i].id == id &&
                        history[i].write.status.Superseded?
  {
    var last := history[|history| - 1];
    var before := Replay(w, map[], history[..|history| - 1]).value;
    if id in before && before[id].status.Superseded? && before[id].supersededBy.None? {
      OrphansAreCreated(w, history[..|history| - 1], id);
      var i :| 0 <= i < |history| - 1 && history[i].Create? && history[i].id == id &&
               history[i].write.status.Superseded?;
    } else {
      assert last.Create? && last.id == id && last.write.status.Superseded?;
    }
  }

  // Every row is superseded exactly when it has a successor.
  ghost predicate Regular(rows: Rows) {
    forall id | id in rows :: rows[id].status.Superseded? <==> rows[id].supersededBy.Some?
  }

  predicate CreatesOrphan(w: World, rows: Rows, request: Request) {
    request.Create? && request.write.status.Superseded? && Handle(w, rows, request).1.None?
  }

  // Some accepted `create_decision` of the history asked for the status "superseded".
  predicate EverCreatesOrphan(w: World, history: seq<Request>) {
    history != [] &&
    var before := Replay(w, map[], history[..|history| - 1]);
    EverCreatesOrphan(w, history[..|history| - 1]) ||
    (before.Some? && CreatesOrphan(w, before.value, history[|history| - 1]))
  }

  lemma RegularStays(w: World, rows: Rows, request: Request)
    requires Chains(rows) && Regular(rows) && Admissible(rows, request)
    ensures Regular(Handle(w, rows, request).0) <==> !CreatesOrphan(w, rows, request)
  {
    if CreatesOrphan(w, rows, request) {
      assert Handle(w, rows, request).0[request.id].status.Superseded?;
    }
  }

  lemma OrphanStays(w: World, rows: Rows, request: Request)
    requires Chains(rows) && !Regular(rows) && Admissible(rows, request)
    ensures !Regular(Handle(w, rows, request).0)
  {
    var id :| id in rows && !(rows[id].status.Superseded? <==> rows[id].supersededBy.Some?);
    assert LinkedForward(rows, id);
    HandleEvolves(w, rows, request, id);
  }

  /**
   After every history the rows are superseded exactly when they have a successor, if and only if
   no accepted `create_decision` of the history asked for the status "superseded".
   */
  lemma {:induction false} RegularExactly(w: World, history: seq<Request>, rows: Rows)
    requires Replay(w, map[], history) == Some(rows)
    ensures Regular(rows) <==> !EverCreatesOrphan(w, history)
  {
    if history != [] {
      var front, last := history[..|history| - 1], history[|history| - 1];
      var before := Replay(w, map[], front).value;
      HistoryKeepsChains(w, front);
      RegularExactly(w, front, before);
      if Regular(before) {
        RegularStays(w, before, last);
      } else {
        OrphanStays(w, before, last);
      }
    }
  }

  /** One request is enough to make an orphan in any meeting. */
  lemma OrphanWitness(w: World, meeting: MeetingId, id: DecisionId) returns (history: seq<Request>)
    requires meeting in w.meetings
    ensures Replay(w, map[], history).Some? && !Regular(Replay(w, map[], history).value)
  {
    var request := Create(id, meeting, None, Write("t", "", None, Superseded, 1.0, []));
    history := [request];
    assert history[..0] == [];
    assert Replay(w, map[], []) == Some(map[]);
    assert Handle(w, map[], request).0[id].status.Superseded?;
  }

  /**
   An update that stays in its meeting fails with an unhandled error exactly for the three statuses the
   supersede schema refuses; the same payload is one that `create_decision` accepts.
   */
  lemma UpdateFailsExactly(w: World, rows: Rows, id: DecisionId, target: DecisionId, write: Write)
    requires target in rows && rows[target].meeting in w.meetings
    requires EvidenceIn(w, rows[target].meeting, write.evidence)
    ensures var meeting := rows[target].meeting;
            && (Handle(w, rows, Update(id, target, meeting, None, write)).1 == Some(Failed)
                <==> write.status in {Rejected, Superseded, Archived})
            && Handle(w, rows, Create(id, meeting, None, write)).1 == None
  {
  }

  /** User-written evidence always belongs to the decision's own meeting. */
  lemma {:induction false} EvidenceStaysHome(w: World, history: seq<Request>, id: DecisionId)
    requires Replay(w, map[], history).Some? && id in Replay(w, map[], history).value
    requires forall i | 0 <= i < |history| && history[i].Generate? ::
               EvidenceIn(w, history[i].meeting, history[i].evidence)
    ensures var row := Replay(w, map[], history).value[id]; EvidenceIn(w, row.meeting, row.body.evidence)
  {
    var before := Replay(w, map[], history[..|history| - 1]).value;
    if id in before {
      EvidenceStaysHome(w, history[..|history| - 1], id);
    }
    if (history[|history| - 1].Supersede? || history[|history| - 1].Update?) {
      var target := history[|history| - 1].target;
      if target in before && target != id {
        EvidenceStaysHome(w, history[..|history| - 1], target);
      }
    }
  }
}
