/**
 Merging an engine answer into a meeting's rolling state (`apply_state_patch` in
 `backend/app/services/engine.py`, with `similar` from `backend/app/services/trigger.py`).
 The record has a single writer while a patch is applied.
 */
module StatePatch {
  import opened Prelude

  // Per-character lower-casing, whitespace, difflib's ratio test against 0.82, and the glossary's
  // rules for translations.
  datatype Text = Text(
    lower: char -> char,
    space: char -> bool,
    close: (string, string) -> bool,
    spell: string -> string)

  // Lower-case and drop all whitespace.
  function Normalize(t: Text, value: string): string {
    if value == "" then ""
    else
      var c := t.lower(value[|value| - 1]);
      Normalize(t, value[..|value| - 1]) + (if t.space(c) then "" else [c])
  }

  predicate Blank(t: Text, value: string) {
    Normalize(t, value) == ""
  }

  predicate Similar(t: Text, a: string, b: string) {
    var left, right := Normalize(t, a), Normalize(t, b);
    left != "" && right != "" && (left == right || t.close(left, right))
  }

  predicate SimilarToAny(t: Text, content: string, existing: seq<string>) {
    exists i :: 0 <= i < |existing| && Similar(t, content, existing[i])
  }

  // The additions a group takes: each one compared with all rows present when its turn comes.
  function Accepted(t: Text, existing: seq<string>, additions: seq<string>): seq<string> {
    if additions == [] then []
    else
      var before := Accepted(t, existing, additions[..|additions| - 1]);
      var content := additions[|additions| - 1];
      if content != "" && !SimilarToAny(t, content, existing + before) then before + [content] else before
  }

  // dict.fromkeys: first occurrences, in order.
  function Unique(items: seq<string>): seq<string> {
    if items == [] then []
    else
      var before := Unique(items[..|items| - 1]);
      var item := items[|items| - 1];
      if item in before then before else before + [item]
  }

  // One kind of state item: the contents of its table and the list in the state blob.
  datatype Group = Group(rows: seq<string>, list: seq<string>)

  datatype Kind = Decisions | OpenQuestions | Risks | ActionItems

  datatype Author = Nobody | User | Codex

  datatype Topic = Topic(text: string, author: Author)

  datatype Snapshot = Snapshot(version: nat, topic: string)

  // A transcript segment, of whatever meeting.
  datatype Segment = Segment(meeting: string, text: string, language: Option<string>, translated: string)

  datatype Translation = Translation(segment: string, language: string, text: string)

  // A row of project memory; its title is cut from its content.
  datatype Memory = Memory(title: string, content: string)

  // The rest of the state blob.
  datatype Blob = Blob(
    topic: Topic,
    summary: string,
    parking: seq<string>,
    nextSteps: seq<string>,
    agenda: seq<string>,
    lastRunAt: Option<int>,
    version: nat)

  datatype Record = Record(
    decisions: Group,
    questions: Group,
    risks: Group,
    actions: Group,
    blob: Blob,
    inProject: bool,
    memory: seq<Memory>,
    snapshots: seq<Snapshot>,
    meeting: string,
    segments: map<string, Segment>)
  {
    function Of(kind: Kind): Group {
      match kind
      case Decisions => decisions
      case OpenQuestions => questions
      case Risks => risks
      case ActionItems => actions
    }
  }

  // An absent optional text is "", and `at` is when the patch is applied.
  datatype Patch = Patch(
    decisions: seq<string>,
    questions: seq<string>,
    risks: seq<string>,
    actions: seq<string>,
    topic: string,
    summaryTopic: string,
    summary: string,
    parking: seq<string>,
    nextSteps: seq<string>,
    agenda: seq<string>,
    memory: seq<string>,
    translations: seq<Translation>,
    at: int)
  {
    function Of(kind: Kind): seq<string> {
      match kind
      case Decisions => decisions
      case OpenQuestions => questions
      case Risks => risks
      case ActionItems => actions
    }
  }

  function NewTopic(topic: Topic, patch: Patch): Topic {
    var first := if patch.topic != "" && !topic.author.User? then Topic(patch.topic, Codex) else topic;
    if patch.summaryTopic != "" && !first.author.User? then first.(text := patch.summaryTopic) else first
  }

  function Merged(t: Text, group: Group, additions: seq<string>): Group {
    var accepted := Accepted(t, group.rows, additions);
    Group(group.rows + accepted, Unique(group.list + accepted))
  }

  function PatchedBlob(blob: Blob, patch: Patch): Blob {
    Blob(NewTopic(blob.topic, patch),
         if patch.summary != "" then patch.summary else blob.summary,
         Unique(blob.parking + patch.parking),
         Unique(blob.nextSteps + patch.nextSteps),
         Unique(blob.agenda + patch.agenda),
         Some(patch.at),
         blob.version + 1)
  }

  function Contents(memory: seq<Memory>): (contents: seq<string>)
    ensures |contents| == |memory| && forall i | 0 <= i < |memory| :: contents[i] == memory[i].content
  {
    if memory == [] then [] else Contents(memory[..|memory| - 1]) + [memory[|memory| - 1].content]
  }

  function Entry(content: string): Memory {
    Memory(content[..Min(300, |content|)], content)
  }

  function Entries(contents: seq<string>): (memory: seq<Memory>)
    ensures |memory| == |contents| && forall i | 0 <= i < |contents| :: memory[i] == Entry(contents[i])
  {
    if contents == [] then [] else Entries(contents[..|contents| - 1]) + [Entry(contents[|contents| - 1])]
  }

  function Remember(t: Text, memory: seq<Memory>, additions: seq<string>): seq<Memory> {
    memory + Entries(Accepted(t, Contents(memory), additions))
  }

  // Translations of segments of another meeting, or of none, are skipped.
  function Translate(t: Text, meeting: string, segments: map<string, Segment>, translations: seq<Translation>)
    : map<string, Segment>
  {
    if translations == [] then segments
    else
      var before := Translate(t, meeting, segments, translations[..|translations| - 1]);
      var last := translations[|translations| - 1];
      if last.segment in before && before[last.segment].meeting == meeting
      then before[last.segment := before[last.segment].(language := Some(last.language),
                                                        translated := t.spell(last.text))]
      else before
  }

  function Patched(t: Text, r: Record, patch: Patch): Record {
    var blob := PatchedBlob(r.blob, patch);
    Record(
      Merged(t, r.decisions, patch.decisions),
      Merged(t, r.questions, patch.questions),
      Merged(t, r.risks, patch.risks),
      Merged(t, r.actions, patch.actions),
      blob,
      r.inProject,
      if r.inProject then Remember(t, r.memory, patch.memory) else r.memory,
      r.snapshots + [Snapshot(blob.version, blob.topic.text)],
      r.meeting,
      Translate(t, r.meeting, r.segments, patch.translations))
  }

  function PatchedAll(t: Text, r: Record, patches: seq<Patch>): Record {
    if patches == [] then r
    else Patched(t, PatchedAll(t, r, patches[..|patches| - 1]), patches[|patches| - 1])
  }

  /** A meeting's tables and state blob, updated in place. */
  class MeetingRecord {
    var decisions: Group
    var questions: Group
    var risks: Group
    var actions: Group
    var blob: Blob
    const inProject: bool
    var memory: seq<Memory>
    var snapshots: seq<Snapshot>
    const meeting: string
    var segments: map<string, Segment>

    function View(): Record
      reads this
    {
      Record(decisions, questions, risks, actions, blob, inProject, memory, snapshots, meeting, segments)
    }

    constructor (record: Record)
      ensures View() == record
    {
      decisions, questions := record.decisions, record.questions;
      risks, actions, blob := record.risks, record.actions, record.blob;
      inProject, memory, snapshots := record.inProject, record.memory, record.snapshots;
      meeting, segments := record.meeting, record.segments;
    }

    // The loop over one group's additions.
    static method Merge(t: Text, existing: seq<string>, additions: seq<string>) returns (accepted: seq<string>)
      ensures accepted == Accepted(t, existing, additions)
    {
      accepted := [];
      for i := 0 to |additions|
        invariant accepted == Accepted(t, existing, additions[..i])
      {
        assert additions[..i + 1][..i] == additions[..i];
        var content := additions[i];
        if content != "" && !SimilarToAny(t, content, existing + accepted) {
          accepted := accepted + [content];
        }
      }
      assert additions[..|additions|] == additions;
    }

    static method MergeGroup(t: Text, group: Group, additions: seq<string>) returns (after: Group)
      ensures after == Merged(t, group, additions)
    {
      var accepted := Merge(t, group.rows, additions);
      after := Group(group.rows + accepted, Unique(group.list + accepted));
    }

    method MergeGroups(t: Text, patch: Patch)
      modifies this`decisions, this`questions, this`risks, this`actions
      ensures decisions == Merged(t, old(decisions), patch.decisions)
      ensures questions == Merged(t, old(questions), patch.questions)
      ensures risks == Merged(t, old(risks), patch.risks)
      ensures actions == Merged(t, old(actions), patch.actions)
    {
      decisions := MergeGroup(t, decisions, patch.decisions);
      questions := MergeGroup(t, questions, patch.questions);
      risks := MergeGroup(t, risks, patch.risks);
      actions := MergeGroup(t, actions, patch.actions);
    }

    static method PatchBlob(blob: Blob, patch: Patch) returns (state: Blob)
      ensures state == PatchedBlob(blob, patch)
    {
      state := blob;
      if patch.topic != "" && !state.topic.author.User? {
        state := state.(topic := Topic(patch.topic, Codex));
      }
      state := state.(parking := Unique(state.parking + patch.parking));
      if patch.summaryTopic != "" && !state.topic.author.User? {
        state := state.(topic := state.topic.(text := patch.summaryTopic));
      }
      if patch.summary != "" {
        state := state.(summary := patch.summary);
      }
      state := state.(nextSteps := Unique(state.nextSteps + patch.nextSteps));
      state := state.(agenda := Unique(state.agenda + patch.agenda));
      state := state.(lastRunAt := Some(patch.at));
      state := state.(version := state.version + 1);
    }

    method TranslateSegments(t: Text, translations: seq<Translation>)
      modifies this`segments
      ensures segments == Translate(t, meeting, old(segments), translations)
    {
      for i := 0 to |translations|
        invariant segments == Translate(t, meeting, old(segments), translations[..i])
      {
        assert translations[..i + 1][..i] == translations[..i];
        var translation := translations[i];
        if translation.segment in segments && segments[translation.segment].meeting == meeting {
          var segment := segments[translation.segment];
          segments := segments[translation.segment := segment.(language := Some(translation.language),
                                                               translated := t.spell(translation.text))];
        }
      }
      assert translations[..|translations|] == translations;
    }

    method AddMemory(t: Text, additions: seq<string>)
      modifies this`memory
      ensures memory == if inProject then Remember(t, old(memory), additions) else old(memory)
    {
      if inProject {
        var accepted := Merge(t, Contents(memory), additions);
        memory := memory + Entries(accepted);
      }
    }

    method ApplyStatePatch(t: Text, patch: Patch)
      modifies this
      ensures View() == Patched(t, old(View()), patch)
    {
      TranslateSegments(t, patch.translations);
      MergeGroups(t, patch);
      blob := PatchBlob(blob, patch);
      AddMemory(t, patch.memory);
      snapshots := snapshots + [Snapshot(blob.version, blob.topic.text)];
    }
  }

  // ---- normalising ----

  /** Comparison looks at every character that is no white space, lower-cased, in order, and at nothing else. */
  lemma {:induction false} NormalizeKeepsVisible(t: Text, front: string, c: char, back: string)
    ensures Normalize(t, "") == ""
    ensures Normalize(t, front + [c] + back) ==
            Normalize(t, front) + (if t.space(t.lower(c)) then "" else [t.lower(c)]) + Normalize(t, back)
    decreases |back|
  {
    var all := front + [c] + back;
    if back == "" {
      assert all[..|all| - 1] == front;
    } else {
      var last := |back| - 1;
      NormalizeKeepsVisible(t, front, c, back[..last]);
      assert all[..|all| - 1] == front + [c] + back[..last] && all[|all| - 1] == back[last];
    }
  }

  /** Items are similar exactly when both show something, and what they show is equal or close. */
  lemma SimilarExactly(t: Text, a: string, b: string, x: string)
    ensures Similar(t, a, b) <==>
            !Blank(t, a) && !Blank(t, b) &&
            (Normalize(t, a) == Normalize(t, b) || t.close(Normalize(t, a), Normalize(t, b)))
    ensures Normalize(t, a) == Normalize(t, x) ==> (Similar(t, a, b) <==> Similar(t, x, b))
    ensures !Blank(t, a) ==> Similar(t, a, a)
  {
  }

  // ---- one group ----

  // From position `from` on, no row is similar to an earlier one.
  ghost predicate NoveltyFrom(t: Text, rows: seq<string>, from: nat) {
    forall i, j | from <= i < |rows| && 0 <= j < i :: !Similar(t, rows[i], rows[j])
  }

  lemma {:induction false} AcceptedIsNovel(t: Text, existing: seq<string>, additions: seq<string>)
    ensures NoveltyFrom(t, existing + Accepted(t, existing, additions), |existing|)
    ensures forall c | c in Accepted(t, existing, additions) :: c in additions && c != ""
  {
    if additions != [] {
      AcceptedIsNovel(t, existing, additions[..|additions| - 1]);
      var before := existing + Accepted(t, existing, additions[..|additions| - 1]);
      var content := additions[|additions| - 1];
      if content != "" && !SimilarToAny(t, content, before) {
        assert existing + Accepted(t, existing, additions) == before + [content];
      }
    }
  }

  lemma SimilarStays(t: Text, c: string, before: seq<string>, after: seq<string>)
    requires before <= after && SimilarToAny(t, c, before)
    ensures SimilarToAny(t, c, after)
  {
    var i :| 0 <= i < |before| && Similar(t, c, before[i]);
    assert Similar(t, c, after[i]);
  }

  /** An addition that is not taken is empty or similar to a row that is there. */
  lemma {:induction false} RejectedHasReason(t: Text, existing: seq<string>, additions: seq<string>, c: string)
    requires c in additions && c !in Accepted(t, existing, additions) && c != ""
    ensures SimilarToAny(t, c, existing + Accepted(t, existing, additions))
  {
    var front, last := additions[..|additions| - 1], additions[|additions| - 1];
    var before := existing + Accepted(t, existing, front);
    if c in front {
      RejectedHasReason(t, existing, front, c);
    } else {
      assert c == last;
    }
    SimilarStays(t, c, before, existing + Accepted(t, existing, additions));
  }

  // The non-empty additions made of whitespace only.
  function BlankOnes(t: Text, additions: seq<string>): seq<string> {
    if additions == [] then []
    else
      var content := additions[|additions| - 1];
      BlankOnes(t, additions[..|additions| - 1]) +
      (if content != "" && Blank(t, content) then [content] else [])
  }

  lemma {:induction false} KnownAdditionsAreBlank(t: Text, existing: seq<string>, additions: seq<string>)
    requires forall c | c in additions && c != "" && !Blank(t, c) :: SimilarToAny(t, c, existing)
    ensures Accepted(t, existing, additions) == BlankOnes(t, additions)
  {
    if additions != [] {
      var last := |additions| - 1;
      KnownAdditionsAreBlank(t, existing, additions[..last]);
      var content, before := additions[last], existing + Accepted(t, existing, additions[..last]);
      if content != "" && !Blank(t, content) {
        var i :| 0 <= i < |existing| && Similar(t, content, existing[i]);
        assert Similar(t, content, before[i]);
      }
    }
  }

  /** Applying the same additions again takes exactly the whitespace-only ones, so none of a sane patch. */
  lemma ReapplyTakesOnlyBlank(t: Text, existing: seq<string>, additions: seq<string>)
    ensures Accepted(t, existing + Accepted(t, existing, additions), additions) == BlankOnes(t, additions)
  {
    var after := existing + Accepted(t, existing, additions);
    forall c | c in additions && c != "" && !Blank(t, c) ensures SimilarToAny(t, c, after) {
      if c in Accepted(t, existing, additions) {
        var i :| 0 <= i < |Accepted(t, existing, additions)| && Accepted(t, existing, additions)[i] == c;
        assert Similar(t, c, after[|existing| + i]);
      } else {
        RejectedHasReason(t, existing, additions, c);
      }
    }
    KnownAdditionsAreBlank(t, after, additions);
  }

  // ---- list fields ----

  predicate Distinct(items: seq<string>) {
    forall i, j | 0 <= i < j < |items| :: items[i] != items[j]
  }

  lemma {:induction false} UniqueIsDistinct(items: seq<string>)
    ensures Distinct(Unique(items))
    ensures forall x :: x in Unique(items) <==> x in items
  {
    if items != [] {
      var front, last := items[..|items| - 1], items[|items| - 1];
      UniqueIsDistinct(front);
      assert items == front + [last];
    }
  }

  lemma {:induction false} UniqueOfPrefix(items: seq<string>, i: nat)
    requires i <= |items|
    ensures Unique(items[..i]) <= Unique(items)
    decreases |items|
  {
    if i < |items| {
      UniqueOfPrefix(items[..|items| - 1], i);
      assert items[..|items| - 1][..i] == items[..i];
    } else {
      assert items[..i] == items;
    }
  }

  /** `dict.fromkeys` keeps every value once, at the place of its first occurrence. */
  lemma UniqueKeepsFirst(items: seq<string>, i: nat)
    ensures Distinct(Unique(items))
    ensures forall x :: x in Unique(items) <==> x in items
    ensures i <= |items| ==> Unique(items[..i]) <= Unique(items)
  {
    UniqueIsDistinct(items);
    if i <= |items| {
      UniqueOfPrefix(items, i);
    }
  }

  lemma {:induction false} UniqueOfDistinct(items: seq<string>)
    requires Distinct(items)
    ensures Unique(items) == items
  {
    if items != [] {
      UniqueOfDistinct(items[..|items| - 1]);
    }
  }

  lemma UniqueExtends(list: seq<string>, more: seq<string>)
    ensures Distinct(Unique(list + more)) && Unique(list) <= Unique(list + more)
    ensures Distinct(list) ==> list <= Unique(list + more)
  {
    UniqueKeepsFirst(list + more, |list|);
    assert (list + more)[..|list|] == list;
    if Distinct(list) {
      UniqueOfDistinct(list);
    }
  }

  // ---- over any sequence of patches ----

  /** Rows are only appended, and none of the added ones is similar to an earlier row. */
  lemma {:induction false} RowsOnlyGrow(t: Text, r: Record, patches: seq<Patch>, kind: Kind, after: seq<string>)
    requires after == PatchedAll(t, r, patches).Of(kind).rows
    ensures r.Of(kind).rows <= after && NoveltyFrom(t, after, |r.Of(kind).rows|)
  {
    if patches != [] {
      var last := |patches| - 1;
      var before := PatchedAll(t, r, patches[..last]).Of(kind).rows;
      RowsOnlyGrow(t, r, patches[..last], kind, before);
      AcceptedIsNovel(t, before, patches[last].Of(kind));
    }
  }

  lemma ContentsRemembered(t: Text, memory: seq<Memory>, additions: seq<string>)
    ensures Contents(Remember(t, memory, additions)) == Contents(memory) + Accepted(t, Contents(memory), additions)
  {
    var added := Accepted(t, Contents(memory), additions);
    ContentsJoin(memory, Entries(added));
    assert Contents(Entries(added)) == added;
  }

  lemma ContentsJoin(a: seq<Memory>, b: seq<Memory>)
    ensures Contents(a + b) == Contents(a) + Contents(b)
  {
    forall i | 0 <= i < |a + b| ensures Contents(a + b)[i] == (Contents(a) + Contents(b))[i] {
      assert (a + b)[i] == if i < |a| then a[i] else b[i - |a|];
    }
  }

  predicate TitledFrom(memory: seq<Memory>, from: nat) {
    forall i | from <= i < |memory| :: memory[i] == Entry(memory[i].content)
  }

  /** Project memory grows the same way, each new row titled by its first 300 characters; only projects have one. */
  lemma {:induction false} MemoryOnlyGrows(t: Text, r: Record, patches: seq<Patch>, memory: seq<Memory>)
    requires memory == PatchedAll(t, r, patches).memory
    ensures r.memory <= memory && NoveltyFrom(t, Contents(memory), |r.memory|) && TitledFrom(memory, |r.memory|)
    ensures PatchedAll(t, r, patches).inProject == r.inProject && (!r.inProject ==> memory == r.memory)
  {
    if patches != [] {
      var front, last := patches[..|patches| - 1], patches[|patches| - 1];
      var before := PatchedAll(t, r, front).memory;
      MemoryOnlyGrows(t, r, front, before);
      AcceptedIsNovel(t, Contents(before), last.memory);
      ContentsRemembered(t, before, last.memory);
    }
  }

  // Whitespace-only items are similar to nothing, so they are always taken.
  lemma {:induction false} BlankIsTaken(t: Text, existing: seq<string>, additions: seq<string>)
    ensures forall c | c in BlankOnes(t, additions) :: c in Accepted(t, existing, additions)
  {
    if additions != [] {
      BlankIsTaken(t, existing, additions[..|additions| - 1]);
    }
  }

  // So the list field of a group, which took them the first time, stays as it is.
  lemma GroupTwice(t: Text, group: Group, additions: seq<string>)
    ensures var once := Merged(t, group, additions);
            var twice := Merged(t, once, additions);
            twice.rows == once.rows + BlankOnes(t, additions) && twice.list == once.list
  {
    var accepted := Accepted(t, group.rows, additions);
    ReapplyTakesOnlyBlank(t, group.rows, additions);
    BlankIsTaken(t, group.rows, additions);
    UniqueIsDistinct(group.list + accepted);
    UniqueOfKnown(Unique(group.list + accepted), BlankOnes(t, additions));
  }

  lemma MergedOf(t: Text, r: Record, patch: Patch, kind: Kind)
    ensures Patched(t, r, patch).Of(kind) == Merged(t, r.Of(kind), patch.Of(kind))
  {
  }

  /** Re-applying a patch adds exactly its whitespace-only items again: none, if it has none. */
  lemma PatchTwice(t: Text, r: Record, patch: Patch, kind: Kind)
    ensures var once := Patched(t, r, patch);
            var twice := Patched(t, once, patch);
            && twice.Of(kind).rows == once.Of(kind).rows + BlankOnes(t, patch.Of(kind))
            && twice.Of(kind).list == once.Of(kind).list
            && (r.inProject ==> twice.memory == once.memory + Entries(BlankOnes(t, patch.memory)))
            && twice.blob.parking == once.blob.parking && twice.blob.nextSteps == once.blob.nextSteps
            && twice.blob.agenda == once.blob.agenda
  {
    GroupTwice(t, r.Of(kind), patch.Of(kind));
    MergedOf(t, r, patch, kind);
    MergedOf(t, Patched(t, r, patch), patch, kind);
    ReapplyTakesOnlyBlank(t, Contents(r.memory), patch.memory);
    ContentsRemembered(t, r.memory, patch.memory);
    UniqueTwice(r.blob.parking, patch.parking);
    UniqueTwice(r.blob.nextSteps, patch.nextSteps);
    UniqueTwice(r.blob.agenda, patch.agenda);
  }

  lemma {:induction false} UniqueOfKnown(list: seq<string>, more: seq<string>)
    requires Distinct(list) && forall x | x in more :: x in list
    ensures Unique(list + more) == list
  {
    if more == [] {
      assert list + more == list;
      UniqueOfDistinct(list);
    } else {
      UniqueOfKnown(list, more[..|more| - 1]);
      assert (list + more)[..|list + more| - 1] == list + more[..|more| - 1];
    }
  }

  lemma UniqueTwice(list: seq<string>, more: seq<string>)
    ensures Unique(Unique(list + more) + more) == Unique(list + more)
  {
    UniqueKeepsFirst(list + more, 0);
    UniqueOfKnown(Unique(list + more), more);
  }

  /** List fields are duplicate-free after every patch and keep the order of what was there. */
  lemma ListsStayDistinct(t: Text, r: Record, patch: Patch, kind: Kind)
    ensures var after := Patched(t, r, patch);
            && Distinct(after.Of(kind).list) && Distinct(after.blob.parking)
            && Distinct(after.blob.nextSteps) && Distinct(after.blob.agenda)
            && (Distinct(r.Of(kind).list) ==> r.Of(kind).list <= after.Of(kind).list)
            && (Distinct(r.blob.parking) ==> r.blob.parking <= after.blob.parking)
            && (Distinct(r.blob.nextSteps) ==> r.blob.nextSteps <= after.blob.nextSteps)
            && (Distinct(r.blob.agenda) ==> r.blob.agenda <= after.blob.agenda)
  {
    UniqueExtends(r.Of(kind).list, Accepted(t, r.Of(kind).rows, patch.Of(kind)));
    UniqueExtends(r.blob.parking, patch.parking);
    UniqueExtends(r.blob.nextSteps, patch.nextSteps);
    UniqueExtends(r.blob.agenda, patch.agenda);
  }

  /** A topic the user set survives every sequence of patches. */
  lemma {:induction false} UserTopicSurvives(t: Text, r: Record, patches: seq<Patch>, topic: Topic)
    requires r.blob.topic.author.User? && topic == PatchedAll(t, r, patches).blob.topic
    ensures topic == r.blob.topic
  {
    if patches != [] {
      var front := patches[..|patches| - 1];
      UserTopicSurvives(t, r, front, PatchedAll(t, r, front).blob.topic);
    }
  }

  // `now` extends `start` by one snapshot for each version after `from` up to `to`.
  predicate Numbered(start: seq<Snapshot>, from: nat, now: seq<Snapshot>, to: nat) {
    && start <= now && to == from + |now| - |start|
    && forall i | |start| <= i < |now| :: now[i].version == from + 1 + i - |start|
  }

  lemma NumberedNext(start: seq<Snapshot>, from: nat, now: seq<Snapshot>, to: nat, topic: string)
    requires Numbered(start, from, now, to)
    ensures Numbered(start, from, now + [Snapshot(to + 1, topic)], to + 1)
  {
  }

  /** Versions are consecutive, with one snapshot for each. */
  lemma {:induction false} VersionsAreConsecutive(t: Text, r: Record, patches: seq<Patch>, version: nat,
                                                  snapshots: seq<Snapshot>)
    requires version == PatchedAll(t, r, patches).blob.version && snapshots == PatchedAll(t, r, patches).snapshots
    ensures version == r.blob.version + |patches| && Numbered(r.snapshots, r.blob.version, snapshots, version)
  {
    if patches != [] {
      var before := PatchedAll(t, r, patches[..|patches| - 1]);
      VersionsAreConsecutive(t, r, patches[..|patches| - 1], before.blob.version, before.snapshots);
      NumberedNext(r.snapshots, r.blob.version, before.snapshots, before.blob.version,
                   PatchedAll(t, r, patches).blob.topic.text);
    }
  }

  // The last non-empty text, or else the given one.
  function LastText(first: string, texts: seq<string>): string {
    if texts == [] then first
    else if texts[|texts| - 1] != "" then texts[|texts| - 1] else LastText(first, texts[..|texts| - 1])
  }

  function Summaries(patches: seq<Patch>): seq<string> {
    if patches == [] then [] else Summaries(patches[..|patches| - 1]) + [patches[|patches| - 1].summary]
  }

  // The topics the patches offer, in order: each its discussion's, then its summary's.
  function Topics(patches: seq<Patch>): seq<string> {
    if patches == [] then []
    else Topics(patches[..|patches| - 1]) + [patches[|patches| - 1].topic, patches[|patches| - 1].summaryTopic]
  }

  lemma LastTextAppends(first: string, texts: seq<string>, more: string)
    ensures LastText(first, texts + [more]) == if more != "" then more else LastText(first, texts)
  {
    assert (texts + [more])[..|texts|] == texts;
  }

  lemma {:induction false} SummaryIsLatest(t: Text, r: Record, patches: seq<Patch>, summary: string)
    requires summary == PatchedAll(t, r, patches).blob.summary
    ensures summary == LastText(r.blob.summary, Summaries(patches))
  {
    if patches != [] {
      var front, last := patches[..|patches| - 1], patches[|patches| - 1];
      SummaryIsLatest(t, r, front, PatchedAll(t, r, front).blob.summary);
      LastTextAppends(r.blob.summary, Summaries(front), last.summary);
    }
  }

  lemma NewTopicIsLatest(topic: Topic, patch: Patch, first: string, texts: seq<string>)
    requires !topic.author.User? && topic.text == LastText(first, texts)
    ensures NewTopic(topic, patch).text == LastText(first, texts + [patch.topic, patch.summaryTopic])
  {
    LastTextAppends(first, texts, patch.topic);
    LastTextAppends(first, texts + [patch.topic], patch.summaryTopic);
    assert texts + [patch.topic, patch.summaryTopic] == texts + [patch.topic] + [patch.summaryTopic];
  }

  lemma TopicAuthor(topic: Topic, patch: Patch)
    ensures NewTopic(topic, patch).author ==
            if patch.topic != "" && !topic.author.User? then Codex else topic.author
  {
  }

  predicate OfferTopic(patches: seq<Patch>) {
    exists i :: 0 <= i < |patches| && patches[i].topic != ""
  }

  lemma OfferedBefore(patches: seq<Patch>)
    requires patches != []
    ensures OfferTopic(patches) <==> OfferTopic(patches[..|patches| - 1]) || patches[|patches| - 1].topic != ""
  {
    var front := patches[..|patches| - 1];
    if OfferTopic(front) {
      var i :| 0 <= i < |front| && front[i].topic != "";
      assert patches[i].topic != "";
    }
    if OfferTopic(patches) {
      var i :| 0 <= i < |patches| && patches[i].topic != "";
      assert i < |front| ==> front[i].topic != "";
    }
  }

  lemma {:induction false} TopicIsLatest(t: Text, r: Record, patches: seq<Patch>, topic: Topic)
    requires topic == PatchedAll(t, r, patches).blob.topic
    ensures topic.author == if OfferTopic(patches) && !r.blob.topic.author.User? then Codex else r.blob.topic.author
    ensures !r.blob.topic.author.User? ==> topic.text == LastText(r.blob.topic.text, Topics(patches))
  {
    if patches != [] {
      var front, last := patches[..|patches| - 1], patches[|patches| - 1];
      var before := PatchedAll(t, r, front).blob.topic;
      TopicIsLatest(t, r, front, before);
      OfferedBefore(patches);
      TopicAuthor(before, last);
      if !r.blob.topic.author.User? {
        NewTopicIsLatest(before, last, r.blob.topic.text, Topics(front));
      }
    }
  }

  /**
   Over any patches the summary is the last one offered, and so is the topic unless the user has set it;
   the time of the last run is that of the last patch, and the newest snapshot shows the topic.
   */
  lemma BlobSaysLatest(t: Text, r: Record, patches: seq<Patch>, blob: Blob, snapshots: seq<Snapshot>)
    requires blob == PatchedAll(t, r, patches).blob && snapshots == PatchedAll(t, r, patches).snapshots
    ensures blob.summary == LastText(r.blob.summary, Summaries(patches))
    ensures blob.topic.author ==
            if OfferTopic(patches) && !r.blob.topic.author.User? then Codex else r.blob.topic.author
    ensures !r.blob.topic.author.User? ==> blob.topic.text == LastText(r.blob.topic.text, Topics(patches))
    ensures patches != [] ==>
              && blob.lastRunAt == Some(patches[|patches| - 1].at)
              && snapshots != [] && snapshots[|snapshots| - 1] == Snapshot(blob.version, blob.topic.text)
  {
    SummaryIsLatest(t, r, patches, blob.summary);
    TopicIsLatest(t, r, patches, blob.topic);
  }

  /** A patch adds to the lists exactly what it adds to the tables, and what it names. */
  lemma ListsGainExactly(t: Text, r: Record, patch: Patch, kind: Kind, x: string)
    ensures var after := Patched(t, r, patch);
            var added := after.Of(kind).rows[|r.Of(kind).rows|..];
            && r.Of(kind).rows <= after.Of(kind).rows
            && (x in after.Of(kind).list <==> x in r.Of(kind).list || x in added)
            && (x in after.blob.parking <==> x in r.blob.parking || x in patch.parking)
            && (x in after.blob.nextSteps <==> x in r.blob.nextSteps || x in patch.nextSteps)
            && (x in after.blob.agenda <==> x in r.blob.agenda || x in patch.agenda)
  {
    var accepted := Accepted(t, r.Of(kind).rows, patch.Of(kind));
    MergedOf(t, r, patch, kind);
    assert (r.Of(kind).rows + accepted)[|r.Of(kind).rows|..] == accepted;
    UniqueIsDistinct(r.Of(kind).list + accepted);
    UniqueIsDistinct(r.blob.parking + patch.parking);
    UniqueIsDistinct(r.blob.nextSteps + patch.nextSteps);
    UniqueIsDistinct(r.blob.agenda + patch.agenda);
  }

  // ---- translations ----

  // The last translation of a segment, if any.
  function LastFor(translations: seq<Translation>, id: string): Option<Translation> {
    if translations == [] then None
    else if translations[|translations| - 1].segment == id then Some(translations[|translations| - 1])
    else LastFor(translations[..|translations| - 1], id)
  }

  /** A segment of the meeting gets its last translation, respelled; nothing else of any segment changes. */
  lemma {:induction false} TranslationsStayHome(t: Text, meeting: string, segments: map<string, Segment>,
                                                translations: seq<Translation>, id: string)
    ensures Translate(t, meeting, segments, translations).Keys == segments.Keys
    ensures id in segments ==>
              Translate(t, meeting, segments, translations)[id] ==
              (match LastFor(translations, id)
               case Some(last) =>
                 if segments[id].meeting == meeting
                 then segments[id].(language := Some(last.language), translated := t.spell(last.text)) else segments[id]
               case None => segments[id])
  {
    if translations != [] {
      TranslationsStayHome(t, meeting, segments, translations[..|translations| - 1], id);
      var last := translations[|translations| - 1];
      if last.segment != id {
        TranslationsStayHome(t, meeting, segments, translations[..|translations| - 1], last.segment);
      }
    }
  }

  /** Over any patches, segments of other meetings never change, and no segment's own text does. */
  lemma {:induction false} OtherSegmentsStay(t: Text, r: Record, patches: seq<Patch>, segments: map<string, Segment>,
                                             id: string)
    requires segments == PatchedAll(t, r, patches).segments && id in r.segments
    ensures PatchedAll(t, r, patches).meeting == r.meeting
    ensures id in segments && segments[id].meeting == r.segments[id].meeting && segments[id].text == r.segments[id].text
    ensures r.segments[id].meeting != r.meeting ==> segments[id] == r.segments[id]
  {
    if patches != [] {
      var front, last := patches[..|patches| - 1], patches[|patches| - 1];
      var before := PatchedAll(t, r, front).segments;
      OtherSegmentsStay(t, r, front, before, id);
      TranslationsStayHome(t, r.meeting, before, last.translations, id);
    }
  }
}
