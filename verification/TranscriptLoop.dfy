/**
 What the audio gateway does with one recognised window (`backend/app/api/meetings.py`):
 append the cleaned results to the transcript, count their characters, and queue an
 automatic engine run when the trigger allows it. The loop is the only writer of the
 state blob, and the clock it reads never goes back.
 */
module TranscriptLoop {
  import opened Prelude
  import Trigger

  datatype Segment = Segment(sequence: nat, text: string)

  // A queued automatic run: when it was stamped and the cooldown then in force.
  datatype Queued = Queued(at: int, cooldown: int)

  datatype Loop = Loop(
    segments: seq<Segment>,
    characters: nat,
    lastCodexAt: Option<int>,
    queue: seq<Queued>,
    // How many segments there were when the counter was last reset, the value it then had to
    // carry, and the characters flushes have appended since.
    counted: nat,
    carried: nat,
    missed: nat)

  // The settings, the two clock readings and the other tables a window sees.
  datatype Window = Window(
    heard: Option<seq<string>>,
    active: bool,
    automaticEnabled: bool,
    minimumCharacters: int,
    codexCooldown: int,
    suggestionCooldown: int,
    lastSuggestionAt: Option<int>,
    activeRun: bool,
    decidedAt: int,
    stampedAt: int)

  // Besides windows, a disconnect flushes the results of its last audio; None when that fails.
  datatype Event = Heard(window: Window) | Flushed(results: Option<seq<string>>)

  // Overlap removal and glossary, given the text before and a recognised one.
  type Cleaner = (string, string) -> string

  function HighestSequence(segments: seq<Segment>): nat {
    if segments == [] then 0
    else Max(HighestSequence(segments[..|segments| - 1]), segments[|segments| - 1].sequence)
  }

  // The transcript while one window's results are appended.
  datatype Tail = Tail(segments: seq<Segment>, added: nat, next: nat, previous: string)

  // One recognised text; an empty remainder is skipped.
  function AddOne(clean: Cleaner, tail: Tail, result: string): Tail {
    var text := clean(tail.previous, result);
    if text == "" then tail
    else Tail(tail.segments + [Segment(tail.next, text)], tail.added + |text|, tail.next + 1, tail.previous + text)
  }

  function AddAll(clean: Cleaner, tail: Tail, results: seq<string>): Tail {
    if results == [] then tail
    else AddOne(clean, AddAll(clean, tail, results[..|results| - 1]), results[|results| - 1])
  }

  function Length(segments: seq<Segment>): nat {
    if segments == [] then 0 else Length(segments[..|segments| - 1]) + |segments[|segments| - 1].text|
  }

  function Join(results: seq<string>): string {
    if results == [] then "" else if |results| == 1 then results[0] else results[0] + " " + Join(results[1..])
  }

  function ContextOf(l: Loop, w: Window, characters: nat, results: seq<string>): Trigger.Context {
    Trigger.Context(Join(results), w.active, w.automaticEnabled, characters, w.minimumCharacters, false,
                    l.lastCodexAt, w.codexCooldown, w.lastSuggestionAt, w.suggestionCooldown, 1.0)
  }

  function Previous(segments: seq<Segment>): string {
    if segments == [] then "" else segments[|segments| - 1].text
  }

  function TailOf(segments: seq<Segment>): Tail {
    Tail(segments, 0, HighestSequence(segments) + 1, Previous(segments))
  }

  function Append(clean: Cleaner, l: Loop, results: seq<string>): Loop {
    var tail := AddAll(clean, TailOf(l.segments), results);
    l.(segments := tail.segments, characters := l.characters + tail.added)
  }

  function Queue(l: Loop, at: int, cooldown: int): Loop {
    l.(characters := 0, lastCodexAt := Some(at), queue := l.queue + [Queued(at, cooldown)],
    counted := |l.segments|, carried := 0, missed := 0)
  }

  predicate Invokes(t: Trigger.Text, l: Loop, w: Window)
    requires w.heard.Some?
  {
    Trigger.DecideTrigger(t, ContextOf(l, w, l.characters, w.heard.value), w.decidedAt, false, false).Invoke? &&
    !w.activeRun
  }

  function Hear(clean: Cleaner, t: Trigger.Text, l: Loop, w: Window): Loop {
    if w.heard.None? then l
    else
      var longer := Append(clean, l, w.heard.value);
      if Invokes(t, longer, w) then Queue(longer, w.stampedAt, w.codexCooldown) else longer
  }

  // The flush appends segments, too, but neither counts their characters nor queues a run.
  function Flush(clean: Cleaner, l: Loop, results: seq<string>): Loop {
    var tail := AddAll(clean, TailOf(l.segments), results);
    l.(segments := tail.segments, missed := l.missed + tail.added)
  }

  function Step(clean: Cleaner, t: Trigger.Text, l: Loop, event: Event): Loop {
    match event
    case Heard(window) => Hear(clean, t, l, window)
    case Flushed(results) => if results.Some? then Flush(clean, l, results.value) else l
  }

  function Play(clean: Cleaner, t: Trigger.Text, l: Loop, events: seq<Event>): Loop {
    if events == [] then l
    else Step(clean, t, Play(clean, t, l, events[..|events| - 1]), events[|events| - 1])
  }

  /** The gateway's per-meeting state while a window is processed. */
  class Gateway {
    var segments: seq<Segment>
    var characters: nat
    var lastCodexAt: Option<int>
    ghost var queue: seq<Queued>
    ghost var counted: nat
    ghost var carried: nat
    ghost var missed: nat

    ghost function View(): Loop
      reads this
    {
      Loop(segments, characters, lastCodexAt, queue, counted, carried, missed)
    }

    // The loop over the recognised results.
    method AppendResults(clean: Cleaner, results: seq<string>) returns (added: nat)
      modifies this`segments
      ensures var tail := AddAll(clean, TailOf(old(segments)), results);
              segments == tail.segments && added == tail.added
    {
      var previous := Previous(segments);
      var next: nat := HighestSequence(segments) + 1;
      added := 0;
      for i := 0 to |results|
        invariant Tail(segments, added, next, previous) == AddAll(clean, TailOf(old(segments)), results[..i])
      {
        assert results[..i + 1][..i] == results[..i];
        var text := clean(previous, results[i]);
        if text != "" {
          segments := segments + [Segment(next, text)];
          added := added + |text|;
          next := next + 1;
          previous := previous + text;
        }
      }
      assert results[..|results|] == results;
    }

    method HearWindow(clean: Cleaner, t: Trigger.Text, w: Window) returns (queued: bool)
      modifies this
      ensures View() == Hear(clean, t, old(View()), w)
      ensures queued <==> |queue| == |old(queue)| + 1
    {
      if w.heard.None? {
        return false;
      }
      var added := AppendResults(clean, w.heard.value);
      characters := Trigger.AccumulateNewCharacters(characters, added);
      var context := Trigger.Context(Join(w.heard.value), w.active, w.automaticEnabled, characters,
                                     w.minimumCharacters, false, lastCodexAt, w.codexCooldown,
                                     w.lastSuggestionAt, w.suggestionCooldown, 1.0);
      var decision := Trigger.DecideTrigger(t, context, w.decidedAt, false, false);
      queued := decision.Invoke? && !w.activeRun;
      if queued {
        characters := 0;
        lastCodexAt := Some(w.stampedAt);
        queue := queue + [Queued(w.stampedAt, w.codexCooldown)];
        counted, carried, missed := |segments|, 0, 0;
      }
    }

    method FlushTail(clean: Cleaner, results: seq<string>)
      modifies this
      ensures View() == Flush(clean, old(View()), results)
    {
      var added := AppendResults(clean, results);
      missed := missed + added;
    }
  }

  // ---- over any sequence of windows and flushes ----

  predicate Consecutive(segments: seq<Segment>) {
    forall i | 0 <= i < |segments| :: segments[i].sequence == i + 1
  }

  ghost predicate CounterInv(l: Loop) {
    && Consecutive(l.segments) && l.counted <= |l.segments|
    && l.characters + l.missed == l.carried + Length(l.segments[l.counted..])
  }

  lemma {:induction false} HighestOfConsecutive(segments: seq<Segment>)
    requires Consecutive(segments)
    ensures HighestSequence(segments) == |segments|
  {
    if segments != [] {
      HighestOfConsecutive(segments[..|segments| - 1]);
    }
  }

  lemma {:induction false} LengthAdds(a: seq<Segment>, b: seq<Segment>)
    ensures Length(a + b) == Length(a) + Length(b)
  {
    if b == [] {
      assert a + b == a;
    } else {
      assert (a + b)[..|a + b| - 1] == a + b[..|b| - 1];
      LengthAdds(a, b[..|b| - 1]);
    }
  }

  lemma {:induction false} AddAllCounts(clean: Cleaner, tail: Tail, results: seq<string>)
    requires Consecutive(tail.segments) && tail.next == |tail.segments| + 1
    ensures var after := AddAll(clean, tail, results);
            && Consecutive(after.segments) && after.next == |after.segments| + 1
            && tail.segments <= after.segments
            && after.added == tail.added + Length(after.segments[|tail.segments|..])
  {
    if results == [] {
      assert tail.segments[|tail.segments|..] == [];
    } else {
      var before := AddAll(clean, tail, results[..|results| - 1]);
      AddAllCounts(clean, tail, results[..|results| - 1]);
      AddOneCounts(clean, before, results[|results| - 1], |tail.segments|);
    }
  }

  lemma AddOneCounts(clean: Cleaner, tail: Tail, result: string, from: nat)
    requires from <= |tail.segments|
    ensures var after := AddOne(clean, tail, result);
            && tail.segments <= after.segments
            && after.added - tail.added == Length(after.segments[from..]) - Length(tail.segments[from..])
  {
    var text := clean(tail.previous, result);
    if text != "" {
      var longer := AddOne(clean, tail, result).segments[from..];
      assert longer == tail.segments[from..] + [Segment(tail.next, text)];
      assert longer[..|longer| - 1] == tail.segments[from..];
    }
  }

  lemma AppendedLength(clean: Cleaner, l: Loop, results: seq<string>)
    requires CounterInv(l)
    ensures var tail := AddAll(clean, TailOf(l.segments), results);
            && Consecutive(tail.segments) && l.segments <= tail.segments
            && Length(tail.segments[l.counted..]) == Length(l.segments[l.counted..]) + tail.added
  {
    HighestOfConsecutive(l.segments);
    AddAllCounts(clean, TailOf(l.segments), results);
    var after := AddAll(clean, TailOf(l.segments), results).segments;
    assert after[l.counted..] == l.segments[l.counted..] + after[|l.segments|..];
    LengthAdds(l.segments[l.counted..], after[|l.segments|..]);
  }

  lemma AppendKeepsCounter(clean: Cleaner, l: Loop, results: seq<string>)
    requires CounterInv(l)
    ensures CounterInv(Append(clean, l, results)) && l.segments <= Append(clean, l, results).segments
    ensures CounterInv(Flush(clean, l, results)) && l.segments <= Flush(clean, l, results).segments
  {
    AppendedLength(clean, l, results);
  }

  lemma HearKeepsCounter(clean: Cleaner, t: Trigger.Text, l: Loop, w: Window)
    requires CounterInv(l)
    ensures CounterInv(Hear(clean, t, l, w)) && l.segments <= Hear(clean, t, l, w).segments
  {
    if w.heard.Some? {
      AppendKeepsCounter(clean, l, w.heard.value);
      var longer := Append(clean, l, w.heard.value);
      assert longer.segments[|longer.segments|..] == [];
    }
  }

  lemma StepKeepsCounter(clean: Cleaner, t: Trigger.Text, l: Loop, event: Event)
    requires CounterInv(l)
    ensures CounterInv(Step(clean, t, l, event)) && l.segments <= Step(clean, t, l, event).segments
  {
    match event
    case Heard(window) => HearKeepsCounter(clean, t, l, window);
    case Flushed(results) => if results.Some? { AppendKeepsCounter(clean, l, results.value); }
  }

  // Some flush appended text after the last window that queued a run.
  predicate FlushedSince(clean: Cleaner, t: Trigger.Text, l: Loop, events: seq<Event>) {
    events != [] &&
    var front := events[..|events| - 1];
    var before := Play(clean, t, l, front);
    match events[|events| - 1]
    case Heard(w) => !Queues(clean, t, before, w) && FlushedSince(clean, t, l, front)
    case Flushed(results) =>
      FlushedSince(clean, t, l, front) ||
      (results.Some? && AddAll(clean, TailOf(before.segments), results.value).added > 0)
  }

  predicate Queues(clean: Cleaner, t: Trigger.Text, l: Loop, w: Window) {
    w.heard.Some? && Invokes(t, Append(clean, l, w.heard.value), w)
  }

  lemma {:induction false} MissedExactly(clean: Cleaner, t: Trigger.Text, l: Loop, events: seq<Event>, missed: nat)
    requires l.missed == 0 && missed == Play(clean, t, l, events).missed
    ensures missed > 0 <==> FlushedSince(clean, t, l, events)
  {
    if events != [] {
      var front := events[..|events| - 1];
      MissedExactly(clean, t, l, front, Play(clean, t, l, front).missed);
    }
  }

  lemma {:induction false} CounterKept(clean: Cleaner, t: Trigger.Text, l: Loop, events: seq<Event>, after: Loop)
    requires CounterInv(l) && after == Play(clean, t, l, events)
    ensures CounterInv(after) && l.segments <= after.segments
  {
    if events != [] {
      var before := Play(clean, t, l, events[..|events| - 1]);
      CounterKept(clean, t, l, events[..|events| - 1], before);
      StepKeepsCounter(clean, t, before, events[|events| - 1]);
    }
  }

  /**
   Segments are numbered 1, 2, 3, ... and the persisted counter falls short of the text appended
   since the last automatic run was queued (or since the start, on top of the initial value) by what
   disconnect flushes appended in that time: it is that length iff no flush appended anything since.
   */
  lemma CounterIsTextLength(clean: Cleaner, t: Trigger.Text, l: Loop, events: seq<Event>, after: Loop)
    requires CounterInv(l) && l.missed == 0 && after == Play(clean, t, l, events)
    ensures CounterInv(after) && l.segments <= after.segments
    ensures after.characters == after.carried + Length(after.segments[after.counted..])
            <==> !FlushedSince(clean, t, l, events)
  {
    CounterKept(clean, t, l, events, after);
    MissedExactly(clean, t, l, events, after.missed);
  }

  /** So it happens: whatever a flush appends to an empty transcript is not counted. */
  lemma UncountedWitness(clean: Cleaner, t: Trigger.Text, text: string)
    requires clean("", text) != ""
    ensures var empty := Loop([], 0, None, [], 0, 0, 0);
            var after := Play(clean, t, empty, [Flushed(Some([text]))]);
            after.segments == [Segment(1, clean("", text))] && after.characters == 0
  {
    var empty := Loop([], 0, None, [], 0, 0, 0);
    var flush := Flushed(Some([text]));
    assert [flush][..0] == [] && [text][..0] == [];
    assert AddAll(clean, TailOf([]), []) == TailOf([]);
    assert AddAll(clean, TailOf([]), [text]) == AddOne(clean, TailOf([]), text);
    assert Play(clean, t, empty, []) == empty;
  }

  // ---- what one window does ----

  // The cleaned texts of the results, each cleaned against everything before it; empty ones are dropped.
  function Cleaned(clean: Cleaner, previous: string, results: seq<string>): seq<string>
    decreases |results|
  {
    if results == [] then []
    else
      var text := clean(previous, results[0]);
      (if text == "" then [] else [text]) + Cleaned(clean, previous + text, results[1..])
  }

  function Texts(segments: seq<Segment>): seq<string> {
    if segments == [] then [] else Texts(segments[..|segments| - 1]) + [segments[|segments| - 1].text]
  }

  // What the results after the first n are cleaned against.
  function Context(clean: Cleaner, previous: string, results: seq<string>): string
    decreases |results|
  {
    if results == [] then previous
    else Context(clean, previous + clean(previous, results[0]), results[1..])
  }

  lemma {:induction false} CleanedAppend(clean: Cleaner, previous: string, results: seq<string>, last: string)
    ensures var context := Context(clean, previous, results);
            var text := clean(context, last);
            && Cleaned(clean, previous, results + [last]) ==
               Cleaned(clean, previous, results) + (if text == "" then [] else [text])
            && Context(clean, previous, results + [last]) == context + text
    decreases |results|
  {
    if results == [] {
      assert results + [last] == [last] && [last][1..] == [];
    } else {
      assert (results + [last])[1..] == results[1..] + [last];
      CleanedAppend(clean, previous + clean(previous, results[0]), results[1..], last);
    }
  }

  lemma TextsAppend(segments: seq<Segment>, segment: Segment)
    ensures Texts(segments + [segment]) == Texts(segments) + [segment.text]
  {
    assert (segments + [segment])[..|segments|] == segments;
  }

  /** A window's results are appended cleaned, each against what precedes it, in order; empty ones are dropped. */
  lemma {:induction false} AppendsCleaned(clean: Cleaner, tail: Tail, results: seq<string>)
    ensures Texts(AddAll(clean, tail, results).segments) ==
            Texts(tail.segments) + Cleaned(clean, tail.previous, results)
    ensures AddAll(clean, tail, results).previous == Context(clean, tail.previous, results)
  {
    if results != [] {
      var front, last := results[..|results| - 1], results[|results| - 1];
      AppendsCleaned(clean, tail, front);
      CleanedAppend(clean, tail.previous, front, last);
      assert results == front + [last];
      var before := AddAll(clean, tail, front);
      var text := clean(before.previous, last);
      if text != "" {
        TextsAppend(before.segments, Segment(before.next, text));
      } else {
        assert Cleaned(clean, tail.previous, front) + [] == Cleaned(clean, tail.previous, front);
      }
    }
  }

  lemma Behind(front: string, back: string, at: nat, n: nat)
    requires at + n <= |back|
    ensures (front + back)[|front| + at..|front| + at + n] == back[at..at + n]
  {
  }

  /** The trigger reads every recognised text of the window. */
  lemma {:induction false} JoinHoldsAll(results: seq<string>, k: nat) returns (at: nat)
    requires k < |results|
    ensures Trigger.WordAt(Join(results), at, results[k])
    decreases |results|
  {
    at := 0;
    if k == 0 {
      assert Join(results)[..|results[0]|] == results[0];
    } else {
      var rest := JoinHoldsAll(results[1..], k - 1);
      at := |results[0]| + 1 + rest;
      Behind(results[0] + " ", Join(results[1..]), rest, |results[k]|);
    }
  }

  // The trigger lets a window queue a run once its text has been appended.
  predicate Ready(t: Trigger.Text, l: Loop, w: Window, heard: seq<string>, characters: nat) {
    && w.active && w.automaticEnabled && !w.activeRun
    && Trigger.Cooled(l.lastCodexAt, w.decidedAt, w.codexCooldown)
    && Trigger.Cooled(w.lastSuggestionAt, w.decidedAt, w.suggestionCooldown)
    && (Trigger.Calls(t, Join(heard)) || characters >= w.minimumCharacters)
  }

  /**
   A recognised window appends its cleaned texts, and queues exactly one automatic run exactly when
   nothing keeps it and its text, or the characters counted with it, call for one; the count then starts over.
   */
  lemma WindowQueuesExactly(clean: Cleaner, t: Trigger.Text, l: Loop, w: Window, heard: seq<string>)
    requires CounterInv(l) && w.heard == Some(heard)
    ensures l.segments <= Hear(clean, t, l, w).segments
    ensures var after := Hear(clean, t, l, w);
            var counted := l.characters + Length(after.segments[|l.segments|..]);
            && Texts(after.segments) == Texts(l.segments) + Cleaned(clean, Previous(l.segments), heard)
            && (if Ready(t, l, w, heard, counted)
                then after.queue == l.queue + [Queued(w.stampedAt, w.codexCooldown)] &&
                     after.lastCodexAt == Some(w.stampedAt) && after.characters == 0
                else after.queue == l.queue && after.lastCodexAt == l.lastCodexAt && after.characters == counted)
  {
    AppendsCleaned(clean, TailOf(l.segments), heard);
    HighestOfConsecutive(l.segments);
    AddAllCounts(clean, TailOf(l.segments), heard);
    var longer := Append(clean, l, heard);
    var context := ContextOf(longer, w, longer.characters, heard);
    Trigger.InvokesExactly(t, context, w.decidedAt, false, false);
  }

  // The clock that stamps runs never goes back; nothing is stamped later than `bound`.
  predicate Clocked(events: seq<Event>, bound: int) {
    && (forall i | 0 <= i < |events| && events[i].Heard? ::
          events[i].window.decidedAt <= events[i].window.stampedAt <= bound)
    && (forall i, j | 0 <= i < j < |events| && events[i].Heard? && events[j].Heard? ::
          events[i].window.stampedAt <= events[j].window.decidedAt)
  }

  // The last stamp is the one in the state blob, no stamp is later than `bound`, and any two keep their distance.
  ghost predicate Spaced(l: Loop, bound: int) {
    && (l.queue != [] ==> l.lastCodexAt == Some(l.queue[|l.queue| - 1].at))
    && (forall i | 0 <= i < |l.queue| :: l.queue[i].at <= bound)
    && (forall i, j | 0 <= i < j < |l.queue| ::
          l.queue[i].at <= l.queue[j].at && l.queue[j].at - l.queue[i].at >= l.queue[j].cooldown)
  }

  lemma HearKeepsSpacing(clean: Cleaner, t: Trigger.Text, l: Loop, w: Window, bound: int)
    requires Spaced(l, w.decidedAt) && w.decidedAt <= w.stampedAt <= bound
    ensures Spaced(Hear(clean, t, l, w), bound)
  {
    if w.heard.Some? && Invokes(t, Append(clean, l, w.heard.value), w) && l.queue != [] {
      assert w.decidedAt - l.queue[|l.queue| - 1].at >= w.codexCooldown;
    }
  }

  /** Any two automatic runs are stamped at least the cooldown in force for the later one apart. */
  lemma {:induction false} RunsKeepTheirDistance(clean: Cleaner, t: Trigger.Text, l: Loop, events: seq<Event>,
                                                 bound: int)
    requires l.queue == [] && Clocked(events, bound)
    ensures Spaced(Play(clean, t, l, events), bound)
  {
    if events != [] {
      var front, last := events[..|events| - 1], events[|events| - 1];
      if last.Heard? {
        assert Clocked(front, last.window.decidedAt);
        RunsKeepTheirDistance(clean, t, l, front, last.window.decidedAt);
        HearKeepsSpacing(clean, t, Play(clean, t, l, front), last.window, bound);
      } else {
        assert Clocked(front, bound);
        RunsKeepTheirDistance(clean, t, l, front, bound);
      }
    }
  }
}
