/**
 Deciding when the engine runs, and stitching overlapping speech windows together
 (`backend/app/services/trigger.py`). Lower-casing maps characters one by one.
 */
module Trigger {
  import opened Prelude

  // ---- merge_overlap ----

  datatype Text = Text(lower: char -> char, space: char -> bool)

  const MIN_OVERLAP: nat := 4

  // The last n characters of `previous` are the first n of `current`, case aside.
  predicate Overlap(t: Text, previous: string, current: string, n: nat) {
    && n <= |previous| && n <= |current|
    && forall i | 0 <= i < n :: t.lower(previous[|previous| - n + i]) == t.lower(current[i])
  }

  ghost predicate LargestOverlap(t: Text, previous: string, current: string, n: nat) {
    && n >= MIN_OVERLAP && Overlap(t, previous, current, n)
    && forall m | m > n :: !Overlap(t, previous, current, m)
  }

  ghost predicate NoOverlap(t: Text, previous: string, current: string) {
    forall m | m >= MIN_OVERLAP :: !Overlap(t, previous, current, m)
  }

  // `current` without its first n characters and the white space that follows them.
  predicate Cut(t: Text, current: string, n: nat, merged: string) {
    n <= |current| && merged == StripLeft(t.space, current[n..])
  }

  /** Removes the largest overlap of at least four characters, and nothing when there is none. */
  method MergeOverlap(t: Text, previous: string, current: string) returns (merged: string)
    ensures NoOverlap(t, previous, current) ==> merged == current
    ensures forall n | LargestOverlap(t, previous, current, n) :: Cut(t, current, n, merged)
    ensures NoOverlap(t, previous, current) || exists n :: LargestOverlap(t, previous, current, n)
    ensures merged == current <==> NoOverlap(t, previous, current)
  {
    var length := Min(|previous|, |current|);
    while length >= MIN_OVERLAP
      invariant length <= Min(|previous|, |current|)
      invariant forall m | m > length && m >= MIN_OVERLAP :: !Overlap(t, previous, current, m)
    {
      if Overlap(t, previous, current, length) {
        assert LargestOverlap(t, previous, current, length);
        StripLeftIsSuffix(t, current[length..]);
        return StripLeft(t.space, current[length..]);
      }
      length := length - 1;
    }
    return current;
  }

  predicate IsSuffix(s: string, of: string) {
    |s| <= |of| && of[|of| - |s|..] == s
  }

  /** Stripping drops leading white space only. */
  lemma {:induction false} StripLeftIsSuffix(t: Text, s: string)
    ensures var r := StripLeft(t.space, s);
            && IsSuffix(r, s) && (forall i | 0 <= i < |s| - |r| :: t.space(s[i]))
            && (r != "" ==> !t.space(r[0]))
  {
    if s != "" && t.space(s[0]) {
      StripLeftIsSuffix(t, s[1..]);
    }
  }

  /** A window that repeats the end of the transcript contributes at most what follows the repetition. */
  lemma RepeatedTailIsDropped(t: Text, previous: string, tail: string, news: string, n: nat, merged: string)
    requires |tail| >= 4 && Overlap(t, previous, tail, |tail|)
    requires LargestOverlap(t, previous, tail + news, n) && Cut(t, tail + news, n, merged)
    ensures IsSuffix(merged, news)
  {
    assert Overlap(t, previous, tail + news, |tail|);
    assert n >= |tail|;
    var rest := (tail + news)[n..];
    assert rest == news[n - |tail|..];
    StripLeftIsSuffix(t, rest);
  }

  // ---- decide_trigger ----

  // Times and cooldowns count microseconds.
  datatype Context = Context(
    text: string,
    active: bool,
    automaticEnabled: bool,
    newCharacters: int,
    minimumCharacters: int,
    codexRunning: bool,
    lastCodexAt: Option<int>,
    codexCooldown: int,
    lastSuggestionAt: Option<int>,
    suggestionCooldown: int,
    confidence: real)

  datatype Reason =
    | ManualAsk | MeetingEnd | DirectMention | ExplicitQuestion | ContradictionSignal
    | DecisionKeyword | PeriodicAnalysis

  datatype Suppressor =
    | NotActive | AutomaticDisabled | CodexRunning | LowConfidence | CodexCooldown
    | SuggestionCooldown | InsufficientTranscript

  datatype Decision = Invoke(reason: Reason) | Suppress(suppressor: Suppressor)

  predicate WordAt(text: string, i: nat, word: string) {
    i + |word| <= |text| && text[i..i + |word|] == word
  }

  predicate Contains(text: string, word: string) {
    exists i :: 0 <= i <= |text| && WordAt(text, i, word)
  }

  predicate ContainsAny(text: string, words: seq<string>) {
    exists i :: 0 <= i < |words| && Contains(text, words[i])
  }

  function Lower(t: Text, s: string): string {
    seq(|s|, i requires 0 <= i < |s| => t.lower(s[i]))
  }

  const CONTRADICTIONS := ["矛盾", "但是", "可是", "然而", "卻", "but", "however"]
  const DECISIONS := ["決定", "結論", "同意", "風險", "問題"]

  predicate Cooling(last: Option<int>, now: int, cooldown: int) {
    last.Some? && now - last.value < cooldown
  }

  function DecideTrigger(t: Text, c: Context, now: int, manual: bool, meetingEnd: bool): Decision {
    if manual then Invoke(ManualAsk)
    else if meetingEnd then Invoke(MeetingEnd)
    else if !c.active then Suppress(NotActive)
    else if !c.automaticEnabled then Suppress(AutomaticDisabled)
    else if c.codexRunning then Suppress(CodexRunning)
    else if c.confidence < 0.45 then Suppress(LowConfidence)
    else if Cooling(c.lastCodexAt, now, c.codexCooldown) then Suppress(CodexCooldown)
    else if Cooling(c.lastSuggestionAt, now, c.suggestionCooldown) then Suppress(SuggestionCooldown)
    else
      var lowered := Lower(t, c.text);
      if Contains(lowered, "codex") || Contains(lowered, "助理") || Contains(" " + lowered + " ", " ai ")
      then Invoke(DirectMention)
      else if Contains(c.text, "?") || Contains(c.text, "？") then Invoke(ExplicitQuestion)
      else if ContainsAny(lowered, CONTRADICTIONS) then Invoke(ContradictionSignal)
      else if ContainsAny(c.text, DECISIONS) then Invoke(DecisionKeyword)
      else if c.newCharacters < c.minimumCharacters then Suppress(InsufficientTranscript)
      else Invoke(PeriodicAnalysis)
  }

  // Whether a decision could be taken, whatever the others say.
  predicate Applies(t: Text, c: Context, now: int, manual: bool, meetingEnd: bool, decision: Decision) {
    match decision
    case Invoke(reason) =>
      (match reason
       case ManualAsk => manual
       case MeetingEnd => meetingEnd
       case DirectMention => Addresses(Lower(t, c.text))
       case ExplicitQuestion => '?' in c.text || '？' in c.text
       case ContradictionSignal => exists word :: word in CONTRADICTIONS && Contains(Lower(t, c.text), word)
       case DecisionKeyword => exists word :: word in DECISIONS && Contains(c.text, word)
       case PeriodicAnalysis => c.newCharacters >= c.minimumCharacters)
    case Suppress(suppressor) =>
      (match suppressor
       case NotActive => !c.active
       case AutomaticDisabled => !c.automaticEnabled
       case CodexRunning => c.codexRunning
       case LowConfidence => c.confidence < 0.45
       case CodexCooldown => !Cooled(c.lastCodexAt, now, c.codexCooldown)
       case SuggestionCooldown => !Cooled(c.lastSuggestionAt, now, c.suggestionCooldown)
       case InsufficientTranscript => c.newCharacters < c.minimumCharacters)
  }

  predicate Cooled(last: Option<int>, now: int, cooldown: int) {
    last == None || last.value + cooldown <= now
  }

  predicate Addresses(lowered: string) {
    Contains(lowered, "codex") || Contains(lowered, "助理") || Contains(" " + lowered + " ", " ai ")
  }

  // The order in which the decisions are considered.
  function Rank(decision: Decision): nat {
    match decision
    case Invoke(reason) =>
      (match reason
       case ManualAsk => 0
       case MeetingEnd => 1
       case DirectMention => 8
       case ExplicitQuestion => 9
       case ContradictionSignal => 10
       case DecisionKeyword => 11
       case PeriodicAnalysis => 13)
    case Suppress(suppressor) =>
      (match suppressor
       case NotActive => 2
       case AutomaticDisabled => 3
       case CodexRunning => 4
       case LowConfidence => 5
       case CodexCooldown => 6
       case SuggestionCooldown => 7
       case InsufficientTranscript => 12)
  }

  lemma ContainsChar(text: string, c: char)
    ensures Contains(text, [c]) <==> c in text
  {
    if c in text {
      var i :| 0 <= i < |text| && text[i] == c;
      assert WordAt(text, i, [c]);
    }
    if Contains(text, [c]) {
      var i :| 0 <= i <= |text| && WordAt(text, i, [c]);
      assert text[i..i + 1][0] == text[i];
    }
  }

  lemma ContainsSome(text: string, words: seq<string>)
    ensures ContainsAny(text, words) <==> exists word :: word in words && Contains(text, word)
  {
    if word :| word in words && Contains(text, word) {
      var i :| 0 <= i < |words| && words[i] == word;
      assert Contains(text, words[i]);
    }
  }

  /** Of all decisions that apply, the one that comes first is taken. */
  lemma FirstDecides(t: Text, c: Context, now: int, manual: bool, meetingEnd: bool, other: Decision)
    ensures var decision := DecideTrigger(t, c, now, manual, meetingEnd);
            && Applies(t, c, now, manual, meetingEnd, decision)
            && (Applies(t, c, now, manual, meetingEnd, other) && other != decision ==> Rank(decision) < Rank(other))
  {
    ContainsChar(c.text, '?');
    ContainsChar(c.text, '？');
    ContainsSome(Lower(t, c.text), CONTRADICTIONS);
    ContainsSome(c.text, DECISIONS);
  }

  // Nothing keeps an automatic run from being queued.
  predicate MayInvoke(c: Context, now: int) {
    && c.active && c.automaticEnabled && !c.codexRunning && c.confidence >= 0.45
    && Cooled(c.lastCodexAt, now, c.codexCooldown) && Cooled(c.lastSuggestionAt, now, c.suggestionCooldown)
  }

  // The text itself calls for a run.
  predicate Calls(t: Text, text: string) {
    || Addresses(Lower(t, text)) || '?' in text || '？' in text
    || ContainsAny(Lower(t, text), CONTRADICTIONS) || ContainsAny(text, DECISIONS)
  }

  /** The engine runs exactly when asked to, or when nothing keeps it and the text or its length calls for it. */
  lemma InvokesExactly(t: Text, c: Context, now: int, manual: bool, meetingEnd: bool)
    ensures DecideTrigger(t, c, now, manual, meetingEnd).Invoke? <==>
            || manual || meetingEnd
            || (MayInvoke(c, now) && (Calls(t, c.text) || c.newCharacters >= c.minimumCharacters))
  {
    ContainsChar(c.text, '?');
    ContainsChar(c.text, '？');
  }

  function AccumulateNewCharacters(counted: int, added: int): int {
    counted + Max(0, added)
  }
}
