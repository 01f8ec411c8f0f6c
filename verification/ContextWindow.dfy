/**
 The transcript an engine request carries (`build_request` in `backend/app/services/engine.py`)
 and the evidence check on what comes back (`_execute` in the same file).
 */
module ContextWindow {
  import opened Prelude

  const BUDGET: nat := 12_000

  type SegmentId = string

  // `translated` is "" when there is no translation.
  datatype Segment = Segment(id: SegmentId, text: string, translated: string)

  datatype Mode = Original | Translated | Both

  datatype Item = Item(id: SegmentId, text: string, original: Option<string>)

  function ItemOf(mode: Mode, row: Segment): Item {
    Item(row.id, if mode.Translated? && row.translated != "" then row.translated else row.text,
         if mode.Both? then Some(row.text) else None)
  }

  function Items(mode: Mode, rows: seq<Segment>): (items: seq<Item>)
    ensures |items| == |rows| && forall i | 0 <= i < |rows| :: items[i] == ItemOf(mode, rows[i])
  {
    if rows == [] then [] else [ItemOf(mode, rows[0])] + Items(mode, rows[1..])
  }

  // What is sent for the newest n rows, oldest first.
  function Newest(mode: Mode, rows: seq<Segment>, n: nat): (items: seq<Item>)
    requires n <= |rows|
  {
    Items(mode, rows[|rows| - n..])
  }

  // Characters of source text, whatever text is sent.
  function Total(rows: seq<Segment>): nat {
    if rows == [] then 0 else |rows[0].text| + Total(rows[1..])
  }

  // Characters of the newest n rows.
  function NewestTotal(rows: seq<Segment>, n: nat): nat
    requires n <= |rows|
  {
    Total(rows[|rows| - n..])
  }

  // The last n rows fit the budget and no longer suffix does; or n = 1 and the newest alone is too long.
  ghost predicate IsWindow(rows: seq<Segment>, n: nat) {
    && n <= |rows| && (rows != [] ==> n > 0)
    && (NewestTotal(rows, n) <= BUDGET || n == 1)
    && forall m | n < m <= |rows| :: NewestTotal(rows, m) > BUDGET
  }

  lemma {:induction false} SuffixesGrow(rows: seq<Segment>, n: nat, m: nat)
    requires n <= m <= |rows|
    ensures NewestTotal(rows, n) <= NewestTotal(rows, m)
    decreases m
  {
    if n < m {
      SuffixesGrow(rows, n, m - 1);
      SuffixStep(rows, m);
    }
  }

  lemma SuffixStep(rows: seq<Segment>, m: nat)
    requires 0 < m <= |rows|
    ensures NewestTotal(rows, m) == |rows[|rows| - m].text| + NewestTotal(rows, m - 1)
    ensures forall mode :: Newest(mode, rows, m) == [ItemOf(mode, rows[|rows| - m])] + Newest(mode, rows, m - 1)
  {
    assert rows[|rows| - m..][1..] == rows[|rows| - (m - 1)..];
  }

  // A request built from `rows` carries their window.
  ghost predicate IsRequest(mode: Mode, rows: seq<Segment>, request: seq<Item>) {
    exists n :: IsWindow(rows, n) && request == Newest(mode, rows, n)
  }

  /** Walks back from the newest row; the result is the longest suffix within the budget, in order. */
  method BuildTranscript(mode: Mode, rows: seq<Segment>) returns (recent: seq<Item>)
    ensures IsRequest(mode, rows, recent)
  {
    recent := [];
    var characters, i := 0, |rows|;
    while i > 0
      invariant 0 <= i <= |rows|
      invariant recent == Newest(mode, rows, |rows| - i)
      invariant characters == NewestTotal(rows, |rows| - i)
      invariant characters <= BUDGET || |rows| - i <= 1
    {
      var row := rows[i - 1];
      SuffixStep(rows, |rows| - i + 1);
      if recent != [] && characters + |row.text| > BUDGET {
        WindowFound(rows, |rows| - i);
        return;
      }
      recent := [ItemOf(mode, row)] + recent;
      characters := characters + |row.text|;
      i := i - 1;
    }
    assert IsWindow(rows, |rows|);
  }

  lemma WindowFound(rows: seq<Segment>, n: nat)
    requires 0 < n < |rows| && (NewestTotal(rows, n) <= BUDGET || n == 1)
    requires NewestTotal(rows, n + 1) > BUDGET
    ensures IsWindow(rows, n)
  {
    forall m | n < m <= |rows| ensures NewestTotal(rows, m) > BUDGET {
      SuffixesGrow(rows, n + 1, m);
    }
  }

  /**
   The newest row is always sent, and every row sent names itself and shows its text as the mode has it: the
   translation only where there is one, and the original beside it only when both are wanted.
   */
  lemma SentAsIs(mode: Mode, rows: seq<Segment>, n: nat, i: nat)
    requires IsWindow(rows, n) && i < n
    ensures var request, row := Newest(mode, rows, n), rows[|rows| - n + i];
            && |request| == n && request[i].id == row.id
            && (request[i].text == row.text || (mode.Translated? && request[i].text == row.translated))
            && (mode.Translated? && row.translated != "" ==> request[i].text == row.translated)
            && (request[i].text == "" ==> row.text == "")
            && (request[i].original == if mode.Both? then Some(row.text) else None)
    ensures rows != [] ==> n > 0 && Newest(mode, rows, n)[n - 1].id == rows[|rows| - 1].id
  {
    assert rows[|rows| - n..][i] == rows[|rows| - n + i];
    assert Newest(mode, rows, n)[n - 1] == ItemOf(mode, rows[|rows| - n..][n - 1]);
  }

  /** The window is unique: its description leaves no choice of suffix. */
  lemma WindowIsUnique(rows: seq<Segment>, n: nat, m: nat)
    requires IsWindow(rows, n) && IsWindow(rows, m)
    ensures n == m
  {
  }

  // ---- what the engine may cite ----

  datatype Signals = Signals(
    question: bool,
    stuck: bool,
    missingRisk: bool,
    contradiction: bool,
    decisionPoint: bool)

  datatype Answer = Answer(
    shouldSuggest: bool,
    suggestion: string,
    confidence: real,
    signals: Signals,
    evidence: seq<SegmentId>,
    translated: seq<SegmentId>)

  datatype Outcome = Rejected | Stored(content: string, evidence: seq<SegmentId>) | NothingStored

  function Weight(signal: bool, weight: real): real {
    if signal then weight else 0.0
  }

  function Score(s: Signals): real {
    Weight(s.question, 0.25) + Weight(s.stuck, 0.20) + Weight(s.missingRisk, 0.20)
    + Weight(s.contradiction, 0.15) + Weight(s.decisionPoint, 0.20)
  }

  function Missing(signal: bool): nat {
    if signal then 0 else 1
  }

  /** A score above 0.75 takes the question signal and all but at most one of the others. */
  lemma ScoreGate(s: Signals)
    ensures Score(s) > 0.75 <==>
            s.question &&
            Missing(s.stuck) + Missing(s.missingRisk) + Missing(s.contradiction) + Missing(s.decisionPoint) <= 1
  {
    match s
    case Signals(q, a, b, c, d) =>
      assert Weight(q, 0.25) == (if q then 0.25 else 0.0) && Weight(c, 0.15) == (if c then 0.15 else 0.0);
      assert Weight(a, 0.20) == (if a then 0.20 else 0.0) && Weight(b, 0.20) == (if b then 0.20 else 0.0);
      assert Weight(d, 0.20) == (if d then 0.20 else 0.0);
  }

  // Some row of `rows` has this identifier.
  predicate Cited(rows: seq<Segment>, id: SegmentId) {
    exists j :: 0 <= j < |rows| && rows[j].id == id
  }

  // The identifiers the request sent.
  function RequestIds(request: seq<Item>): set<SegmentId> {
    set i | 0 <= i < |request| :: request[i].id
  }

  predicate CitesOnly(request: seq<Item>, ids: seq<SegmentId>) {
    forall i | 0 <= i < |ids| :: ids[i] in RequestIds(request)
  }

  // `repeated` says whether a recent suggestion is similar.
  function Judge(request: seq<Item>, answer: Answer, repeated: bool): Outcome {
    if !CitesOnly(request, answer.evidence) || !CitesOnly(request, answer.translated) then Rejected
    else if answer.shouldSuggest && answer.suggestion != "" && Score(answer.signals) > 0.75 &&
            answer.confidence >= 0.65 && !repeated
    then Stored(answer.suggestion, answer.evidence)
    else NothingStored
  }

  lemma RequestIdsAreRows(mode: Mode, rows: seq<Segment>, id: SegmentId)
    ensures id in RequestIds(Items(mode, rows)) <==> Cited(rows, id)
  {
    var items := Items(mode, rows);
    if Cited(rows, id) {
      var j :| 0 <= j < |rows| && rows[j].id == id;
      assert items[j].id == id;
    }
  }

  predicate AllCited(rows: seq<Segment>, ids: seq<SegmentId>) {
    forall i | 0 <= i < |ids| :: Cited(rows, ids[i])
  }

  // What makes a suggestion worth storing.
  predicate Worth(answer: Answer, repeated: bool) {
    var s := answer.signals;
    && answer.shouldSuggest && answer.suggestion != "" && answer.confidence >= 0.65 && !repeated
    && s.question
    && Missing(s.stuck) + Missing(s.missingRisk) + Missing(s.contradiction) + Missing(s.decisionPoint) <= 1
  }

  lemma JudgedByRows(mode: Mode, rows: seq<Segment>, answer: Answer, repeated: bool)
    ensures var cited := AllCited(rows, answer.evidence) && AllCited(rows, answer.translated);
            Judge(Items(mode, rows), answer, repeated) ==
            if !cited then Rejected
            else if Worth(answer, repeated) then Stored(answer.suggestion, answer.evidence) else NothingStored
  {
    ScoreGate(answer.signals);
    forall id ensures id in RequestIds(Items(mode, rows)) <==> Cited(rows, id) {
      RequestIdsAreRows(mode, rows, id);
    }
  }

  /**
   Whatever request is built from the rows of a meeting, an answer to it is rejected exactly when it
   names a row outside their window. Otherwise its suggestion is stored, with its evidence, exactly when it
   is a new one of enough confidence that raises the question signal and all others but one.
   */
  lemma EvidenceIsInWindow(mode: Mode, rows: seq<Segment>, n: nat, request: seq<Item>, answer: Answer, repeated: bool)
    requires IsWindow(rows, n) && IsRequest(mode, rows, request)
    ensures var outcome, window := Judge(request, answer, repeated), rows[|rows| - n..];
            && (outcome.Rejected? <==> !(AllCited(window, answer.evidence) && AllCited(window, answer.translated)))
            && (outcome.Stored? <==> !outcome.Rejected? && Worth(answer, repeated))
            && (outcome.Stored? ==>
                  && outcome.content == answer.suggestion && outcome.evidence == answer.evidence
                  && AllCited(window, outcome.evidence))
  {
    var m :| IsWindow(rows, m) && request == Newest(mode, rows, m);
    WindowIsUnique(rows, n, m);
    JudgedByRows(mode, rows[|rows| - n..], answer, repeated);
  }
}
