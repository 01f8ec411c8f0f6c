/**
 The cross-source search and its excerpts (`search_knowledge` and `_excerpt` in
 `backend/app/api/knowledge.py`). Each source answers its own limited query; the
 answers are gathered, sorted by creation time and cut to the limit again.
 */
module KnowledgeSearch {
  import opened Prelude

  // The columns the filters look at; None where a table has no such column.
  datatype Row = Row(
    id: string,
    created: int,
    updated: int,
    title: string,
    content: string,
    project: Option<string>,
    meeting: Option<string>,
    status: Option<string>,
    language: Option<string>)

  datatype Kind = Document | Meeting | Transcript | Decision | Action | Risk | Question | Memory

  // In the order the sources are queried.
  const KINDS := [Document, Meeting, Transcript, Decision, Action, Risk, Question, Memory]

  function Name(kind: Kind): string {
    match kind
    case Document => "document"
    case Meeting => "meeting"
    case Transcript => "transcript"
    case Decision => "decision"
    case Action => "action"
    case Risk => "risk"
    case Question => "question"
    case Memory => "project_memory"
  }

  // How rows are ordered: `Adverse` prefers, among rows equal in `base`, those older than a time.
  datatype Order = ByCreation | ByUpdate | Unordered | Adverse(base: Order, time: int)

  // Documents are ordered by their last update, transcripts not at all, everything else by creation.
  function OrderOf(kind: Kind): Order {
    if kind.Document? then ByUpdate else if kind.Transcript? then Unordered else ByCreation
  }

  function Key(order: Order, row: Row): int {
    match order
    case ByCreation => row.created
    case ByUpdate => row.updated
    case Unordered => 0
    case Adverse(base, time) => 2 * Key(base, row) + (if row.created < time then 1 else 0)
  }

  // The request's parameters; empty ones are "" and None.
  datatype Filter = Filter(
    text: string,
    project: Option<string>,
    meeting: Option<string>,
    sourceType: Option<string>,
    status: Option<string>,
    language: Option<string>)

  predicate Wanted(filter: Filter, kind: Kind) {
    filter.sourceType.Some? ==> filter.sourceType == Some(Name(kind))
  }

  predicate Passes(wish: Option<string>, applies: bool, column: Option<string>) {
    wish.Some? && applies ==> column == wish
  }

  // The WHERE clause; `like` is the database's case-insensitive pattern match.
  predicate Selects(like: (string, string) -> bool, filter: Filter, kind: Kind, row: Row) {
    && (filter.text == "" || like(filter.text, row.title) || like(filter.text, row.content))
    && Passes(filter.project, true, row.project)
    && Passes(filter.meeting, !kind.Document? && !kind.Memory?, row.meeting)
    && Passes(filter.status, !kind.Document? && !kind.Transcript?, row.status)
    && Passes(filter.language, kind.Document? || kind.Transcript?, row.language)
  }

  function Matching(like: (string, string) -> bool, filter: Filter, kind: Kind, table: seq<Row>): seq<Row> {
    if table == [] then []
    else
      Matching(like, filter, kind, Front(table)) +
      (if Selects(like, filter, kind, Last(table)) then [Last(table)] else [])
  }

  // One limited query: its order and the rows it selects.
  datatype Query = Query(order: Order, matches: seq<Row>)

  function QueryOf(like: (string, string) -> bool, filter: Filter, tables: Kind -> seq<Row>, kind: Kind): Query {
    Query(OrderOf(kind), if Wanted(filter, kind) then Matching(like, filter, kind, tables(kind)) else [])
  }

  function Queries(like: (string, string) -> bool, filter: Filter, tables: Kind -> seq<Row>, kinds: seq<Kind>)
    : seq<Query>
  {
    if kinds == [] then []
    else Queries(like, filter, tables, Front(kinds)) + [QueryOf(like, filter, tables, Last(kinds))]
  }

  // What a tally counts.
  datatype Test = Same(row: Row) | AtLeast(order: Order, key: int) | Both(one: Test, other: Test) | Not(test: Test)

  predicate Meets(test: Test, row: Row) {
    match test
    case Same(other) => row == other
    case AtLeast(order, key) => Key(order, row) >= key
    case Both(one, other) => Meets(one, row) && Meets(other, row)
    case Not(inner) => !Meets(inner, row)
  }

  function NotOlder(time: int): Test {
    AtLeast(ByCreation, time)
  }

  function Tally(rows: seq<Row>, test: Test): nat {
    if rows == [] then 0 else Tally(Front(rows), test) + (if Meets(test, Last(rows)) then 1 else 0)
  }

  function Front<T>(rows: seq<T>): seq<T>
    requires rows != []
  {
    rows[..|rows| - 1]
  }

  function Last<T>(rows: seq<T>): T
    requires rows != []
  {
    rows[|rows| - 1]
  }

  // A query returned no more copies of this row than there are.
  predicate Covered(matches: seq<Row>, fetched: seq<Row>, row: Row) {
    Tally(fetched, Same(row)) <= Tally(matches, Same(row))
  }

  // A query left out a copy of this row.
  predicate Dropped(matches: seq<Row>, fetched: seq<Row>, row: Row) {
    Tally(fetched, Same(row)) < Tally(matches, Same(row))
  }

  // What the database may answer to a limited query: it may break ties in any way.
  ghost predicate Answers(q: Query, fetched: seq<Row>, limit: nat) {
    && (forall row :: Covered(q.matches, fetched, row))
    && |fetched| == Min(limit, |q.matches|)
    && Falling(q.order, fetched)
    && forall row, i | Dropped(q.matches, fetched, row) && 0 <= i < |fetched| ::
         Key(q.order, fetched[i]) >= Key(q.order, row)
  }

  ghost predicate AllAnswer(queries: seq<Query>, answers: seq<seq<Row>>, limit: nat) {
    |answers| == |queries| && forall k | 0 <= k < |queries| :: Answers(queries[k], answers[k], limit)
  }

  // ---- gathering and sorting ----

  function Gather(answers: seq<seq<Row>>): seq<Row> {
    if answers == [] then [] else Gather(Front(answers)) + Last(answers)
  }

  function AllMatches(queries: seq<Query>): seq<Row> {
    if queries == [] then [] else AllMatches(Front(queries)) + Last(queries).matches
  }

  predicate Falling(order: Order, rows: seq<Row>) {
    forall i, j | 0 <= i < j < |rows| :: Key(order, rows[i]) >= Key(order, rows[j])
  }

  // Behind every row whose key is not smaller.
  function Insert(order: Order, rows: seq<Row>, row: Row): seq<Row> {
    if rows == [] || Key(order, Last(rows)) >= Key(order, row) then rows + [row]
    else Insert(order, Front(rows), row) + [Last(rows)]
  }

  // The stable sort by falling key.
  function Sorted(order: Order, rows: seq<Row>): seq<Row> {
    if rows == [] then [] else Insert(order, Sorted(order, Front(rows)), Last(rows))
  }

  function KeyedAt(order: Order, rows: seq<Row>, key: int): seq<Row> {
    if rows == [] then []
    else KeyedAt(order, Front(rows), key) + (if Key(order, Last(rows)) == key then [Last(rows)] else [])
  }

  lemma FrontOfAppend<T>(rows: seq<T>, row: T)
    ensures Front(rows + [row]) == rows && Last(rows + [row]) == row
  {
  }

  lemma {:induction false} InsertStaysAbove(order: Order, rows: seq<Row>, row: Row, floor: int)
    requires Key(order, row) >= floor && forall i | 0 <= i < |rows| :: Key(order, rows[i]) >= floor
    ensures forall i | 0 <= i < |Insert(order, rows, row)| :: Key(order, Insert(order, rows, row)[i]) >= floor
  {
    if rows != [] && Key(order, Last(rows)) < Key(order, row) {
      InsertStaysAbove(order, Front(rows), row, floor);
    }
  }

  lemma {:induction false} InsertKeepsOrder(order: Order, rows: seq<Row>, row: Row)
    requires Falling(order, rows)
    ensures Falling(order, Insert(order, rows, row)) && |Insert(order, rows, row)| == |rows| + 1
  {
    if rows != [] && Key(order, Last(rows)) < Key(order, row) {
      InsertKeepsOrder(order, Front(rows), row);
      InsertStaysAbove(order, Front(rows), row, Key(order, Last(rows)));
    }
  }

  lemma {:induction false} InsertIsStable(order: Order, rows: seq<Row>, row: Row, key: int)
    ensures KeyedAt(order, Insert(order, rows, row), key) ==
            KeyedAt(order, rows, key) + (if Key(order, row) == key then [row] else [])
  {
    FrontOfAppend(rows, row);
    if rows != [] && Key(order, Last(rows)) < Key(order, row) {
      InsertIsStable(order, Front(rows), row, key);
      FrontOfAppend(Insert(order, Front(rows), row), Last(rows));
    }
  }

  lemma {:induction false} InsertTally(order: Order, rows: seq<Row>, row: Row, test: Test)
    ensures Tally(Insert(order, rows, row), test) == Tally(rows, test) + (if Meets(test, row) then 1 else 0)
  {
    FrontOfAppend(rows, row);
    if rows != [] && Key(order, Last(rows)) < Key(order, row) {
      InsertTally(order, Front(rows), row, test);
      FrontOfAppend(Insert(order, Front(rows), row), Last(rows));
    }
  }

  lemma {:induction false} SortedTally(order: Order, rows: seq<Row>, test: Test)
    ensures Tally(Sorted(order, rows), test) == Tally(rows, test)
  {
    if rows != [] {
      SortedTally(order, Front(rows), test);
      InsertTally(order, Sorted(order, Front(rows)), Last(rows), test);
    }
  }

  lemma {:induction false} SortedFalls(order: Order, rows: seq<Row>)
    ensures Falling(order, Sorted(order, rows)) && |Sorted(order, rows)| == |rows|
  {
    if rows != [] {
      SortedFalls(order, Front(rows));
      InsertKeepsOrder(order, Sorted(order, Front(rows)), Last(rows));
    }
  }

  lemma {:induction false} SortedIsStable(order: Order, rows: seq<Row>, key: int)
    ensures KeyedAt(order, Sorted(order, rows), key) == KeyedAt(order, rows, key)
  {
    if rows != [] {
      SortedIsStable(order, Front(rows), key);
      InsertIsStable(order, Sorted(order, Front(rows)), Last(rows), key);
    }
  }

  /** The sort is a permutation with falling keys that keeps the order of rows with equal keys. */
  lemma SortedIsStableSort(order: Order, rows: seq<Row>)
    ensures Falling(order, Sorted(order, rows)) && |Sorted(order, rows)| == |rows|
    ensures forall test :: Tally(Sorted(order, rows), test) == Tally(rows, test)
    ensures forall key :: KeyedAt(order, Sorted(order, rows), key) == KeyedAt(order, rows, key)
  {
    SortedFalls(order, rows);
    forall test ensures Tally(Sorted(order, rows), test) == Tally(rows, test) {
      SortedTally(order, rows, test);
    }
    forall key ensures KeyedAt(order, Sorted(order, rows), key) == KeyedAt(order, rows, key) {
      SortedIsStable(order, rows, key);
    }
  }

  // The first `limit` rows in an order, and the others.
  function Top(order: Order, rows: seq<Row>, limit: nat): seq<Row> {
    var sorted := Sorted(order, rows);
    sorted[..Min(limit, |sorted|)]
  }

  function Rest(order: Order, rows: seq<Row>, limit: nat): seq<Row> {
    var sorted := Sorted(order, rows);
    sorted[Min(limit, |sorted|)..]
  }

  function Page(answers: seq<seq<Row>>, limit: nat): seq<Row> {
    Top(ByCreation, Gather(answers), limit)
  }

  // The answers of the sources that are queried at all.
  function Asked(filter: Filter, kinds: seq<Kind>, answer: Kind -> seq<Row>): seq<seq<Row>> {
    if kinds == [] then []
    else Asked(filter, Front(kinds), answer) + [if Wanted(filter, Last(kinds)) then answer(Last(kinds)) else []]
  }

  /** `search_knowledge`, given the answer of each source's query. */
  method SearchKnowledge(filter: Filter, answer: Kind -> seq<Row>, limit: nat) returns (page: seq<Row>)
    ensures page == Page(Asked(filter, KINDS, answer), limit)
    ensures Falling(ByCreation, page) && |page| <= limit
  {
    var results: seq<Row> := [];
    for i := 0 to |KINDS|
      invariant results == Gather(Asked(filter, KINDS[..i], answer))
    {
      var kind := KINDS[i];
      AskedNext(filter, KINDS, answer, i);
      if Wanted(filter, kind) {
        results := results + answer(kind);
      }
    }
    assert KINDS[..|KINDS|] == KINDS;
    SortedFalls(ByCreation, results);
    var sorted := Sorted(ByCreation, results);
    page := sorted[..Min(limit, |sorted|)];
  }

  lemma AskedNext(filter: Filter, kinds: seq<Kind>, answer: Kind -> seq<Row>, i: nat)
    requires i < |kinds|
    ensures Gather(Asked(filter, kinds[..i + 1], answer)) ==
            Gather(Asked(filter, kinds[..i], answer)) + (if Wanted(filter, kinds[i]) then answer(kinds[i]) else [])
  {
    assert Front(kinds[..i + 1]) == kinds[..i];
    var before := Asked(filter, kinds[..i], answer);
    FrontOfAppend(before, if Wanted(filter, kinds[i]) then answer(kinds[i]) else []);
  }

  // ---- what is looked for ----

  /** Each filter that is set and that the source has a column for must be met, and no other. */
  lemma SelectsExactly(like: (string, string) -> bool, filter: Filter, kind: Kind, row: Row)
    ensures Selects(like, filter, kind, row) <==>
            && (filter.text != "" ==> like(filter.text, row.title) || like(filter.text, row.content))
            && filter.project in {None, row.project}
            && (kind in {Document, Memory} || filter.meeting in {None, row.meeting})
            && (kind in {Document, Transcript} || filter.status in {None, row.status})
            && (kind !in {Document, Transcript} || filter.language in {None, row.language})
  {
  }

  /** A query matches exactly the selected rows of its table, each as often as it is there. */
  lemma {:induction false} MatchingExactly(like: (string, string) -> bool, filter: Filter, kind: Kind,
                                           table: seq<Row>, row: Row)
    ensures Tally(Matching(like, filter, kind, table), Same(row)) ==
            if Selects(like, filter, kind, row) then Tally(table, Same(row)) else 0
  {
    if table != [] {
      MatchingExactly(like, filter, kind, Front(table), row);
      var before := Matching(like, filter, kind, Front(table));
      if Selects(like, filter, kind, Last(table)) {
        FrontOfAppend(before, Last(table));
      } else {
        assert before + [] == before;
      }
    }
  }

  /** Sources are asked exactly when no source type is wished for, or theirs. */
  lemma WantedExactly(filter: Filter, kind: Kind, other: Kind)
    requires filter.sourceType == Some(Name(other))
    ensures Wanted(filter, kind) <==> kind == other
    ensures Wanted(filter.(sourceType := None), kind)
  {
    NamesDiffer(kind, other);
  }

  // ---- tallies ----

  lemma {:induction false} TallySplits(a: seq<Row>, b: seq<Row>, test: Test)
    ensures Tally(a + b, test) == Tally(a, test) + Tally(b, test)
  {
    if b == [] {
      assert a + b == a;
    } else {
      TallySplits(a, Front(b), test);
      assert a + b == a + Front(b) + [Last(b)];
      FrontOfAppend(a + Front(b), Last(b));
    }
  }

  lemma {:induction false} TallyBounds(rows: seq<Row>, test: Test)
    ensures Tally(rows, test) <= |rows|
    ensures (forall i | 0 <= i < |rows| :: Meets(test, rows[i])) ==> Tally(rows, test) == |rows|
    ensures (forall i | 0 <= i < |rows| :: !Meets(test, rows[i])) ==> Tally(rows, test) == 0
  {
    if rows != [] {
      TallyBounds(Front(rows), test);
    }
  }

  // Counting by one test within another.
  lemma {:induction false} TallyParts(rows: seq<Row>, one: Test, other: Test)
    ensures Tally(rows, one) == Tally(rows, Both(one, other)) + Tally(rows, Both(one, Not(other)))
    ensures Tally(rows, one) + Tally(rows, Not(one)) == |rows|
  {
    if rows != [] {
      TallyParts(Front(rows), one, other);
      assert Meets(Both(one, Not(other)), Last(rows)) <==> Meets(one, Last(rows)) && Meets(Not(other), Last(rows));
    }
  }

  lemma {:induction false} TallyImplies(rows: seq<Row>, one: Test, other: Test)
    requires forall i | 0 <= i < |rows| :: Meets(one, rows[i]) ==> Meets(other, rows[i])
    ensures Tally(rows, one) <= Tally(rows, other)
  {
    if rows != [] {
      TallyImplies(Front(rows), one, other);
    }
  }

  lemma {:induction false} Witness(rows: seq<Row>, test: Test) returns (i: nat)
    requires Tally(rows, test) > 0
    ensures i < |rows| && Meets(test, rows[i])
  {
    if Meets(test, Last(rows)) {
      i := |rows| - 1;
    } else {
      i := Witness(Front(rows), test);
    }
  }

  lemma TallyWithout(rows: seq<Row>, i: nat, test: Test)
    requires i < |rows|
    ensures Tally(rows, test) == Tally(rows[..i] + rows[i + 1..], test) + (if Meets(test, rows[i]) then 1 else 0)
  {
    assert rows == rows[..i] + [rows[i]] + rows[i + 1..];
    TallySplits(rows[..i] + [rows[i]], rows[i + 1..], test);
    FrontOfAppend(rows[..i], rows[i]);
    TallySplits(rows[..i], rows[i + 1..], test);
  }

  // Rows that occur no more often one by one are no more often counted together.
  lemma {:induction false} PartTally(part: seq<Row>, whole: seq<Row>, test: Test)
    requires forall row | Meets(test, row) :: Covered(whole, part, row)
    ensures Tally(part, test) <= Tally(whole, test)
  {
    if part != [] {
      var last := Last(part);
      if Meets(test, last) {
        assert Covered(whole, part, last);
        var i := Witness(whole, Same(last));
        var less := whole[..i] + whole[i + 1..];
        TallyWithout(whole, i, test);
        forall row | Meets(test, row) ensures Covered(less, Front(part), row) {
          assert Covered(whole, part, row);
          TallyWithout(whole, i, Same(row));
        }
        PartTally(Front(part), less, test);
      } else {
        forall row | Meets(test, row) ensures Covered(whole, Front(part), row) {
          assert Covered(whole, part, row);
        }
        PartTally(Front(part), whole, test);
      }
    }
  }

  // Fewer rows counted together means that some row occurs less often.
  lemma FewerRow(part: seq<Row>, whole: seq<Row>, test: Test) returns (row: Row)
    requires Tally(part, test) < Tally(whole, test)
    ensures Meets(test, row) && Dropped(whole, part, row)
  {
    if forall other | Meets(test, other) :: !Dropped(whole, part, other) {
      forall other | Meets(test, other) ensures Covered(part, whole, other) {
        assert !Dropped(whole, part, other);
      }
      PartTally(whole, part, test);
      assert false;
    }
    row :| Meets(test, row) && Dropped(whole, part, row);
  }

  // A part of the same size is the whole.
  lemma SameSize(part: seq<Row>, whole: seq<Row>, test: Test)
    requires (forall row :: Covered(whole, part, row)) && |part| == |whole|
    ensures Tally(part, test) == Tally(whole, test)
  {
    PartTally(part, whole, test);
    PartTally(part, whole, Not(test));
    TallyParts(part, test, test);
    TallyParts(whole, test, test);
  }

  lemma TopAndRest(order: Order, rows: seq<Row>, limit: nat, test: Test)
    ensures Tally(rows, test) == Tally(Top(order, rows, limit), test) + Tally(Rest(order, rows, limit), test)
  {
    var sorted := Sorted(order, rows);
    var n := Min(limit, |sorted|);
    SortedTally(order, rows, test);
    TallySplits(sorted[..n], sorted[n..], test);
    assert sorted[..n] + sorted[n..] == sorted;
  }

  lemma RestIsBelow(order: Order, rows: seq<Row>, limit: nat, i: nat, j: nat)
    requires i < |Top(order, rows, limit)| && j < |Rest(order, rows, limit)|
    ensures Key(order, Top(order, rows, limit)[i]) >= Key(order, Rest(order, rows, limit)[j])
  {
    SortedFalls(order, rows);
    var sorted := Sorted(order, rows);
    assert Key(order, sorted[i]) >= Key(order, sorted[Min(limit, |sorted|) + j]);
  }

  /** The top rows in an order are an answer to the query with that order. */
  lemma TopAnswers(order: Order, rows: seq<Row>, limit: nat)
    ensures Answers(Query(order, rows), Top(order, rows, limit), limit)
  {
    var top := Top(order, rows, limit);
    SortedFalls(order, rows);
    forall row ensures Covered(rows, top, row) {
      TopAndRest(order, rows, limit, Same(row));
    }
    forall row, i | Dropped(rows, top, row) && 0 <= i < |top| ensures Key(order, top[i]) >= Key(order, row) {
      TopAndRest(order, rows, limit, Same(row));
      var j := Witness(Rest(order, rows, limit), Same(row));
      RestIsBelow(order, rows, limit, i, j);
    }
  }

  // ---- the global top of all matches ----

  // The `limit` newest of all rows, up to ties.
  ghost predicate IsNewest(page: seq<Row>, all: seq<Row>, limit: nat) {
    && (forall row :: Covered(all, page, row))
    && |page| == Min(limit, |all|)
    && forall row, i | Dropped(all, page, row) && 0 <= i < |page| :: page[i].created >= row.created
  }

  // Of the rows not older than any time, as many arrive as there are, or the limit.
  ghost predicate Arrives(gathered: seq<Row>, all: seq<Row>, limit: nat) {
    forall time :: ArrivesAt(gathered, all, limit, time)
  }

  predicate ArrivesAt(gathered: seq<Row>, all: seq<Row>, limit: nat, time: int) {
    Tally(gathered, NotOlder(time)) >= Min(limit, Tally(all, NotOlder(time)))
  }

  lemma {:induction false} GatherIsPart(queries: seq<Query>, answers: seq<seq<Row>>, row: Row)
    requires |answers| == |queries|
    requires forall k | 0 <= k < |queries| :: Covered(queries[k].matches, answers[k], row)
    ensures Covered(AllMatches(queries), Gather(answers), row)
  {
    if queries != [] {
      GatherIsPart(Front(queries), Front(answers), row);
      TallySplits(Gather(Front(answers)), Last(answers), Same(row));
      TallySplits(AllMatches(Front(queries)), Last(queries).matches, Same(row));
    }
  }

  lemma {:induction false} GatherLength(queries: seq<Query>, answers: seq<seq<Row>>, limit: nat)
    requires |answers| == |queries|
    requires forall k | 0 <= k < |queries| :: |answers[k]| == Min(limit, |queries[k].matches|)
    ensures Min(limit, |Gather(answers)|) == Min(limit, |AllMatches(queries)|)
  {
    if queries != [] {
      GatherLength(Front(queries), Front(answers), limit);
      MinOfSum(limit, |Gather(Front(answers))|, |AllMatches(Front(queries))|, |Last(queries).matches|);
    }
  }

  lemma MinOfSum(limit: nat, a: nat, b: nat, c: nat)
    requires Min(limit, a) == Min(limit, b)
    ensures Min(limit, a + Min(limit, c)) == Min(limit, b + c)
  {
  }

  lemma AnswersArePart(queries: seq<Query>, answers: seq<seq<Row>>, limit: nat)
    requires AllAnswer(queries, answers, limit)
    ensures forall row :: Covered(AllMatches(queries), Gather(answers), row)
    ensures Min(limit, |Gather(answers)|) == Min(limit, |AllMatches(queries)|)
  {
    forall row ensures Covered(AllMatches(queries), Gather(answers), row) {
      forall k | 0 <= k < |queries| ensures Covered(queries[k].matches, answers[k], row) {
        assert Answers(queries[k], answers[k], limit);
      }
      GatherIsPart(queries, answers, row);
    }
    forall k | 0 <= k < |queries| ensures |answers[k]| == Min(limit, |queries[k].matches|) {
      assert Answers(queries[k], answers[k], limit);
    }
    GatherLength(queries, answers, limit);
  }

  lemma {:induction false} TallyOfPrefix(rows: seq<Row>, time: int, k: nat)
    requires Falling(ByCreation, rows) && k < |rows| && rows[k].created < time
    ensures Tally(rows, NotOlder(time)) <= k
  {
    if k == |rows| - 1 {
      TallyBounds(Front(rows), NotOlder(time));
    } else {
      TallyOfPrefix(Front(rows), time, k);
    }
  }

  // A page that misses a row newer than one of its own: too few rows of that age have arrived.
  lemma MissedNeverArrived(gathered: seq<Row>, all: seq<Row>, limit: nat, row: Row, i: nat)
    requires forall other :: Covered(all, gathered, other)
    requires var page := Top(ByCreation, gathered, limit);
             Dropped(all, page, row) && i < |page| && page[i].created < row.created
    ensures !ArrivesAt(gathered, all, limit, row.created)
  {
    var page, time := Top(ByCreation, gathered, limit), row.created;
    var sorted := Sorted(ByCreation, gathered);
    SortedFalls(ByCreation, gathered);
    SortedTally(ByCreation, gathered, NotOlder(time));
    TallyOfPrefix(sorted, time, i);
    TallyOfPrefix(page, time, i);
    TopAndRest(ByCreation, gathered, limit, Same(row));
    var rest := Rest(ByCreation, gathered, limit);
    forall j | 0 <= j < |rest| ensures !Meets(Same(row), rest[j]) {
      RestIsBelow(ByCreation, gathered, limit, i, j);
    }
    TallyBounds(rest, Same(row));
    FewerOfAge(gathered, all, row);
  }

  lemma FewerOfAge(gathered: seq<Row>, all: seq<Row>, row: Row)
    requires (forall other :: Covered(all, gathered, other)) && Dropped(all, gathered, row)
    ensures Tally(gathered, NotOlder(row.created)) < Tally(all, NotOlder(row.created))
  {
    var age := NotOlder(row.created);
    PartTally(gathered, all, Both(age, Not(Same(row))));
    TallyParts(gathered, age, Same(row));
    TallyParts(all, age, Same(row));
    SameWithin(gathered, age, row);
    SameWithin(all, age, row);
  }

  lemma {:induction false} SameWithin(rows: seq<Row>, test: Test, row: Row)
    requires Meets(test, row)
    ensures Tally(rows, Both(test, Same(row))) == Tally(rows, Same(row))
  {
    if rows != [] {
      SameWithin(Front(rows), test, row);
    }
  }

  /** A page is the global answer exactly when enough rows of every age were gathered. */
  lemma PageIsNewestExactly(queries: seq<Query>, answers: seq<seq<Row>>, limit: nat)
    requires AllAnswer(queries, answers, limit)
    ensures IsNewest(Page(answers, limit), AllMatches(queries), limit)
            <==> Arrives(Gather(answers), AllMatches(queries), limit)
  {
    var page, gathered, all := Page(answers, limit), Gather(answers), AllMatches(queries);
    AnswersArePart(queries, answers, limit);
    SortedFalls(ByCreation, gathered);
    forall row ensures Covered(all, page, row) {
      TopAndRest(ByCreation, gathered, limit, Same(row));
      assert Covered(all, gathered, row);
    }
    if Arrives(gathered, all, limit) {
      forall row, i | Dropped(all, page, row) && 0 <= i < |page| ensures page[i].created >= row.created {
        assert ArrivesAt(gathered, all, limit, row.created);
        if page[i].created < row.created {
          MissedNeverArrived(gathered, all, limit, row, i);
        }
      }
    }
    if IsNewest(page, all, limit) {
      forall time ensures ArrivesAt(gathered, all, limit, time) {
        NewestArrives(gathered, all, limit, time);
      }
    }
  }

  lemma NewestArrives(gathered: seq<Row>, all: seq<Row>, limit: nat, time: int)
    requires IsNewest(Top(ByCreation, gathered, limit), all, limit)
    ensures ArrivesAt(gathered, all, limit, time)
  {
    var page := Top(ByCreation, gathered, limit);
    TopAndRest(ByCreation, gathered, limit, NotOlder(time));
    if Tally(page, NotOlder(time)) < Tally(all, NotOlder(time)) {
      var row := FewerRow(page, all, NotOlder(time));
      TallyBounds(page, NotOlder(time));
      TallyBounds(all, NotOlder(time));
    }
  }

  // ---- which answers there may be ----

  // The answer that withholds as many rows not older than `time` as the query's order allows.
  function Worst(q: Query, limit: nat, time: int): seq<Row> {
    Top(Adverse(q.order, time), q.matches, limit)
  }

  lemma WorstAnswers(q: Query, limit: nat, time: int)
    ensures Answers(q, Worst(q, limit, time), limit)
  {
    TopAnswers(Adverse(q.order, time), q.matches, limit);
    var top := Worst(q, limit, time);
    forall i, j | 0 <= i < j < |top| ensures Key(q.order, top[i]) >= Key(q.order, top[j]) {
      assert Key(Adverse(q.order, time), top[i]) >= Key(Adverse(q.order, time), top[j]);
    }
    forall row, i | Dropped(q.matches, top, row) && 0 <= i < |top|
      ensures Key(q.order, top[i]) >= Key(q.order, row)
    {
      assert Key(Adverse(q.order, time), top[i]) >= Key(Adverse(q.order, time), row);
    }
  }

  // Every answer to a cut query holds all rows above the key of the last row of the worst one.
  lemma AboveIsFetched(q: Query, fetched: seq<Row>, limit: nat, time: int)
    requires Answers(q, fetched, limit) && 0 < limit < |q.matches|
    ensures |Worst(q, limit, time)| == limit
    ensures var above := AtLeast(q.order, Key(q.order, Last(Worst(q, limit, time))) + 1);
            Tally(fetched, above) == Tally(q.matches, above)
  {
    SortedFalls(Adverse(q.order, time), q.matches);
    var worst := Worst(q, limit, time);
    var above := AtLeast(q.order, Key(q.order, Last(worst)) + 1);
    WorstHoldsAbove(q, limit, time);
    PartTally(fetched, q.matches, above);
    if Tally(fetched, above) < Tally(q.matches, above) {
      var row := FewerRow(fetched, q.matches, above);
      TallyBounds(fetched, above);
      TallyBounds(Front(worst), above);
      assert false;
    }
  }

  lemma WorstHoldsAbove(q: Query, limit: nat, time: int)
    requires 0 < limit < |q.matches| && |Worst(q, limit, time)| == limit
    ensures var above := AtLeast(q.order, Key(q.order, Last(Worst(q, limit, time))) + 1);
            Tally(q.matches, above) == Tally(Worst(q, limit, time), above)
  {
    var order := Adverse(q.order, time);
    var worst, rest := Worst(q, limit, time), Rest(order, q.matches, limit);
    var above := AtLeast(q.order, Key(q.order, Last(worst)) + 1);
    TopAndRest(order, q.matches, limit, above);
    forall j | 0 <= j < |rest| ensures !Meets(above, rest[j]) {
      RestIsBelow(order, q.matches, limit, |worst| - 1, j);
    }
    TallyBounds(rest, above);
  }

  // When the worst answer ends with a row older than `time`, its newer rows are all above its last key.
  lemma LeastWhenOldEnds(q: Query, fetched: seq<Row>, limit: nat, time: int)
    requires Answers(q, fetched, limit) && 0 < limit < |q.matches|
    requires |Worst(q, limit, time)| == limit && Last(Worst(q, limit, time)).created < time
    ensures Tally(fetched, NotOlder(time)) >= Tally(Worst(q, limit, time), NotOlder(time))
  {
    var worst, age := Worst(q, limit, time), NotOlder(time);
    var above := AtLeast(q.order, Key(q.order, Last(worst)) + 1);
    AboveIsFetched(q, fetched, limit, time);
    WorstHoldsAbove(q, limit, time);
    SortedFalls(Adverse(q.order, time), q.matches);
    forall i | 0 <= i < |worst| ensures Meets(age, worst[i]) ==> Meets(Both(above, age), worst[i]) {
      assert i == |worst| - 1 ||
             Key(Adverse(q.order, time), worst[i]) >= Key(Adverse(q.order, time), worst[|worst| - 1]);
    }
    TallyImplies(worst, age, Both(above, age));
    TallyImplies(fetched, Both(above, age), age);
    PartTally(fetched, q.matches, Both(above, Not(age)));
    TallyParts(fetched, above, age);
    TallyParts(q.matches, above, age);
    WorstIsPart(q, limit, time, Both(above, age));
  }

  lemma WorstIsPart(q: Query, limit: nat, time: int, test: Test)
    ensures Tally(Worst(q, limit, time), test) <= Tally(q.matches, test)
  {
    TopAndRest(Adverse(q.order, time), q.matches, limit, test);
  }

  // An answer that goes below a key has left out no row from that key on.
  lemma BelowIsLast(q: Query, fetched: seq<Row>, limit: nat, key: int, i: nat)
    requires Answers(q, fetched, limit) && i < |fetched| && Key(q.order, fetched[i]) < key
    ensures Tally(fetched, AtLeast(q.order, key)) >= Tally(q.matches, AtLeast(q.order, key))
  {
    if Tally(fetched, AtLeast(q.order, key)) < Tally(q.matches, AtLeast(q.order, key)) {
      var row := FewerRow(fetched, q.matches, AtLeast(q.order, key));
      assert false;
    }
  }

  lemma WorstReaches(q: Query, limit: nat, time: int)
    requires |Worst(q, limit, time)| == limit && limit > 0
    ensures Tally(Worst(q, limit, time), AtLeast(q.order, Key(q.order, Last(Worst(q, limit, time))))) == limit
  {
    var worst := Worst(q, limit, time);
    WorstAnswers(q, limit, time);
    TallyBounds(worst, AtLeast(q.order, Key(q.order, Last(worst))));
  }

  // No answer to a cut query goes below the last key of the worst one.
  lemma NothingBelow(q: Query, fetched: seq<Row>, limit: nat, time: int)
    requires Answers(q, fetched, limit) && 0 < limit < |q.matches| && |Worst(q, limit, time)| == limit
    ensures Tally(fetched, AtLeast(q.order, Key(q.order, Last(Worst(q, limit, time))))) == |fetched|
  {
    var key := Key(q.order, Last(Worst(q, limit, time)));
    var reach := AtLeast(q.order, key);
    TallyParts(fetched, reach, reach);
    if Tally(fetched, Not(reach)) > 0 {
      var i := Witness(fetched, Not(reach));
      BelowIsLast(q, fetched, limit, key, i);
      WorstReaches(q, limit, time);
      WorstIsPart(q, limit, time, reach);
    }
  }

  // When it ends with a newer one, it holds all older rows from its last key on.
  lemma LeastWhenNewEnds(q: Query, fetched: seq<Row>, limit: nat, time: int)
    requires Answers(q, fetched, limit) && 0 < limit < |q.matches|
    requires |Worst(q, limit, time)| == limit && Last(Worst(q, limit, time)).created >= time
    ensures Tally(fetched, NotOlder(time)) >= Tally(Worst(q, limit, time), NotOlder(time))
  {
    var order, age := Adverse(q.order, time), NotOlder(time);
    var worst, rest := Worst(q, limit, time), Rest(order, q.matches, limit);
    var reach := AtLeast(q.order, Key(q.order, Last(worst)));
    NothingBelow(q, fetched, limit, time);
    WorstReaches(q, limit, time);
    forall j | 0 <= j < |rest| ensures !Meets(Both(reach, Not(age)), rest[j]) {
      RestIsBelow(order, q.matches, limit, |worst| - 1, j);
      assert Key(order, rest[j]) <= 2 * Key(q.order, Last(worst));
      assert Meets(Not(age), rest[j]) <==> rest[j].created < time;
    }
    TallyBounds(rest, Both(reach, Not(age)));
    TopAndRest(order, q.matches, limit, Both(reach, Not(age)));
    PartTally(fetched, q.matches, Both(reach, Not(age)));
    TallyParts(fetched, reach, age);
    TallyParts(worst, reach, age);
    TallyParts(fetched, age, age);
    TallyParts(worst, age, age);
    AllReach(fetched, reach, age);
    AllReach(worst, reach, age);
  }

  lemma {:induction false} AllReach(rows: seq<Row>, reach: Test, test: Test)
    requires Tally(rows, reach) == |rows|
    ensures Tally(rows, Both(reach, test)) == Tally(rows, test)
  {
    if rows != [] {
      TallyBounds(Front(rows), reach);
      AllReach(Front(rows), reach, test);
    }
  }

  /** No answer holds fewer rows not older than `time` than the worst one. */
  lemma WorstIsLeast(q: Query, fetched: seq<Row>, limit: nat, time: int)
    requires Answers(q, fetched, limit)
    ensures Tally(fetched, NotOlder(time)) >= Tally(Worst(q, limit, time), NotOlder(time))
  {
    var worst := Worst(q, limit, time);
    SortedFalls(Adverse(q.order, time), q.matches);
    if |q.matches| <= limit {
      SameSize(fetched, q.matches, NotOlder(time));
      WorstIsPart(q, limit, time, NotOlder(time));
    } else if limit > 0 {
      if Last(worst).created < time {
        LeastWhenOldEnds(q, fetched, limit, time);
      } else {
        LeastWhenNewEnds(q, fetched, limit, time);
      }
    }
  }

  function WorstOf(queries: seq<Query>, limit: nat, time: int): (answers: seq<seq<Row>>)
    ensures |answers| == |queries|
    ensures forall k | 0 <= k < |queries| :: answers[k] == Worst(queries[k], limit, time)
  {
    if queries == [] then [] else WorstOf(Front(queries), limit, time) + [Worst(Last(queries), limit, time)]
  }

  lemma {:induction false} GatherIsAtLeast(queries: seq<Query>, answers: seq<seq<Row>>, limit: nat, time: int)
    requires AllAnswer(queries, answers, limit)
    ensures Tally(Gather(answers), NotOlder(time)) >= Tally(Gather(WorstOf(queries, limit, time)), NotOlder(time))
  {
    if queries != [] {
      assert AllAnswer(Front(queries), Front(answers), limit);
      GatherIsAtLeast(Front(queries), Front(answers), limit, time);
      assert Answers(Last(queries), Last(answers), limit);
      WorstIsLeast(Last(queries), Last(answers), limit, time);
      TallySplits(Gather(Front(answers)), Last(answers), NotOlder(time));
      var worst := WorstOf(Front(queries), limit, time);
      FrontOfAppend(worst, Worst(Last(queries), limit, time));
      TallySplits(Gather(worst), Worst(Last(queries), limit, time), NotOlder(time));
    }
  }

  // Even if every query withholds what it can of the rows not older than a time, enough of them arrive.
  ghost predicate Robust(queries: seq<Query>, limit: nat) {
    forall time :: ArrivesAt(Gather(WorstOf(queries, limit, time)), AllMatches(queries), limit, time)
  }

  ghost predicate AlwaysNewest(queries: seq<Query>, limit: nat) {
    forall answers | AllAnswer(queries, answers, limit) :: IsNewest(Page(answers, limit), AllMatches(queries), limit)
  }

  /**
   Whatever the database answers, the page is the `limit` newest of all matches, up to ties, exactly when
   the matches themselves are robust: one answer per query and time decides it.
   */
  lemma AlwaysNewestExactly(queries: seq<Query>, limit: nat)
    ensures AlwaysNewest(queries, limit) <==> Robust(queries, limit)
  {
    var all := AllMatches(queries);
    if Robust(queries, limit) {
      forall answers | AllAnswer(queries, answers, limit) ensures IsNewest(Page(answers, limit), all, limit) {
        forall time ensures ArrivesAt(Gather(answers), all, limit, time) {
          assert ArrivesAt(Gather(WorstOf(queries, limit, time)), all, limit, time);
          GatherIsAtLeast(queries, answers, limit, time);
        }
        PageIsNewestExactly(queries, answers, limit);
      }
    }
    if AlwaysNewest(queries, limit) {
      forall time ensures ArrivesAt(Gather(WorstOf(queries, limit, time)), all, limit, time) {
        var answers := WorstOf(queries, limit, time);
        forall k | 0 <= k < |queries| ensures Answers(queries[k], answers[k], limit) {
          WorstAnswers(queries[k], limit, time);
        }
        assert AllAnswer(queries, answers, limit);
        PageIsNewestExactly(queries, answers, limit);
        assert Arrives(Gather(answers), all, limit);
      }
    }
  }

  // ---- queries that are safe on their own ----

  // Ordered by creation, or small enough not to be cut.
  predicate Complete(q: Query, limit: nat) {
    q.order.ByCreation? || |q.matches| <= limit
  }

  ghost predicate AllComplete(queries: seq<Query>, limit: nat) {
    forall k | 0 <= k < |queries| :: Complete(queries[k], limit)
  }

  lemma CompleteArrives(q: Query, fetched: seq<Row>, limit: nat, time: int)
    requires Answers(q, fetched, limit) && Complete(q, limit)
    ensures ArrivesAt(fetched, q.matches, limit, time)
  {
    if |q.matches| <= limit {
      SameSize(fetched, q.matches, NotOlder(time));
    } else if Tally(fetched, NotOlder(time)) < Tally(q.matches, NotOlder(time)) {
      var row := FewerRow(fetched, q.matches, NotOlder(time));
      TallyBounds(fetched, NotOlder(time));
    }
  }

  lemma {:induction false} AllCompleteArrive(queries: seq<Query>, answers: seq<seq<Row>>, limit: nat, time: int)
    requires AllAnswer(queries, answers, limit) && AllComplete(queries, limit)
    ensures ArrivesAt(Gather(answers), AllMatches(queries), limit, time)
  {
    if queries != [] {
      assert AllAnswer(Front(queries), Front(answers), limit) && AllComplete(Front(queries), limit);
      AllCompleteArrive(Front(queries), Front(answers), limit, time);
      assert Answers(Last(queries), Last(answers), limit) && Complete(Last(queries), limit);
      CompleteArrives(Last(queries), Last(answers), limit, time);
      TallySplits(Gather(Front(answers)), Last(answers), NotOlder(time));
      TallySplits(AllMatches(Front(queries)), Last(queries).matches, NotOlder(time));
    }
  }

  /**
   The merge of per-source tops is the global top, up to ties, whenever every source is
   ordered by creation or was not cut by its own limit.
   */
  lemma GlobalTop(queries: seq<Query>, limit: nat)
    requires AllComplete(queries, limit)
    ensures AlwaysNewest(queries, limit)
  {
    forall answers | AllAnswer(queries, answers, limit)
      ensures IsNewest(Page(answers, limit), AllMatches(queries), limit)
    {
      forall time ensures ArrivesAt(Gather(answers), AllMatches(queries), limit, time) {
        AllCompleteArrive(queries, answers, limit, time);
      }
      PageIsNewestExactly(queries, answers, limit);
    }
  }

  lemma {:induction false} QueryAt(like: (string, string) -> bool, filter: Filter, tables: Kind -> seq<Row>,
                                   kinds: seq<Kind>, k: nat)
    requires k < |kinds|
    ensures |Queries(like, filter, tables, kinds)| == |kinds|
    ensures Queries(like, filter, tables, kinds)[k] == QueryOf(like, filter, tables, kinds[k])
  {
    if k < |kinds| - 1 {
      QueryAt(like, filter, tables, Front(kinds), k);
    } else if |kinds| > 1 {
      QueryAt(like, filter, tables, Front(kinds), 0);
    }
  }

  lemma {:induction false} AskedAt(filter: Filter, kinds: seq<Kind>, answer: Kind -> seq<Row>, k: nat)
    requires k < |kinds|
    ensures |Asked(filter, kinds, answer)| == |kinds|
    ensures Asked(filter, kinds, answer)[k] == if Wanted(filter, kinds[k]) then answer(kinds[k]) else []
  {
    if k < |kinds| - 1 {
      AskedAt(filter, Front(kinds), answer, k);
    } else if |kinds| > 1 {
      AskedAt(filter, Front(kinds), answer, 0);
    }
  }

  lemma AskedAnswers(like: (string, string) -> bool, filter: Filter, tables: Kind -> seq<Row>,
                     answer: Kind -> seq<Row>, limit: nat)
    requires forall kind | Wanted(filter, kind) ::
               Answers(QueryOf(like, filter, tables, kind), answer(kind), limit)
    ensures AllAnswer(Queries(like, filter, tables, KINDS), Asked(filter, KINDS, answer), limit)
  {
    var queries, answers := Queries(like, filter, tables, KINDS), Asked(filter, KINDS, answer);
    QueryAt(like, filter, tables, KINDS, 0);
    AskedAt(filter, KINDS, answer, 0);
    forall k | 0 <= k < |queries| ensures Answers(queries[k], answers[k], limit) {
      QueryAt(like, filter, tables, KINDS, k);
      AskedAt(filter, KINDS, answer, k);
    }
  }

  /**
   For the search itself: whatever its sources answer, the page is the `limit` newest of everything
   the filter selects, unless the document or the transcript query was cut.
   */
  lemma SearchIsNewest(like: (string, string) -> bool, filter: Filter, tables: Kind -> seq<Row>,
                       answer: Kind -> seq<Row>, limit: nat)
    requires forall kind | Wanted(filter, kind) ::
               Answers(QueryOf(like, filter, tables, kind), answer(kind), limit)
    requires |QueryOf(like, filter, tables, Document).matches| <= limit
    requires |QueryOf(like, filter, tables, Transcript).matches| <= limit
    ensures IsNewest(Page(Asked(filter, KINDS, answer), limit),
                     AllMatches(Queries(like, filter, tables, KINDS)), limit)
  {
    var queries := Queries(like, filter, tables, KINDS);
    QueryAt(like, filter, tables, KINDS, 0);
    forall k | 0 <= k < |queries| ensures Complete(queries[k], limit) {
      QueryAt(like, filter, tables, KINDS, k);
    }
    GlobalTop(queries, limit);
    AskedAnswers(like, filter, tables, answer, limit);
  }

  lemma TwoRows(kept: Row, lost: Row, row: Row)
    requires kept != lost
    ensures Tally([kept], Same(row)) == (if row == kept then 1 else 0)
    ensures Tally([kept, lost], Same(row)) == (if row == kept || row == lost then 1 else 0)
  {
    FrontOfAppend([], kept);
    FrontOfAppend([kept], lost);
    assert [] + [kept] == [kept] && [kept] + [lost] == [kept, lost];
  }

  lemma KeptAnswers(order: Order, kept: Row, lost: Row)
    requires kept != lost && Key(order, kept) >= Key(order, lost)
    ensures Answers(Query(order, [kept, lost]), [kept], 1)
  {
    forall row
      ensures Covered([kept, lost], [kept], row) && (Dropped([kept, lost], [kept], row) ==> row == lost)
    {
      TwoRows(kept, lost, row);
    }
  }

  lemma OneRowPage(kept: Row, answers: seq<seq<Row>>)
    requires Gather(answers) == [kept]
    ensures Page(answers, 1) == [kept]
  {
    FrontOfAppend([], kept);
    assert [] + [kept] == [kept];
    assert Sorted(ByCreation, [kept]) == [kept];
  }

  lemma OneRowLoses(kept: Row, lost: Row)
    requires kept.created < lost.created
    ensures !IsNewest([kept], [kept, lost], 1)
  {
    TwoRows(kept, lost, lost);
    assert Dropped([kept, lost], [kept], lost) && [kept][0].created < lost.created;
  }

  // A request for one kind of source alone.
  function Only(kind: Kind): Filter {
    Filter("", None, None, Some(Name(kind)), None, None)
  }

  lemma NamesDiffer(one: Kind, other: Kind)
    ensures Name(one) == Name(other) <==> one == other
  {
    assert |Name(Document)| == 8 && |Name(Meeting)| == 7 && |Name(Transcript)| == 10 && |Name(Decision)| == 8;
    assert |Name(Action)| == 6 && |Name(Risk)| == 4 && |Name(Question)| == 8 && |Name(Memory)| == 14;
    assert Name(Document)[1] == 'o' && Name(Decision)[1] == 'e' && Name(Question)[1] == 'u';
  }

  // The tables hold two rows of one kind, and its query answers with the first.
  function Two(kind: Kind, kept: Row, lost: Row): Kind -> seq<Row> {
    other => if other == kind then [kept, lost] else []
  }

  function First(kind: Kind, kept: Row): Kind -> seq<Row> {
    other => if other == kind then [kept] else []
  }

  lemma OnlyMatching(like: (string, string) -> bool, kind: Kind, kept: Row, lost: Row)
    ensures Matching(like, Only(kind), kind, [kept, lost]) == [kept, lost]
  {
    FrontOfAppend([], kept);
    FrontOfAppend([kept], lost);
    assert [] + [kept] == [kept] && [kept] + [lost] == [kept, lost];
    assert Matching(like, Only(kind), kind, [kept]) == [] + [kept];
  }

  lemma OnlyQuery(like: (string, string) -> bool, kind: Kind, kept: Row, lost: Row, other: Kind)
    ensures QueryOf(like, Only(kind), Two(kind, kept, lost), other) ==
            Query(OrderOf(other), if other == kind then [kept, lost] else [])
    ensures Wanted(Only(kind), other) <==> other == kind
  {
    NamesDiffer(kind, other);
    OnlyMatching(like, kind, kept, lost);
  }

  predicate Distinct(kinds: seq<Kind>) {
    forall i, j | 0 <= i < j < |kinds| :: kinds[i] != kinds[j]
  }

  lemma MatchesAppend(queries: seq<Query>, q: Query)
    ensures AllMatches(queries + [q]) == AllMatches(queries) + q.matches
  {
    FrontOfAppend(queries, q);
  }

  lemma GatherAppend(answers: seq<seq<Row>>, fetched: seq<Row>)
    ensures Gather(answers + [fetched]) == Gather(answers) + fetched
  {
    FrontOfAppend(answers, fetched);
  }

  lemma LastIsNew(kinds: seq<Kind>, kind: Kind)
    requires kinds != [] && Distinct(kinds)
    ensures Distinct(Front(kinds)) && Last(kinds) !in Front(kinds)
    ensures kind in kinds <==> kind in Front(kinds) || kind == Last(kinds)
  {
    assert kinds == Front(kinds) + [Last(kinds)];
  }

  lemma {:induction false} OnlyMatches(like: (string, string) -> bool, kind: Kind, kept: Row, lost: Row,
                                       kinds: seq<Kind>)
    requires Distinct(kinds)
    ensures AllMatches(Queries(like, Only(kind), Two(kind, kept, lost), kinds)) ==
            if kind in kinds then [kept, lost] else []
  {
    if kinds != [] {
      LastIsNew(kinds, kind);
      OnlyMatches(like, kind, kept, lost, Front(kinds));
      OnlyQuery(like, kind, kept, lost, Last(kinds));
      MatchesAppend(Queries(like, Only(kind), Two(kind, kept, lost), Front(kinds)),
                    QueryOf(like, Only(kind), Two(kind, kept, lost), Last(kinds)));
    }
  }

  lemma {:induction false} OnlyGathered(kind: Kind, kept: Row, kinds: seq<Kind>)
    requires Distinct(kinds)
    ensures Gather(Asked(Only(kind), kinds, First(kind, kept))) == if kind in kinds then [kept] else []
  {
    if kinds != [] {
      LastIsNew(kinds, kind);
      OnlyGathered(kind, kept, Front(kinds));
      NamesDiffer(kind, Last(kinds));
      GatherAppend(Asked(Only(kind), Front(kinds), First(kind, kept)), if Last(kinds) == kind then [kept] else []);
    }
  }

  lemma OnlyAnswers(like: (string, string) -> bool, kind: Kind, kept: Row, lost: Row)
    requires kept != lost && Key(OrderOf(kind), kept) >= Key(OrderOf(kind), lost)
    ensures AllAnswer(Queries(like, Only(kind), Two(kind, kept, lost), KINDS),
                      Asked(Only(kind), KINDS, First(kind, kept)), 1)
  {
    var tables, answer := Two(kind, kept, lost), First(kind, kept);
    KeptAnswers(OrderOf(kind), kept, lost);
    forall other | Wanted(Only(kind), other)
      ensures Answers(QueryOf(like, Only(kind), tables, other), answer(other), 1)
    {
      OnlyQuery(like, kind, kept, lost, other);
    }
    AskedAnswers(like, Only(kind), tables, answer, 1);
  }

  lemma KindsAreDistinct()
    ensures Distinct(KINDS) && forall kind: Kind :: kind in KINDS
  {
    forall kind: Kind ensures kind in KINDS {
      match kind
      case Document => assert KINDS[0] == kind;
      case Meeting => assert KINDS[1] == kind;
      case Transcript => assert KINDS[2] == kind;
      case Decision => assert KINDS[3] == kind;
      case Action => assert KINDS[4] == kind;
      case Risk => assert KINDS[5] == kind;
      case Question => assert KINDS[6] == kind;
      case Memory => assert KINDS[7] == kind;
    }
  }

  /**
   The search for documents, or for transcripts, can lose the newest row once its query is cut: the
   document on the page was edited last but created first, and transcripts are not ordered at all.
   */
  lemma CutSearchLosesRows(like: (string, string) -> bool, kind: Kind, kept: Row, lost: Row)
    requires kind.Document? || kind.Transcript?
    requires kind.Document? ==> kept.updated >= lost.updated
    requires kept.created < lost.created
    ensures !AlwaysNewest(Queries(like, Only(kind), Two(kind, kept, lost), KINDS), 1)
  {
    var queries := Queries(like, Only(kind), Two(kind, kept, lost), KINDS);
    var answers := Asked(Only(kind), KINDS, First(kind, kept));
    KindsAreDistinct();
    OnlyAnswers(like, kind, kept, lost);
    OnlyMatches(like, kind, kept, lost, KINDS);
    OnlyGathered(kind, kept, KINDS);
    OneRowPage(kept, answers);
    OneRowLoses(kept, lost);
    assert !IsNewest(Page(answers, 1), AllMatches(queries), 1);
  }

  // ---- excerpts ----

  const SIZE: nat := 260

  // The text cleaned of outer blanks and line breaks, and the folded query's first place in it (-1 if none).
  function Start(index: int): nat {
    Max(0, index - SIZE / 3)
  }

  function Body(text: string, index: int): string
    requires -1 <= index <= |text|
  {
    text[Start(index)..Min(|text|, Start(index) + SIZE)]
  }

  function Excerpt(text: string, index: int): string
    requires -1 <= index <= |text|
  {
    (if Start(index) > 0 then "..." else "") + Body(text, index) +
    (if Start(index) + SIZE < |text| then "..." else "")
  }

  // The match at `index` is wholly inside the excerpt.
  predicate Shows(text: string, index: nat, length: nat)
    requires index + length <= |text|
  {
    var at := index - Start(index);
    at + length <= |Body(text, index)| && Body(text, index)[at..at + length] == text[index..index + length]
  }

  /** A match is shown whole exactly when it fits behind the context kept in front of it. */
  lemma MatchIsShownExactly(text: string, index: nat, length: nat)
    requires index + length <= |text|
    ensures Shows(text, index, length) <==> length <= SIZE - Min(index, SIZE / 3)
  {
    var at, body := index - Start(index), Body(text, index);
    if at + length <= |body| {
      SliceOfSlice(text, Start(index), Start(index) + |body|, at, at + length);
    }
  }

  lemma SliceOfSlice(text: string, from: nat, to: nat, low: nat, high: nat)
    requires from <= to <= |text| && low <= high <= to - from
    ensures text[from..to][low..high] == text[from + low..from + high]
  {
    var inner, outer := text[from..to][low..high], text[from + low..from + high];
    forall i | 0 <= i < |inner| ensures inner[i] == outer[i] {
      assert inner[i] == text[from..to][low + i] == text[from + low + i];
    }
  }

  function Marker(cut: string): string {
    if cut == "" then "" else "..."
  }

  /** The markers tell what was cut, and on which side: the text is an unmarked excerpt exactly when nothing is. */
  lemma MarkersAreHonest(text: string, index: int) returns (front: string, back: string)
    requires -1 <= index <= |text|
    ensures text == front + Body(text, index) + back
    ensures Excerpt(text, index) == Marker(front) + Body(text, index) + Marker(back)
    ensures |Body(text, index)| == |text| <==> Excerpt(text, index) == Body(text, index)
    ensures |Excerpt(text, index)| <= SIZE + 6
  {
    var from, to := Start(index), Min(|text|, Start(index) + SIZE);
    front, back := text[..from], text[to..];
    assert text[..from] + text[from..to] == text[..to];
    assert text[..to] + text[to..] == text;
  }
}
