/**
 Word error rate (`word_error_rate` in `scripts/benchmark_stt.py`): a dynamic program
 over one row of the edit-distance table of two texts, word by word.
 */
module EditDistance {
  import opened Prelude

  type Word = string

  // One step of turning a reference into a hypothesis.
  datatype Edit = Change(from: Word, to: Word) | Delete(from: Word) | Insert(to: Word)

  type Script = seq<Edit>

  function Price(step: Edit): nat {
    if step.Change? && step.from == step.to then 0 else 1
  }

  function Reads(step: Edit): seq<Word> {
    if step.Insert? then [] else [step.from]
  }

  function Writes(step: Edit): seq<Word> {
    if step.Delete? then [] else [step.to]
  }

  function Cost(script: Script): nat {
    if script == [] then 0 else Price(script[0]) + Cost(script[1..])
  }

  function Source(script: Script): seq<Word> {
    if script == [] then [] else Reads(script[0]) + Source(script[1..])
  }

  function Target(script: Script): seq<Word> {
    if script == [] then [] else Writes(script[0]) + Target(script[1..])
  }

  predicate Turns(script: Script, a: seq<Word>, b: seq<Word>) {
    Source(script) == a && Target(script) == b
  }

  // d is the least number of insertions, deletions and substitutions that turn a into b.
  ghost predicate IsDistance(a: seq<Word>, b: seq<Word>, d: nat) {
    && (exists script :: Turns(script, a, b) && Cost(script) == d)
    && (forall script | Turns(script, a, b) :: Cost(script) >= d)
  }

  // The table: entry (i, j) is for the first i words of a and the first j of b.
  function Cell(a: seq<Word>, b: seq<Word>, i: nat, j: nat): nat
    requires i <= |a| && j <= |b|
    decreases i + j
  {
    if i == 0 then j
    else if j == 0 then i
    else Min(Min(Cell(a, b, i, j - 1) + 1, Cell(a, b, i - 1, j) + 1),
             Cell(a, b, i - 1, j - 1) + (if a[i - 1] != b[j - 1] then 1 else 0))
  }

  function Distance(a: seq<Word>, b: seq<Word>): nat {
    Cell(a, b, |a|, |b|)
  }

  // Row i of the table, as far as it is filled.
  predicate IsRow(row: seq<nat>, a: seq<Word>, b: seq<Word>, i: nat)
    requires i <= |a|
  {
    |row| <= |b| + 1 && forall j | 0 <= j < |row| :: row[j] == Cell(a, b, i, j)
  }

  // The inner loop: the row for one more reference word.
  method NextRow(expected: seq<Word>, actual: seq<Word>, index: nat, previous: seq<nat>)
    returns (current: seq<nat>)
    requires 1 <= index <= |expected| && |previous| == |actual| + 1
    requires IsRow(previous, expected, actual, index - 1)
    ensures |current| == |actual| + 1 && IsRow(current, expected, actual, index)
  {
    current := [index];
    var word := expected[index - 1];
    for offset := 1 to |actual| + 1
      invariant |current| == offset && IsRow(current, expected, actual, index)
    {
      var candidate := actual[offset - 1];
      var least := Min(Min(current[offset - 1] + 1, previous[offset] + 1),
                       previous[offset - 1] + (if word != candidate then 1 else 0));
      current := current + [least];
    }
  }

  // ---- words and rounding ----

  // `str.split`: the maximal runs of characters that are not white space.
  function Words(space: char -> bool, text: string): (words: seq<Word>)
    ensures text != "" && !space(text[|text| - 1]) ==> words != []
  {
    if text == "" then []
    else
      var front, c := text[..|text| - 1], text[|text| - 1];
      var before := Words(space, front);
      if space(c) then before
      else if front == "" || space(front[|front| - 1]) then before + [[c]]
      else before[..|before| - 1] + [before[|before| - 1] + [c]]
  }

  function Joined(words: seq<Word>): string {
    if words == [] then "" else Joined(words[..|words| - 1]) + words[|words| - 1]
  }

  function Visible(space: char -> bool, text: string): string {
    if text == "" then ""
    else
      Visible(space, text[..|text| - 1]) + (if space(text[|text| - 1]) then "" else [text[|text| - 1]])
  }

  // The positions at which a run starts.
  function RunStarts(space: char -> bool, text: string): nat {
    if text == "" then 0
    else
      var last := |text| - 1;
      RunStarts(space, text[..last]) +
      (if !space(text[last]) && (last == 0 || space(text[last - 1])) then 1 else 0)
  }

  predicate Solid(space: char -> bool, word: Word) {
    word != "" && forall j | 0 <= j < |word| :: !space(word[j])
  }

  lemma JoinedAppend(words: seq<Word>, word: Word)
    ensures Joined(words + [word]) == Joined(words) + word
  {
    assert (words + [word])[..|words|] == words;
  }

  lemma {:induction false} WordsJoin(space: char -> bool, text: string)
    ensures Joined(Words(space, text)) == Visible(space, text)
  {
    if text != "" {
      var front, c := text[..|text| - 1], text[|text| - 1];
      var before := Words(space, front);
      WordsJoin(space, front);
      if !space(c) {
        if front == "" || space(front[|front| - 1]) {
          JoinedAppend(before, [c]);
        } else {
          JoinedAppend(before[..|before| - 1], before[|before| - 1] + [c]);
        }
      }
    }
  }

  lemma {:induction false} WordsCount(space: char -> bool, text: string)
    ensures |Words(space, text)| == RunStarts(space, text)
  {
    if text != "" {
      WordsCount(space, text[..|text| - 1]);
    }
  }

  lemma {:induction false} WordsAreSolid(space: char -> bool, text: string)
    ensures forall i | 0 <= i < |Words(space, text)| :: Solid(space, Words(space, text)[i])
  {
    if text != "" {
      WordsAreSolid(space, text[..|text| - 1]);
    }
  }

  /** Splitting loses nothing but white space, and starts a word exactly where a run starts. */
  lemma WordsAreRuns(space: char -> bool, text: string)
    ensures Joined(Words(space, text)) == Visible(space, text)
    ensures |Words(space, text)| == RunStarts(space, text)
    ensures forall i | 0 <= i < |Words(space, text)| :: Solid(space, Words(space, text)[i])
  {
    WordsJoin(space, text);
    WordsCount(space, text);
    WordsAreSolid(space, text);
  }

  // d / n in ten-thousandths, rounded to the nearest, halves to even.
  function TenThousandths(d: nat, n: nat): nat
    requires n > 0
  {
    var k, rest := 10_000 * d / n, 10_000 * d % n;
    if 2 * rest > n || (2 * rest == n && k % 2 == 1) then k + 1 else k
  }

  /** The reported rate is off by at most half a ten-thousandth; it is 0 exactly up to one error in 20,000 words. */
  lemma RoundingIsTight(d: nat, n: nat)
    requires n > 0
    ensures 2 * (TenThousandths(d, n) * n - 10_000 * d) <= n
    ensures 2 * (10_000 * d - TenThousandths(d, n) * n) <= n
    ensures TenThousandths(d, n) == 0 <==> 20_000 * d <= n
  {
    Division(10_000 * d, n);
    var k := 10_000 * d / n;
    assert (k + 1) * n == k * n + n;
  }

  lemma Division(a: nat, n: nat)
    requires n > 0
    ensures a == a / n * n + a % n
    ensures a / n == 0 <==> a < n
  {
  }

  /** None for a reference without words, otherwise the edit distance per reference word, rounded. */
  method WordErrorRate(space: char -> bool, reference: string, hypothesis: string) returns (rate: Option<real>)
    ensures rate.None? <==> Words(space, reference) == []
    ensures rate.Some? ==> exists d: nat :: IsDistance(Words(space, reference), Words(space, hypothesis), d) &&
                             rate.value == TenThousandths(d, |Words(space, reference)|) as real / 10_000.0
  {
    var expected, actual := Words(space, reference), Words(space, hypothesis);
    if expected == [] {
      return None;
    }
    var previous: seq<nat> := seq(|actual| + 1, j requires j >= 0 => j);
    for index := 1 to |expected| + 1
      invariant |previous| == |actual| + 1 && IsRow(previous, expected, actual, index - 1)
    {
      previous := NextRow(expected, actual, index, previous);
    }
    TableIsDistance(expected, actual);
    rate := Some(TenThousandths(previous[|actual|], |expected|) as real / 10_000.0);
  }

  // ---- scripts ----

  lemma {:induction false} SourcesConcatenate(s: Script, t: Script)
    ensures Source(s + t) == Source(s) + Source(t)
  {
    if s == [] {
      assert s + t == t;
    } else {
      assert (s + t)[1..] == s[1..] + t;
      SourcesConcatenate(s[1..], t);
    }
  }

  lemma {:induction false} TargetsConcatenate(s: Script, t: Script)
    ensures Target(s + t) == Target(s) + Target(t)
  {
    if s == [] {
      assert s + t == t;
    } else {
      assert (s + t)[1..] == s[1..] + t;
      TargetsConcatenate(s[1..], t);
    }
  }

  lemma {:induction false} CostsAdd(s: Script, t: Script)
    ensures Cost(s + t) == Cost(s) + Cost(t)
  {
    if s == [] {
      assert s + t == t;
    } else {
      assert (s + t)[1..] == s[1..] + t;
      CostsAdd(s[1..], t);
    }
  }

  lemma ScriptsConcatenate(s: Script, t: Script)
    ensures Source(s + t) == Source(s) + Source(t)
    ensures Target(s + t) == Target(s) + Target(t)
    ensures Cost(s + t) == Cost(s) + Cost(t)
  {
    SourcesConcatenate(s, t);
    TargetsConcatenate(s, t);
    CostsAdd(s, t);
  }

  // A script split at its last step.
  lemma LastStep(script: Script)
    requires script != []
    ensures var body, step := script[..|script| - 1], script[|script| - 1];
            && Source(script) == Source(body) + Reads(step)
            && Target(script) == Target(body) + Writes(step)
            && Cost(script) == Cost(body) + Price(step)
  {
    var body, step := script[..|script| - 1], script[|script| - 1];
    ScriptsConcatenate(body, [step]);
    assert script == body + [step];
    assert [step][1..] == [];
    assert Source([step]) == Reads(step) + [] && Target([step]) == Writes(step) + [];
  }

  function DeleteAll(a: seq<Word>): Script {
    seq(|a|, i requires 0 <= i < |a| => Delete(a[i]))
  }

  function InsertAll(b: seq<Word>): Script {
    seq(|b|, i requires 0 <= i < |b| => Insert(b[i]))
  }

  lemma {:induction false} BulkScripts(w: seq<Word>)
    ensures Turns(DeleteAll(w), w, []) && Cost(DeleteAll(w)) == |w|
    ensures Turns(InsertAll(w), [], w) && Cost(InsertAll(w)) == |w|
  {
    if w != [] {
      BulkScripts(w[1..]);
      assert DeleteAll(w)[1..] == DeleteAll(w[1..]) && InsertAll(w)[1..] == InsertAll(w[1..]);
    }
  }

  // A script for two prefixes, extended by one step.
  lemma Extended(body: Script, step: Edit, a: seq<Word>, b: seq<Word>)
    requires Source(body) + Reads(step) == a && Target(body) + Writes(step) == b
    ensures Turns(body + [step], a, b) && Cost(body + [step]) == Cost(body) + Price(step)
  {
    LastStep(body + [step]);
    assert (body + [step])[..|body|] == body;
  }

  lemma PrefixGrows(a: seq<Word>, i: nat)
    requires 0 < i <= |a|
    ensures a[..i] == a[..i - 1] + [a[i - 1]]
  {
  }

  lemma SplitPrefix(front: seq<Word>, back: seq<Word>, a: seq<Word>, i: nat)
    requires i <= |a| && |back| <= 1 && front + back == a[..i]
    ensures |back| <= i && front == a[..i - |back|] && (back != [] ==> back[0] == a[i - 1])
  {
    assert front == (front + back)[..|front|];
    assert back != [] ==> back[0] == (front + back)[|front|];
  }

  // Which neighbour an entry is computed from.
  lemma CellSource(a: seq<Word>, b: seq<Word>, i: nat, j: nat) returns (step: Edit)
    requires 0 < i <= |a| && 0 < j <= |b|
    ensures step in {Insert(b[j - 1]), Delete(a[i - 1]), Change(a[i - 1], b[j - 1])}
    ensures step.Insert? ==> Cell(a, b, i, j) == Cell(a, b, i, j - 1) + 1
    ensures step.Delete? ==> Cell(a, b, i, j) == Cell(a, b, i - 1, j) + 1
    ensures step.Change? ==> Cell(a, b, i, j) == Cell(a, b, i - 1, j - 1) + Price(step)
  {
    if Cell(a, b, i, j) == Cell(a, b, i, j - 1) + 1 {
      step := Insert(b[j - 1]);
    } else if Cell(a, b, i, j) == Cell(a, b, i - 1, j) + 1 {
      step := Delete(a[i - 1]);
    } else {
      step := Change(a[i - 1], b[j - 1]);
    }
  }

  lemma {:induction false} CheapScript(a: seq<Word>, b: seq<Word>, i: nat, j: nat) returns (script: Script)
    requires i <= |a| && j <= |b|
    ensures Turns(script, a[..i], b[..j]) && Cost(script) == Cell(a, b, i, j)
    decreases i + j
  {
    if i == 0 {
      BulkScripts(b[..j]);
      script := InsertAll(b[..j]);
    } else if j == 0 {
      BulkScripts(a[..i]);
      script := DeleteAll(a[..i]);
    } else {
      var step := CellSource(a, b, i, j);
      PrefixGrows(a, i);
      PrefixGrows(b, j);
      var body := CheapScript(a, b, if step.Insert? then i else i - 1, if step.Delete? then j else j - 1);
      Extended(body, step, a[..i], b[..j]);
      script := body + [step];
    }
  }

  // No entry exceeds a neighbour by more than the price of the step between them.
  lemma CellIsLeast(a: seq<Word>, b: seq<Word>, i: nat, j: nat, step: Edit)
    requires |Reads(step)| <= i <= |a| && |Writes(step)| <= j <= |b|
    requires !step.Insert? ==> step.from == a[i - 1]
    requires !step.Delete? ==> step.to == b[j - 1]
    ensures Cell(a, b, i, j) <= Cell(a, b, i - |Reads(step)|, j - |Writes(step)|) + Price(step)
  {
  }

  lemma {:induction false} NoCheaperScript(script: Script, a: seq<Word>, b: seq<Word>, i: nat, j: nat)
    requires i <= |a| && j <= |b| && Turns(script, a[..i], b[..j])
    ensures Cost(script) >= Cell(a, b, i, j)
    decreases |script|
  {
    if script != [] {
      var body, step := script[..|script| - 1], script[|script| - 1];
      LastStep(script);
      SplitPrefix(Source(body), Reads(step), a, i);
      SplitPrefix(Target(body), Writes(step), b, j);
      NoCheaperScript(body, a, b, i - |Reads(step)|, j - |Writes(step)|);
      CellIsLeast(a, b, i, j, step);
    }
  }

  /** The table computes the least cost of any edit script, for all pairs of word lists. */
  lemma TableIsDistance(a: seq<Word>, b: seq<Word>)
    ensures IsDistance(a, b, Distance(a, b))
    ensures forall d: nat | IsDistance(a, b, d) :: d == Distance(a, b)
  {
    assert a[..|a|] == a && b[..|b|] == b;
    var script := CheapScript(a, b, |a|, |b|);
    assert Turns(script, a, b);
    forall s | Turns(s, a, b) ensures Cost(s) >= Distance(a, b) {
      NoCheaperScript(s, a, b, |a|, |b|);
    }
  }

  // ---- a metric ----

  function Inverse(script: Script): Script {
    seq(|script|, i requires 0 <= i < |script| =>
      match script[i]
      case Change(x, y) => Change(y, x)
      case Delete(x) => Insert(x)
      case Insert(y) => Delete(y))
  }

  lemma {:induction false} InverseTurnsBack(script: Script)
    ensures Turns(Inverse(script), Target(script), Source(script)) && Cost(Inverse(script)) == Cost(script)
  {
    if script != [] {
      InverseTurnsBack(script[1..]);
      assert Inverse(script)[1..] == Inverse(script[1..]);
    }
  }

  // Doing s and then t, one word at a time.
  lemma {:induction false} Compose(s: Script, t: Script) returns (both: Script)
    requires Target(s) == Source(t)
    ensures Turns(both, Source(s), Target(t)) && Cost(both) <= Cost(s) + Cost(t)
    decreases |s| + |t|
  {
    if s == [] && t == [] {
      both := [];
    } else if s != [] && s[0].Delete? {
      both := Compose(s[1..], t);
      both := [s[0]] + both;
    } else if t != [] && t[0].Insert? {
      both := Compose(s, t[1..]);
      both := [t[0]] + both;
    } else {
      assert s != [] && t != [];
      assert Target(s)[1..] == Target(s[1..]) && Source(t)[1..] == Source(t[1..]);
      assert s[0].to == Target(s)[0] == t[0].from;
      var rest := Compose(s[1..], t[1..]);
      var first := if s[0].Insert? then (if t[0].Delete? then [] else [Insert(t[0].to)])
                   else if t[0].Delete? then [Delete(s[0].from)] else [Change(s[0].from, t[0].to)];
      both := first + rest;
      ScriptsConcatenate(first, rest);
    }
  }

  /** Symmetry. */
  lemma DistanceIsSymmetric(a: seq<Word>, b: seq<Word>)
    ensures Distance(a, b) == Distance(b, a)
  {
    NoFartherBack(a, b);
    NoFartherBack(b, a);
  }

  lemma NoFartherBack(a: seq<Word>, b: seq<Word>)
    ensures Distance(b, a) <= Distance(a, b)
  {
    TableIsDistance(a, b);
    TableIsDistance(b, a);
    var script :| Turns(script, a, b) && Cost(script) == Distance(a, b);
    InverseTurnsBack(script);
    assert Turns(Inverse(script), b, a);
  }

  /** Triangle inequality. */
  lemma DistanceIsTriangular(a: seq<Word>, b: seq<Word>, c: seq<Word>)
    ensures Distance(a, c) <= Distance(a, b) + Distance(b, c)
  {
    TableIsDistance(a, b);
    TableIsDistance(b, c);
    TableIsDistance(a, c);
    var s :| Turns(s, a, b) && Cost(s) == Distance(a, b);
    var t :| Turns(t, b, c) && Cost(t) == Distance(b, c);
    var both := Compose(s, t);
    assert Turns(both, a, c);
  }

  lemma {:induction false} CellAtMostLonger(a: seq<Word>, b: seq<Word>, i: nat, j: nat)
    requires i <= |a| && j <= |b|
    ensures Cell(a, b, i, j) <= Max(i, j)
    decreases i
  {
    if i > 0 && j > 0 {
      CellIsLeast(a, b, i, j, Change(a[i - 1], b[j - 1]));
      CellAtMostLonger(a, b, i - 1, j - 1);
    }
  }

  // A script pays at least for the change of length, and a free one changes nothing.
  lemma {:induction false} ScriptPays(script: Script)
    ensures |Source(script)| - |Target(script)| <= Cost(script)
    ensures |Target(script)| - |Source(script)| <= Cost(script)
    ensures Cost(script) == 0 ==> Source(script) == Target(script)
  {
    if script != [] {
      ScriptPays(script[1..]);
    }
  }

  lemma {:induction false} KeepAll(a: seq<Word>) returns (script: Script)
    ensures Turns(script, a, a) && Cost(script) == 0
  {
    if a == [] {
      script := [];
    } else {
      var rest := KeepAll(a[1..]);
      script := [Change(a[0], a[0])] + rest;
      assert script[1..] == rest;
    }
  }

  /** Zero means equal texts; otherwise between the difference of the lengths and the longer length. */
  lemma DistanceBounds(a: seq<Word>, b: seq<Word>)
    ensures |a| - |b| <= Distance(a, b) && |b| - |a| <= Distance(a, b) && Distance(a, b) <= Max(|a|, |b|)
    ensures Distance(a, b) == 0 <==> a == b
  {
    CellAtMostLonger(a, b, |a|, |b|);
    TableIsDistance(a, b);
    var script :| Turns(script, a, b) && Cost(script) == Distance(a, b);
    ScriptPays(script);
    if a == b {
      var kept := KeepAll(a);
      assert Turns(kept, a, b);
    }
  }
}
