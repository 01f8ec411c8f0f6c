/**
 Glossary enforcement (`backend/app/services/glossary.py`): case-insensitive replacement
 of terms and aliases by one regular expression per glossary row. Case folding maps
 characters one by one.
 */
module Glossary {
  import opened Prelude

  type Fold = char -> char

  predicate SameFold(f: Fold, a: string, b: string) {
    |a| == |b| && forall i | 0 <= i < |a| :: f(a[i]) == f(b[i])
  }

  predicate MatchesAt(f: Fold, text: string, pos: nat, source: string) {
    pos + |source| <= |text| && forall i | 0 <= i < |source| :: f(text[pos + i]) == f(source[i])
  }

  // ---- the code ----

  predicate NoneEmpty(sources: seq<string>) {
    forall i | 0 <= i < |sources| :: sources[i] != ""
  }

  predicate Candidate(f: Fold, source: string, target: string) {
    source != "" && !SameFold(f, source, target)
  }

  function Candidates(f: Fold, sources: seq<string>, target: string): seq<string> {
    if sources == [] then []
    else
      Candidates(f, sources[..|sources| - 1], target) +
      (if Candidate(f, sources[|sources| - 1], target) then [sources[|sources| - 1]] else [])
  }

  // sorted(..., key=len, reverse=True) is stable: a new item goes behind those of its length.
  function Insert(sorted: seq<string>, item: string): seq<string> {
    if sorted == [] || |sorted[0]| < |item| then [item] + sorted else [sorted[0]] + Insert(sorted[1..], item)
  }

  function LongestFirst(items: seq<string>): seq<string> {
    if items == [] then [] else Insert(LongestFirst(items[..|items| - 1]), items[|items| - 1])
  }

  // The alternation a|b|c takes the first alternative that matches; the result is its length, 0 for none.
  function FirstMatch(f: Fold, pattern: seq<string>, text: string, pos: nat): (n: nat)
    requires NoneEmpty(pattern)
    ensures pos + n <= |text| || n == 0
  {
    if pattern == [] then 0
    else if MatchesAt(f, text, pos, pattern[0]) then |pattern[0]|
    else FirstMatch(f, pattern[1..], text, pos)
  }

  // re.sub from position pos on.
  function Substitute(f: Fold, pattern: seq<string>, target: string, text: string, pos: nat): string
    requires NoneEmpty(pattern)
    requires pos <= |text|
    decreases |text| - pos
  {
    if pos == |text| then ""
    else
      var n := FirstMatch(f, pattern, text, pos);
      if n > 0 then target + Substitute(f, pattern, target, text, pos + n)
      else [text[pos]] + Substitute(f, pattern, target, text, pos + 1)
  }

  // `sources` lists the source set in whatever order it is iterated.
  function ReplaceMany(f: Fold, sources: seq<string>, target: string, text: string): string {
    var candidates := LongestFirst(Candidates(f, sources, target));
    CandidatesAreNonEmpty(f, sources, target);
    if candidates == [] then text else Substitute(f, candidates, target, text, 0)
  }

  lemma {:induction false} InsertKeepsMembers(sorted: seq<string>, item: string)
    ensures forall s :: s in Insert(sorted, item) <==> s in sorted || s == item
  {
    if sorted != [] {
      InsertKeepsMembers(sorted[1..], item);
      assert sorted == [sorted[0]] + sorted[1..];
    }
  }

  lemma {:induction false} SortKeepsMembers(items: seq<string>)
    ensures forall s :: s in LongestFirst(items) <==> s in items
  {
    if items != [] {
      SortKeepsMembers(items[..|items| - 1]);
      InsertKeepsMembers(LongestFirst(items[..|items| - 1]), items[|items| - 1]);
      assert items == items[..|items| - 1] + [items[|items| - 1]];
    }
  }

  lemma {:induction false} CandidatesAre(f: Fold, sources: seq<string>, target: string)
    ensures forall s :: s in Candidates(f, sources, target) <==> s in sources && Candidate(f, s, target)
  {
    if sources != [] {
      CandidatesAre(f, sources[..|sources| - 1], target);
      assert sources == sources[..|sources| - 1] + [sources[|sources| - 1]];
    }
  }

  lemma CandidatesAreNonEmpty(f: Fold, sources: seq<string>, target: string)
    ensures forall s :: s in LongestFirst(Candidates(f, sources, target)) <==>
                        s in sources && Candidate(f, s, target)
    ensures NoneEmpty(LongestFirst(Candidates(f, sources, target)))
  {
    CandidatesAre(f, sources, target);
    SortKeepsMembers(Candidates(f, sources, target));
    var pattern := LongestFirst(Candidates(f, sources, target));
    forall i | 0 <= i < |pattern| ensures pattern[i] != "" {
      assert pattern[i] in pattern;
    }
  }

  // ---- the specification ----

  datatype Piece = Keep(c: char) | Hit(found: string)

  function Spelled(piece: Piece): string {
    match piece
    case Keep(c) => [c]
    case Hit(w) => w
  }

  function Shown(piece: Piece, target: string): string {
    if piece.Keep? then [piece.c] else target
  }

  function Original(pieces: seq<Piece>): string {
    if pieces == [] then "" else Spelled(pieces[0]) + Original(pieces[1..])
  }

  function Render(pieces: seq<Piece>, target: string): string {
    if pieces == [] then "" else Shown(pieces[0], target) + Render(pieces[1..], target)
  }

  // n is the length of the longest candidate matching at pos, 0 when none does.
  ghost predicate LongestMatch(f: Fold, candidates: set<string>, text: string, pos: nat, n: nat) {
    && (forall s | s in candidates && MatchesAt(f, text, pos, s) :: |s| <= n)
    && (n > 0 ==> exists s :: s in candidates && |s| == n && MatchesAt(f, text, pos, s))
  }

  // The length of the longest match at every position.
  ghost predicate IsLongest(f: Fold, candidates: set<string>, text: string, longest: seq<nat>) {
    Fits(text, longest) &&
    forall p | 0 <= p < |text| :: LongestMatch(f, candidates, text, p, longest[p])
  }

  predicate Fits(text: string, longest: seq<nat>) {
    |longest| == |text| && forall p | 0 <= p < |text| :: p + longest[p] <= |text|
  }

  function PieceAt(text: string, longest: seq<nat>, pos: nat): Piece
    requires Fits(text, longest) && pos < |text|
  {
    if longest[pos] > 0 then Hit(text[pos..pos + longest[pos]]) else Keep(text[pos])
  }

  function NextAt(text: string, longest: seq<nat>, pos: nat): (next: nat)
    requires Fits(text, longest) && pos < |text|
    ensures pos < next <= |text|
  {
    if longest[pos] > 0 then pos + longest[pos] else pos + 1
  }

  // A left-to-right scan that takes the longest match at each position.
  function Scan(text: string, longest: seq<nat>, pos: nat): seq<Piece>
    requires Fits(text, longest) && pos <= |text|
    decreases |text| - pos
  {
    if pos == |text| then []
    else [PieceAt(text, longest, pos)] + Scan(text, longest, NextAt(text, longest, pos))
  }

  // The candidates that the code builds its pattern from, as a set.
  ghost function CandidateSet(f: Fold, sources: seq<string>, target: string): set<string> {
    set s | s in sources && Candidate(f, s, target)
  }

  function Members(pattern: seq<string>): set<string> {
    set s | s in pattern
  }

  predicate LengthsFall(pattern: seq<string>) {
    forall i, j | 0 <= i < j < |pattern| :: |pattern[i]| >= |pattern[j]|
  }

  lemma {:induction false} InsertKeepsOrder(sorted: seq<string>, item: string)
    requires LengthsFall(sorted)
    ensures LengthsFall(Insert(sorted, item))
    ensures |item| <= |Insert(sorted, item)[0]|
    ensures sorted != [] ==> |Insert(sorted, item)[0]| <= Max(|item|, |sorted[0]|)
  {
    if sorted != [] && |sorted[0]| >= |item| {
      InsertKeepsOrder(sorted[1..], item);
      var rest := Insert(sorted[1..], item);
      InsertKeepsMembers(sorted[1..], item);
      forall j | 0 <= j < |rest| ensures |rest[j]| <= |sorted[0]| {
        assert rest[j] in rest;
      }
    }
  }

  lemma {:induction false} SortFalls(items: seq<string>)
    ensures LengthsFall(LongestFirst(items))
  {
    if items != [] {
      SortFalls(items[..|items| - 1]);
      InsertKeepsOrder(LongestFirst(items[..|items| - 1]), items[|items| - 1]);
    }
  }

  lemma {:induction false} FirstIsLongest(f: Fold, pattern: seq<string>, text: string, pos: nat)
    requires LengthsFall(pattern) && NoneEmpty(pattern)
    ensures LongestMatch(f, Members(pattern), text, pos, FirstMatch(f, pattern, text, pos))
  {
    if pattern != [] {
      if MatchesAt(f, text, pos, pattern[0]) {
        forall s | s in pattern ensures |s| <= |pattern[0]| {
          var i :| 0 <= i < |pattern| && pattern[i] == s;
        }
      } else {
        FirstIsLongest(f, pattern[1..], text, pos);
        var n := FirstMatch(f, pattern[1..], text, pos);
        if n > 0 {
          var s :| s in pattern[1..] && |s| == n && MatchesAt(f, text, pos, s);
          assert s in pattern;
        }
      }
    }
  }

  lemma RenderCons(piece: Piece, rest: seq<Piece>, target: string)
    ensures Render([piece] + rest, target) == Shown(piece, target) + Render(rest, target)
    ensures Original([piece] + rest) == Spelled(piece) + Original(rest)
  {
    assert ([piece] + rest)[1..] == rest;
  }

  lemma {:induction false} SubstituteScans(f: Fold, pattern: seq<string>, target: string, text: string,
                                           longest: seq<nat>, pos: nat)
    requires NoneEmpty(pattern) && pos <= |text| && Fits(text, longest)
    requires forall p | 0 <= p < |text| :: longest[p] == FirstMatch(f, pattern, text, p)
    ensures Substitute(f, pattern, target, text, pos) == Render(Scan(text, longest, pos), target)
    decreases |text| - pos
  {
    if pos < |text| {
      var next := NextAt(text, longest, pos);
      SubstituteScans(f, pattern, target, text, longest, next);
      RenderCons(PieceAt(text, longest, pos), Scan(text, longest, next), target);
    }
  }

  lemma PieceSpells(text: string, longest: seq<nat>, pos: nat)
    requires Fits(text, longest) && pos < |text|
    ensures text[pos..] == Spelled(PieceAt(text, longest, pos)) + text[NextAt(text, longest, pos)..]
  {
    assert Spelled(PieceAt(text, longest, pos)) == text[pos..NextAt(text, longest, pos)];
  }

  /** The pieces of a scan spell the text: everything unmatched is kept, in order. */
  lemma {:induction false} ScanSpellsText(text: string, longest: seq<nat>, pos: nat)
    requires pos <= |text| && Fits(text, longest)
    ensures Original(Scan(text, longest, pos)) == text[pos..]
    decreases |text| - pos
  {
    if pos < |text| {
      var next := NextAt(text, longest, pos);
      ScanSpellsText(text, longest, next);
      RenderCons(PieceAt(text, longest, pos), Scan(text, longest, next), "");
      PieceSpells(text, longest, pos);
    }
  }

  lemma LongestIsUnique(f: Fold, candidates: set<string>, text: string, a: seq<nat>, b: seq<nat>)
    requires IsLongest(f, candidates, text, a) && IsLongest(f, candidates, text, b)
    ensures a == b
  {
    forall p | 0 <= p < |text| ensures a[p] == b[p] {
      assert LongestMatch(f, candidates, text, p, a[p]) && LongestMatch(f, candidates, text, p, b[p]);
    }
  }

  lemma LongestOfPattern(f: Fold, pattern: seq<string>, text: string) returns (longest: seq<nat>)
    requires LengthsFall(pattern) && NoneEmpty(pattern)
    ensures IsLongest(f, Members(pattern), text, longest)
    ensures forall p | 0 <= p < |text| :: longest[p] == FirstMatch(f, pattern, text, p)
  {
    longest := seq(|text|, p requires 0 <= p < |text| => FirstMatch(f, pattern, text, p));
    forall p | 0 <= p < |text| ensures LongestMatch(f, Members(pattern), text, p, longest[p]) {
      FirstIsLongest(f, pattern, text, p);
    }
  }

  lemma {:induction false} ScanOfNothing(text: string, longest: seq<nat>, pos: nat, target: string)
    requires pos <= |text| && Fits(text, longest) && forall p | pos <= p < |text| :: longest[p] == 0
    ensures Render(Scan(text, longest, pos), target) == text[pos..]
    decreases |text| - pos
  {
    if pos < |text| {
      ScanOfNothing(text, longest, pos + 1, target);
      RenderCons(Keep(text[pos]), Scan(text, longest, pos + 1), target);
      assert text[pos..] == [text[pos]] + text[pos + 1..];
    }
  }

  /** `_replace_many` renders the leftmost-longest scan for its candidate set. */
  lemma ReplacementIsScan(f: Fold, sources: seq<string>, target: string, text: string) returns (longest: seq<nat>)
    ensures IsLongest(f, CandidateSet(f, sources, target), text, longest)
    ensures ReplaceMany(f, sources, target, text) == Render(Scan(text, longest, 0), target)
  {
    var pattern := LongestFirst(Candidates(f, sources, target));
    CandidatesAreNonEmpty(f, sources, target);
    SortFalls(Candidates(f, sources, target));
    assert Members(pattern) == CandidateSet(f, sources, target);
    longest := LongestOfPattern(f, pattern, text);
    if pattern == [] {
      ScanOfNothing(text, longest, 0, target);
    } else {
      SubstituteScans(f, pattern, target, text, longest, 0);
    }
  }

  /** The result does not depend on the order in which the source set is iterated, nor on repetitions. */
  lemma OrderIsIrrelevant(f: Fold, sources: seq<string>, others: seq<string>, target: string, text: string)
    requires forall s :: s in sources <==> s in others
    ensures ReplaceMany(f, sources, target, text) == ReplaceMany(f, others, target, text)
  {
    var a := ReplacementIsScan(f, sources, target, text);
    var b := ReplacementIsScan(f, others, target, text);
    assert CandidateSet(f, sources, target) == CandidateSet(f, others, target);
    LongestIsUnique(f, CandidateSet(f, sources, target), text, a, b);
  }

  // ---- what is left after a replacement ----

  ghost predicate Occurs(f: Fold, text: string, source: string) {
    exists pos: nat :: MatchesAt(f, text, pos, source)
  }

  // A copy of the source laid `at` characters into the target (or starting before it) shares
  // some position with the target and agrees with it on all of them.
  predicate Overlays(f: Fold, target: string, source: string, at: int) {
    -|source| < at < |target| &&
    forall i | 0 <= i < |target| && 0 <= i - at < |source| :: f(target[i]) == f(source[i - at])
  }

  // The source can neither lie inside the target nor straddle one of its ends.
  predicate Apart(f: Fold, target: string, source: string) {
    forall at | -|source| < at < |target| :: !Overlays(f, target, source, at)
  }

  /** In particular a target that shares no folded character with the source is apart from it. */
  lemma DisjointIsApart(f: Fold, target: string, source: string)
    requires target != "" && source != ""
    requires forall i, j | 0 <= i < |target| && 0 <= j < |source| :: f(target[i]) != f(source[j])
    ensures Apart(f, target, source)
  {
    forall at | -|source| < at < |target| ensures !Overlays(f, target, source, at) {
      var i := Max(0, at);
      assert f(target[i]) != f(source[i - at]);
    }
  }

  lemma MatchInTail(f: Fold, shown: string, tail: string, rest: string, at: nat)
    requires at >= |shown| && MatchesAt(f, shown + tail, at, rest)
    ensures MatchesAt(f, tail, at - |shown|, rest)
  {
    forall i | 0 <= i < |rest| ensures f(tail[at - |shown| + i]) == f(rest[i]) {
      assert (shown + tail)[at + i] == tail[at - |shown| + i];
    }
  }

  lemma MatchAtKept(f: Fold, c: char, tail: string, source: string, k: nat)
    requires k < |source| && MatchesAt(f, [c] + tail, 0, source[k..])
    ensures f(c) == f(source[k]) && MatchesAt(f, tail, 0, source[k + 1..])
  {
    var rest, next := source[k..], source[k + 1..];
    assert f(([c] + tail)[0 + 0]) == f(rest[0]);
    forall i | 0 <= i < |next| ensures f(tail[0 + i]) == f(next[i]) {
      assert ([c] + tail)[0 + (i + 1)] == tail[i] && f(([c] + tail)[0 + (i + 1)]) == f(rest[i + 1]);
    }
  }

  // What a match of source[k..] in a rendering says about its first piece and about the rest.
  lemma MatchSplits(f: Fold, pieces: seq<Piece>, target: string, source: string, k: nat, at: nat)
    requires pieces != [] && k < |source| && (k > 0 ==> at == 0) && target != ""
    requires MatchesAt(f, Render(pieces, target), at, source[k..])
    ensures var shown, tail := Shown(pieces[0], target), Render(pieces[1..], target);
            if at >= |shown| then MatchesAt(f, tail, at - |shown|, source[k..])
            else if pieces[0].Keep? then f(pieces[0].c) == f(source[k]) && MatchesAt(f, tail, 0, source[k + 1..])
            else Overlays(f, target, source, at - k)
  {
    var shown, tail := Shown(pieces[0], target), Render(pieces[1..], target);
    if at >= |shown| {
      MatchInTail(f, shown, tail, source[k..], at);
    } else if pieces[0].Keep? {
      MatchAtKept(f, pieces[0].c, tail, source, k);
    } else {
      MatchOverlays(f, target, tail, source, k, at);
    }
  }

  lemma MatchOverlays(f: Fold, target: string, tail: string, source: string, k: nat, at: nat)
    requires k < |source| && (k > 0 ==> at == 0) && at < |target|
    requires MatchesAt(f, target + tail, at, source[k..])
    ensures Overlays(f, target, source, at - k)
  {
    forall i | 0 <= i < |target| && 0 <= i - (at - k) < |source|
      ensures f(target[i]) == f(source[i - (at - k)])
    {
      assert f((target + tail)[at + (i - at)]) == f(source[k..][i - at]);
    }
  }

  // What is found of a source at the front of a rendering apart from it was in the text already.
  lemma {:induction false} FrontIsText(f: Fold, text: string, longest: seq<nat>, pos: nat,
                                       target: string, source: string, k: nat)
    requires pos <= |text| && Fits(text, longest) && target != "" && Apart(f, target, source)
    requires k <= |source| && MatchesAt(f, Render(Scan(text, longest, pos), target), 0, source[k..])
    ensures MatchesAt(f, text, pos, source[k..]) && (k < |source| ==> pos < |text| && longest[pos] == 0)
    decreases |source| - k
  {
    if k < |source| {
      MatchSplits(f, Scan(text, longest, pos), target, source, k, 0);
      FrontIsText(f, text, longest, pos + 1, target, source, k + 1);
      forall i | 0 <= i < |source[k..]| ensures f(text[pos + i]) == f(source[k..][i]) {
        if i > 0 {
          assert f(text[pos + 1 + (i - 1)]) == f(source[k + 1..][i - 1]);
        }
      }
    }
  }

  lemma {:induction false} NoneLeft(f: Fold, candidates: set<string>, text: string, longest: seq<nat>, pos: nat,
                                    target: string, source: string, at: nat)
    requires pos <= |text| && IsLongest(f, candidates, text, longest)
    requires target != "" && Apart(f, target, source) && source in candidates && source != ""
    ensures !MatchesAt(f, Render(Scan(text, longest, pos), target), at, source)
    decreases |text| - pos
  {
    var pieces := Scan(text, longest, pos);
    assert source[0..] == source;
    if pos < |text| && MatchesAt(f, Render(pieces, target), at, source) {
      MatchSplits(f, pieces, target, source, 0, at);
      var shown := Shown(pieces[0], target);
      var next := NextAt(text, longest, pos);
      if at >= |shown| {
        assert pieces[1..] == Scan(text, longest, next);
        NoneLeft(f, candidates, text, longest, next, target, source, at - |shown|);
      } else {
        FrontIsText(f, text, longest, pos, target, source, 0);
      }
    }
  }

  /** Text in which no candidate occurs is returned unchanged. */
  lemma UnmatchedTextIsKept(f: Fold, sources: seq<string>, target: string, text: string)
    requires forall s | s in CandidateSet(f, sources, target) :: !Occurs(f, text, s)
    ensures ReplaceMany(f, sources, target, text) == text
  {
    var longest := ReplacementIsScan(f, sources, target, text);
    forall p | 0 <= p < |text| ensures longest[p] == 0 {
      assert LongestMatch(f, CandidateSet(f, sources, target), text, p, longest[p]);
    }
    ScanOfNothing(text, longest, 0, target);
  }

  /**
   When no source the code looks for can lie in the target or straddle one of its ends, one pass
   removes every occurrence of those sources and a second pass changes nothing.
   */
  lemma ApartTargetSettles(f: Fold, sources: seq<string>, target: string, text: string)
    requires target != ""
    requires forall s | s in CandidateSet(f, sources, target) :: Apart(f, target, s)
    ensures var once := ReplaceMany(f, sources, target, text);
            && (forall s | s in CandidateSet(f, sources, target) :: !Occurs(f, once, s))
            && ReplaceMany(f, sources, target, once) == once
  {
    var once := ReplaceMany(f, sources, target, text);
    var longest := ReplacementIsScan(f, sources, target, text);
    forall s, at: nat | s in CandidateSet(f, sources, target) ensures !MatchesAt(f, once, at, s) {
      NoneLeft(f, CandidateSet(f, sources, target), text, longest, 0, target, s, at);
    }
    UnmatchedTextIsKept(f, sources, target, once);
  }

  // ---- targets their sources can lie in or straddle ----

  // Every source looked for is at most as long as the target.
  ghost predicate NoneLonger(f: Fold, sources: seq<string>, target: string) {
    forall s | s in CandidateSet(f, sources, target) :: |s| <= |target|
  }

  lemma {:induction false} NoShorter(text: string, longest: seq<nat>, pos: nat, target: string)
    requires Fits(text, longest) && pos <= |text|
    requires forall p | 0 <= p < |text| :: longest[p] <= |target|
    ensures |Render(Scan(text, longest, pos), target)| >= |text| - pos
    decreases |text| - pos
  {
    if pos < |text| {
      NoShorter(text, longest, NextAt(text, longest, pos), target);
    }
  }

  // What is found at a position folds like a source, so never like the target.
  lemma FoundIsNotTarget(f: Fold, sources: seq<string>, target: string, text: string, longest: seq<nat>, pos: nat)
    requires IsLongest(f, CandidateSet(f, sources, target), text, longest) && pos < |text| && longest[pos] > 0
    ensures text[pos..pos + longest[pos]] != target
  {
    assert LongestMatch(f, CandidateSet(f, sources, target), text, pos, longest[pos]);
    var s :| s in CandidateSet(f, sources, target) && |s| == longest[pos] && MatchesAt(f, text, pos, s);
    var found := text[pos..pos + longest[pos]];
    if found == target {
      forall i | 0 <= i < |s| ensures f(s[i]) == f(target[i]) {
        assert f(text[pos + i]) == f(s[i]) && found[i] == text[pos + i];
      }
      assert SameFold(f, s, target);
      assert false;
    }
  }

  // Nothing found is longer than the target, nor is it the target.
  ghost predicate HitsDiffer(text: string, longest: seq<nat>, target: string) {
    Fits(text, longest) &&
    forall p | 0 <= p < |text| :: longest[p] <= |target| && (longest[p] > 0 ==> text[p..p + longest[p]] != target)
  }

  // A rendering that starts with a hit is not the text it renders.
  lemma HitIsNotFixed(text: string, longest: seq<nat>, pos: nat, target: string)
    requires HitsDiffer(text, longest, target) && pos < |text| && longest[pos] > 0
    ensures Render(Scan(text, longest, pos), target) != text[pos..]
  {
    var next := NextAt(text, longest, pos);
    var tail := Render(Scan(text, longest, next), target);
    RenderCons(PieceAt(text, longest, pos), Scan(text, longest, next), target);
    NoShorter(text, longest, next, target);
    assert (target + tail)[..|target|] == target;
    assert longest[pos] == |target| ==> text[pos..][..|target|] == text[pos..pos + longest[pos]];
  }

  lemma KeepIsFixed(text: string, longest: seq<nat>, pos: nat, target: string)
    requires Fits(text, longest) && pos < |text| && longest[pos] == 0
    requires Render(Scan(text, longest, pos), target) == text[pos..]
    ensures Render(Scan(text, longest, pos + 1), target) == text[pos + 1..]
  {
    var tail := Render(Scan(text, longest, pos + 1), target);
    RenderCons(Keep(text[pos]), Scan(text, longest, pos + 1), target);
    assert ([text[pos]] + tail)[1..] == tail;
    assert text[pos..][1..] == text[pos + 1..];
  }

  // A scan that renders the text it scans has no hits.
  lemma {:induction false} FixedHasNoHits(text: string, longest: seq<nat>, pos: nat, target: string)
    requires HitsDiffer(text, longest, target) && pos <= |text|
    requires Render(Scan(text, longest, pos), target) == text[pos..]
    ensures forall p | pos <= p < |text| :: longest[p] == 0
    decreases |text| - pos
  {
    if pos < |text| {
      if longest[pos] > 0 {
        HitIsNotFixed(text, longest, pos, target);
        assert false;
      }
      KeepIsFixed(text, longest, pos, target);
      FixedHasNoHits(text, longest, pos + 1, target);
    }
  }

  lemma ScanHitsDiffer(f: Fold, sources: seq<string>, target: string, text: string, longest: seq<nat>)
    requires IsLongest(f, CandidateSet(f, sources, target), text, longest) && NoneLonger(f, sources, target)
    ensures HitsDiffer(text, longest, target)
  {
    forall p | 0 <= p < |text|
      ensures longest[p] <= |target| && (longest[p] > 0 ==> text[p..p + longest[p]] != target)
    {
      assert LongestMatch(f, CandidateSet(f, sources, target), text, p, longest[p]);
      if longest[p] > 0 {
        FoundIsNotTarget(f, sources, target, text, longest, p);
      }
    }
  }

  lemma LongestAtMatch(f: Fold, candidates: set<string>, text: string, longest: seq<nat>, at: nat, s: string)
    requires IsLongest(f, candidates, text, longest) && s in candidates && s != "" && MatchesAt(f, text, at, s)
    ensures at < |text| && longest[at] >= |s|
  {
    assert LongestMatch(f, candidates, text, at, longest[at]);
  }

  /** When no source looked for is longer than the target, a pass is harmless exactly on texts without any. */
  lemma FixedExactly(f: Fold, sources: seq<string>, target: string, text: string)
    requires NoneLonger(f, sources, target)
    ensures ReplaceMany(f, sources, target, text) == text <==>
            forall s | s in CandidateSet(f, sources, target) :: !Occurs(f, text, s)
  {
    if ReplaceMany(f, sources, target, text) == text {
      var longest := ReplacementIsScan(f, sources, target, text);
      ScanHitsDiffer(f, sources, target, text, longest);
      assert text[0..] == text;
      FixedHasNoHits(text, longest, 0, target);
      forall s, at: nat | s in CandidateSet(f, sources, target) ensures !MatchesAt(f, text, at, s) {
        if MatchesAt(f, text, at, s) {
          LongestAtMatch(f, CandidateSet(f, sources, target), text, longest, at, s);
          assert false;
        }
      }
    } else if forall s | s in CandidateSet(f, sources, target) :: !Occurs(f, text, s) {
      UnmatchedTextIsKept(f, sources, target, text);
    }
  }

  lemma OccursBehind(f: Fold, front: string, tail: string, source: string)
    requires Occurs(f, tail, source)
    ensures Occurs(f, front + tail, source)
  {
    var at: nat :| MatchesAt(f, tail, at, source);
    forall i | 0 <= i < |source| ensures f((front + tail)[|front| + at + i]) == f(source[i]) {
      assert (front + tail)[|front| + at + i] == tail[at + i];
    }
    assert MatchesAt(f, front + tail, |front| + at, source);
  }

  // A hit leaves the target, and all that lies in it, in the rendering.
  lemma {:induction false} HitShowsTarget(f: Fold, text: string, longest: seq<nat>, pos: nat, at: nat,
                                          target: string, source: string)
    requires Fits(text, longest) && pos <= at < |text| && longest[at] > 0 && Occurs(f, target, source)
    ensures Occurs(f, Render(Scan(text, longest, pos), target), source)
    decreases |text| - pos
  {
    var next := NextAt(text, longest, pos);
    var tail := Render(Scan(text, longest, next), target);
    RenderCons(PieceAt(text, longest, pos), Scan(text, longest, next), target);
    if longest[pos] > 0 {
      var i: nat :| MatchesAt(f, target, i, source);
      assert MatchesAt(f, target + tail, i, source);
    } else {
      HitShowsTarget(f, text, longest, next, at, target, source);
      OccursBehind(f, [text[pos]], tail, source);
    }
  }

  /**
   A target that contains a source of its own row, such as the preferred spelling "Codex CLI" of the term
   "Codex", is found again by every pass: when none of the row's sources is longer than it, a second
   pass is harmless exactly on texts without any of them.
   */
  lemma ContainingTargetNeverSettles(f: Fold, sources: seq<string>, target: string, inner: string, text: string)
    requires NoneLonger(f, sources, target)
    requires inner in CandidateSet(f, sources, target) && Occurs(f, target, inner)
    ensures var once := ReplaceMany(f, sources, target, text);
            ReplaceMany(f, sources, target, once) == once <==>
            forall s | s in CandidateSet(f, sources, target) :: !Occurs(f, text, s)
  {
    var once := ReplaceMany(f, sources, target, text);
    if s :| s in CandidateSet(f, sources, target) && Occurs(f, text, s) {
      var longest := ReplacementIsScan(f, sources, target, text);
      var at: nat :| MatchesAt(f, text, at, s);
      assert LongestMatch(f, CandidateSet(f, sources, target), text, at, longest[at]);
      HitShowsTarget(f, text, longest, 0, at, target, inner);
      FixedExactly(f, sources, target, once);
    } else {
      UnmatchedTextIsKept(f, sources, target, text);
    }
  }

  // ---- exactly when a row with one source settles ----

  // The first k characters of the source, put before it, make the source match earlier on.
  predicate Recurs(f: Fold, source: string, k: int)
    requires 0 <= k <= |source|
  {
    exists j :: 0 <= j < k && RecursAt(f, source, k, j)
  }

  predicate RecursAt(f: Fold, source: string, k: int, j: nat)
    requires 0 <= k <= |source|
  {
    MatchesAt(f, source[..k] + source, j, source)
  }

  /**
   The source does not start inside the target; and where it could reach into the target from the left,
   with its first k characters before it, these would not have been kept by the scan.
   */
  predicate Safe(f: Fold, target: string, source: string) {
    forall at | -|source| < at < |target| && Overlays(f, target, source, at) :: at < 0 && Recurs(f, source, -at)
  }

  // The characters from `from` to pos were kept, and fold like the first ones of the source.
  predicate KeptBefore(f: Fold, text: string, longest: seq<nat>, from: nat, pos: nat, source: string)
    requires Fits(text, longest)
  {
    && from <= pos <= |text| && pos - from <= |source|
    && forall p | from <= p < pos :: longest[p] == 0 && f(text[p]) == f(source[p - from])
  }

  // So an earlier match would have been a hit instead.
  lemma EarlierMatch(f: Fold, text: string, from: nat, pos: nat, source: string, j: nat)
    requires from < pos <= |text| && pos - from <= |source|
    requires forall p | from <= p < pos :: f(text[p]) == f(source[p - from])
    requires MatchesAt(f, text, pos, source) && RecursAt(f, source, pos - from, j) && j < pos - from
    ensures MatchesAt(f, text, from + j, source)
  {
    var k := pos - from;
    var both := source[..k] + source;
    forall i | 0 <= i < |source| ensures f(text[from + j + i]) == f(source[i]) {
      assert f(both[j + i]) == f(source[i]);
      if j + i < k {
        var p := from + j + i;
        assert f(text[p]) == f(source[p - from]);
      } else {
        assert both[j + i] == source[j + i - k];
        assert f(text[pos + (j + i - k)]) == f(source[j + i - k]);
      }
    }
  }

  lemma HitMatches(f: Fold, source: string, text: string, longest: seq<nat>, pos: nat)
    requires IsLongest(f, {source}, text, longest) && pos < |text| && longest[pos] > 0
    ensures longest[pos] == |source| && MatchesAt(f, text, pos, source)
  {
    assert LongestMatch(f, {source}, text, pos, longest[pos]);
  }

  // What was kept of a source so far does not reach into the target of a hit.
  predicate ReachOk(f: Fold, text: string, longest: seq<nat>, from: nat, pos: nat, target: string, source: string)
    requires Fits(text, longest)
  {
    KeptBefore(f, text, longest, from, pos, source) && pos - from < |source| && pos < |text| && longest[pos] > 0 ==>
      !Overlays(f, target, source, from - pos)
  }

  // No source is kept whole, none reaches into a target from the left, none starts inside one.
  ghost predicate Blocked(f: Fold, text: string, longest: seq<nat>, target: string, source: string) {
    && Fits(text, longest)
    && (forall p | 0 <= p < |text| && longest[p] == 0 :: !MatchesAt(f, text, p, source))
    && (forall from: nat, pos: nat :: ReachOk(f, text, longest, from, pos, target, source))
    && (forall at | 0 <= at < |target| :: !Overlays(f, target, source, at))
  }

  lemma SafeRecurs(f: Fold, target: string, source: string, k: int)
    requires Safe(f, target, source) && 0 <= k < |source| && target != "" && Overlays(f, target, source, -k)
    ensures 0 < k && Recurs(f, source, k)
  {
  }

  // What the scan kept before a hit does not recur in front of it.
  lemma KeptDoesNotRecur(f: Fold, text: string, longest: seq<nat>, from: nat, pos: nat, source: string)
    requires IsLongest(f, {source}, text, longest) && source != ""
    requires KeptBefore(f, text, longest, from, pos, source) && pos < |text| && longest[pos] > 0
    ensures !Recurs(f, source, pos - from)
  {
    if Recurs(f, source, pos - from) {
      var j :| 0 <= j < pos - from && RecursAt(f, source, pos - from, j);
      HitMatches(f, source, text, longest, pos);
      EarlierMatch(f, text, from, pos, source, j);
      LongestAtMatch(f, {source}, text, longest, from + j, source);
      assert false;
    }
  }

  lemma SafeReach(f: Fold, text: string, longest: seq<nat>, from: nat, pos: nat, target: string, source: string)
    requires IsLongest(f, {source}, text, longest) && source != "" && target != "" && Safe(f, target, source)
    ensures ReachOk(f, text, longest, from, pos, target, source)
  {
    if KeptBefore(f, text, longest, from, pos, source) && pos - from < |source| && pos < |text| && longest[pos] > 0 {
      KeptDoesNotRecur(f, text, longest, from, pos, source);
      if Overlays(f, target, source, from - pos) {
        SafeRecurs(f, target, source, pos - from);
        assert false;
      }
    }
  }

  lemma SafeBlocks(f: Fold, text: string, longest: seq<nat>, target: string, source: string)
    requires IsLongest(f, {source}, text, longest) && source != "" && target != "" && Safe(f, target, source)
    ensures Blocked(f, text, longest, target, source)
  {
    forall p | 0 <= p < |text| && longest[p] == 0 ensures !MatchesAt(f, text, p, source) {
      if MatchesAt(f, text, p, source) {
        LongestAtMatch(f, {source}, text, longest, p, source);
        assert false;
      }
    }
    forall from: nat, pos: nat ensures ReachOk(f, text, longest, from, pos, target, source) {
      SafeReach(f, text, longest, from, pos, target, source);
    }
  }

  lemma KeptWhole(f: Fold, text: string, longest: seq<nat>, from: nat, pos: nat, source: string)
    requires Fits(text, longest) && KeptBefore(f, text, longest, from, pos, source) && pos - from == |source|
    ensures MatchesAt(f, text, from, source)
  {
    forall i | 0 <= i < |source| ensures f(text[from + i]) == f(source[i]) {
      var p := from + i;
      assert f(text[p]) == f(source[p - from]);
    }
  }

  lemma BlockedReach(f: Fold, text: string, longest: seq<nat>, from: nat, pos: nat, target: string, source: string)
    requires Blocked(f, text, longest, target, source) && KeptBefore(f, text, longest, from, pos, source)
    requires pos - from < |source| && pos < |text| && longest[pos] > 0
    ensures !Overlays(f, target, source, from - pos)
  {
    assert ReachOk(f, text, longest, from, pos, target, source);
  }

  lemma {:induction false} NoFront(f: Fold, text: string, longest: seq<nat>, from: nat, pos: nat, target: string,
                                   source: string)
    requires Blocked(f, text, longest, target, source) && source != "" && target != ""
    requires from < pos && KeptBefore(f, text, longest, from, pos, source)
    ensures !MatchesAt(f, Render(Scan(text, longest, pos), target), 0, source[pos - from..])
    decreases |text| - pos
  {
    var k := pos - from;
    if MatchesAt(f, Render(Scan(text, longest, pos), target), 0, source[k..]) {
      if k == |source| {
        KeptWhole(f, text, longest, from, pos, source);
        assert false;
      }
      if longest[pos] > 0 {
        BlockedReach(f, text, longest, from, pos, target, source);
      }
      MatchSplits(f, Scan(text, longest, pos), target, source, k, 0);
      NoFront(f, text, longest, from, pos + 1, target, source);
    }
  }

  lemma {:induction false} BlockedLeavesNone(f: Fold, text: string, longest: seq<nat>, pos: nat, target: string,
                                             source: string, at: nat)
    requires Blocked(f, text, longest, target, source) && source != "" && target != "" && pos <= |text|
    ensures !MatchesAt(f, Render(Scan(text, longest, pos), target), at, source)
    decreases |text| - pos
  {
    assert source[0..] == source;
    if pos < |text| && MatchesAt(f, Render(Scan(text, longest, pos), target), at, source) {
      var shown := Shown(PieceAt(text, longest, pos), target);
      MatchSplits(f, Scan(text, longest, pos), target, source, 0, at);
      if at >= |shown| {
        BlockedLeavesNone(f, text, longest, NextAt(text, longest, pos), target, source, at - |shown|);
      } else if longest[pos] == 0 {
        NoFront(f, text, longest, pos, pos + 1, target, source);
      }
    }
  }

  lemma {:induction false} KeptThen(text: string, longest: seq<nat>, pos: nat, n: nat, target: string)
    requires Fits(text, longest) && pos <= n <= |text| && forall p | pos <= p < n :: longest[p] == 0
    ensures Render(Scan(text, longest, pos), target) == text[pos..n] + Render(Scan(text, longest, n), target)
    decreases n - pos
  {
    var tail := Render(Scan(text, longest, n), target);
    if pos < n {
      KeptThen(text, longest, pos + 1, n, target);
      RenderCons(Keep(text[pos]), Scan(text, longest, pos + 1), target);
      assert text[pos..n] == [text[pos]] + text[pos + 1..n];
      Associate([text[pos]], text[pos + 1..n], tail);
    } else {
      assert text[pos..n] + tail == tail;
    }
  }

  lemma Associate(a: string, b: string, c: string)
    ensures a + (b + c) == (a + b) + c
  {
  }

  lemma HitThen(text: string, longest: seq<nat>, n: nat, target: string)
    requires Fits(text, longest) && n < |text| && longest[n] > 0
    requires forall p | n + longest[n] <= p < |text| :: longest[p] == 0
    ensures Render(Scan(text, longest, n), target) == target + text[n + longest[n]..]
  {
    var rest := n + longest[n];
    RenderCons(PieceAt(text, longest, n), Scan(text, longest, rest), target);
    KeptThen(text, longest, rest, |text|, target);
    assert text[rest..|text|] + "" == text[rest..];
  }

  lemma OneHitRenders(text: string, longest: seq<nat>, n: nat, target: string)
    requires Fits(text, longest) && n < |text| && longest[n] > 0
    requires forall p | 0 <= p < n :: longest[p] == 0
    requires forall p | n + longest[n] <= p < |text| :: longest[p] == 0
    ensures Render(Scan(text, longest, 0), target) == text[..n] + target + text[n + longest[n]..]
  {
    KeptThen(text, longest, 0, n, target);
    HitThen(text, longest, n, target);
    assert text[0..n] == text[..n];
    Associate(text[..n], target, text[n + longest[n]..]);
  }

  lemma LongestOfOne(f: Fold, source: string, text: string, longest: seq<nat>, p: nat)
    requires IsLongest(f, {source}, text, longest) && source != "" && p < |text|
    ensures longest[p] == if MatchesAt(f, text, p, source) then |source| else 0
  {
    assert LongestMatch(f, {source}, text, p, longest[p]);
  }

  lemma OnlyHit(f: Fold, source: string, text: string, longest: seq<nat>, n: nat)
    requires IsLongest(f, {source}, text, longest) && source != "" && MatchesAt(f, text, n, source)
    requires forall p | 0 <= p < n :: !MatchesAt(f, text, p, source)
    requires |text| < n + 2 * |source|
    ensures longest[n] == |source| && forall p | 0 <= p < n || n + |source| <= p < |text| :: longest[p] == 0
  {
    LongestOfOne(f, source, text, longest, n);
    forall p | 0 <= p < n || n + |source| <= p < |text| ensures longest[p] == 0 {
      LongestOfOne(f, source, text, longest, p);
    }
  }

  // What becomes of a text whose first hit is at n, with too little behind it for another.
  lemma OneHit(f: Fold, source: string, target: string, text: string, n: nat)
    requires Candidate(f, source, target) && MatchesAt(f, text, n, source)
    requires forall p | 0 <= p < n :: !MatchesAt(f, text, p, source)
    requires |text| < n + 2 * |source|
    ensures ReplaceMany(f, [source], target, text) == text[..n] + target + text[n + |source|..]
  {
    var longest := ReplacementIsScan(f, [source], target, text);
    assert CandidateSet(f, [source], target) == {source};
    OnlyHit(f, source, text, longest, n);
    OneHitRenders(text, longest, n, target);
  }

  ghost predicate Settles(f: Fold, source: string, target: string, text: string) {
    var once := ReplaceMany(f, [source], target, text);
    ReplaceMany(f, [source], target, once) == once
  }

  // A source that starts inside the target is found again behind the source itself.
  lemma InsideWitness(f: Fold, source: string, target: string, at: int) returns (text: string)
    requires Candidate(f, source, target) && |source| <= |target|
    requires 0 <= at < |target| && Overlays(f, target, source, at)
    ensures !Settles(f, source, target, text)
  {
    var behind := if at + |source| > |target| then source[|target| - at..] else "";
    text := source + behind;
    OneHit(f, source, target, text, 0);
    var once := target + behind;
    assert text[..0] + target + text[0 + |source|..] == once;
    forall i | 0 <= i < |source| ensures f(once[at + i]) == f(source[i]) {
      if at + i < |target| {
        assert f(target[at + i]) == f(source[at + i - at]);
      } else {
        assert once[at + i] == behind[at + i - |target|];
      }
    }
    assert MatchesAt(f, once, at, source);
    OneSource(f, source, target);
    FixedExactly(f, [source], target, once);
  }

  // One that reaches into it from the left is found again behind the characters it reaches from.
  lemma LeftWitness(f: Fold, source: string, target: string, k: int) returns (text: string)
    requires Candidate(f, source, target) && |source| <= |target|
    requires 0 < k < |source| && Overlays(f, target, source, -k) && !Recurs(f, source, k)
    ensures !Settles(f, source, target, text)
  {
    text := source[..k] + source;
    forall i | 0 <= i < |source| ensures f(text[k + i]) == f(source[i]) {
      assert text[k + i] == source[i];
    }
    assert MatchesAt(f, text, k, source);
    forall j | 0 <= j < k ensures !MatchesAt(f, text, j, source) {
      assert !RecursAt(f, source, k, j);
    }
    OneHit(f, source, target, text, k);
    var once := source[..k] + target;
    assert text[..k] + target + text[k + |source|..] == once;
    forall i | 0 <= i < |source| ensures f(once[0 + i]) == f(source[i]) {
      if i >= k {
        var p := i - k;
        assert f(target[p]) == f(source[p - (-k)]);
      }
    }
    assert MatchesAt(f, once, 0, source);
    OneSource(f, source, target);
    FixedExactly(f, [source], target, once);
  }

  lemma OneSource(f: Fold, source: string, target: string)
    requires Candidate(f, source, target) && |source| <= |target|
    ensures CandidateSet(f, [source], target) == {source} && NoneLonger(f, [source], target)
  {
  }

  lemma SafeSettles(f: Fold, source: string, target: string, text: string)
    requires Candidate(f, source, target) && |source| <= |target| && Safe(f, target, source)
    ensures Settles(f, source, target, text)
  {
    OneSource(f, source, target);
    var longest := ReplacementIsScan(f, [source], target, text);
    var once := ReplaceMany(f, [source], target, text);
    SafeBlocks(f, text, longest, target, source);
    forall at: nat ensures !MatchesAt(f, once, at, source) {
      BlockedLeavesNone(f, text, longest, 0, target, source, at);
    }
    FixedExactly(f, [source], target, once);
  }

  lemma UnsafeFails(f: Fold, source: string, target: string) returns (text: string)
    requires Candidate(f, source, target) && |source| <= |target| && !Safe(f, target, source)
    ensures !Settles(f, source, target, text)
  {
    var at :| -|source| < at < |target| && Overlays(f, target, source, at) && !(at < 0 && Recurs(f, source, -at));
    if at >= 0 {
      text := InsideWitness(f, source, target, at);
    } else {
      text := LeftWitness(f, source, target, -at);
    }
  }

  /**
   A row with one source, not longer than its target, settles after one pass on every text exactly
   when it is safe: a condition on source and target alone.
   */
  lemma SettlesExactly(f: Fold, source: string, target: string)
    requires Candidate(f, source, target) && |source| <= |target|
    ensures (forall text :: Settles(f, source, target, text)) <==> Safe(f, target, source)
  {
    if Safe(f, target, source) {
      forall text ensures Settles(f, source, target, text) {
        SafeSettles(f, source, target, text);
      }
    } else {
      var text := UnsafeFails(f, source, target);
    }
  }

  // ---- the two normalisations ----

  datatype Row = Row(
    term: string,
    preferredSpelling: string,
    aliases: seq<string>,
    translation: string,
    doNotTranslate: bool)

  function StripRight(space: char -> bool, s: string): string {
    if s != "" && space(s[|s| - 1]) then StripRight(space, s[..|s| - 1]) else s
  }

  function Strip(space: char -> bool, s: string): string {
    StripRight(space, StripLeft(space, s))
  }

  function StripAll(space: char -> bool, values: seq<string>): seq<string> {
    seq(|values|, i requires 0 <= i < |values| => Strip(space, values[i]))
  }

  function Preferred(space: char -> bool, row: Row): string {
    if Strip(space, row.preferredSpelling) != "" then Strip(space, row.preferredSpelling) else row.term
  }

  // What a row replaces and by what, for a transcript and for a translation.
  function TranscriptRule(space: char -> bool, row: Row): (seq<string>, string) {
    (StripAll(space, row.aliases + [row.term]), Preferred(space, row))
  }

  function TranslationRule(space: char -> bool, row: Row): Option<(seq<string>, string)> {
    if row.doNotTranslate then
      Some((StripAll(space, [row.translation] + row.aliases), Preferred(space, row)))
    else if Strip(space, row.translation) != "" then
      Some((StripAll(space, [row.term, row.preferredSpelling] + row.aliases), Strip(space, row.translation)))
    else None
  }

  // Rules are applied one after the other, each to the result of those before it.
  function ApplyRules(f: Fold, rules: seq<(seq<string>, string)>, text: string): string {
    if rules == [] then text
    else
      var last := rules[|rules| - 1];
      ReplaceMany(f, last.0, last.1, ApplyRules(f, rules[..|rules| - 1], text))
  }

  function TranscriptRules(space: char -> bool, glossary: seq<Row>): seq<(seq<string>, string)> {
    seq(|glossary|, i requires 0 <= i < |glossary| => TranscriptRule(space, glossary[i]))
  }

  function TranslationRules(space: char -> bool, glossary: seq<Row>): seq<(seq<string>, string)> {
    if glossary == [] then []
    else
      var rule := TranslationRule(space, glossary[|glossary| - 1]);
      TranslationRules(space, glossary[..|glossary| - 1]) + (if rule.Some? then [rule.value] else [])
  }

  method NormalizeTranscript(f: Fold, space: char -> bool, text: string, glossary: seq<Row>)
    returns (normalized: string)
    ensures normalized == ApplyRules(f, TranscriptRules(space, glossary), text)
  {
    normalized := text;
    ghost var rules := TranscriptRules(space, glossary);
    for i := 0 to |glossary|
      invariant normalized == ApplyRules(f, rules[..i], text)
    {
      var row := glossary[i];
      normalized := ReplaceMany(f, StripAll(space, row.aliases + [row.term]), Preferred(space, row), normalized);
      assert rules[..i + 1][..i] == rules[..i];
    }
    assert rules[..|glossary|] == rules;
  }

  method NormalizeTranslation(f: Fold, space: char -> bool, text: string, glossary: seq<Row>)
    returns (normalized: string)
    ensures normalized == ApplyRules(f, TranslationRules(space, glossary), text)
  {
    normalized := text;
    for i := 0 to |glossary|
      invariant normalized == ApplyRules(f, TranslationRules(space, glossary[..i]), text)
    {
      var row := glossary[i];
      ghost var before := TranslationRules(space, glossary[..i]);
      assert glossary[..i + 1][..i] == glossary[..i];
      if row.doNotTranslate {
        normalized := ReplaceMany(f, StripAll(space, [row.translation] + row.aliases), Preferred(space, row),
                                  normalized);
      } else if Strip(space, row.translation) != "" {
        normalized := ReplaceMany(f, StripAll(space, [row.term, row.preferredSpelling] + row.aliases),
                                  Strip(space, row.translation), normalized);
      }
      ghost var rule := TranslationRule(space, row);
      if rule.Some? {
        assert (before + [rule.value])[..|before|] == before;
      } else {
        assert before + [] == before;
      }
    }
    assert glossary[..|glossary|] == glossary;
  }

  // s without white space at its ends.
  ghost predicate Trimmed(space: char -> bool, s: string, trimmed: string) {
    exists i, j ::
      && 0 <= i <= j <= |s| && trimmed == s[i..j]
      && (forall k | 0 <= k < i || j <= k < |s| :: space(s[k]))
      && (i < j ==> !space(s[i]) && !space(s[j - 1]))
  }

  lemma {:induction false} StripLeftStops(space: char -> bool, s: string) returns (i: nat)
    ensures i <= |s| && StripLeft(space, s) == s[i..] && (forall k | 0 <= k < i :: space(s[k]))
    ensures i < |s| ==> !space(s[i])
  {
    i := 0;
    if s != "" && space(s[0]) {
      var rest := StripLeftStops(space, s[1..]);
      i := rest + 1;
      assert s[i..] == s[1..][rest..];
      forall k | 0 <= k < i ensures space(s[k]) {
        assert k > 0 ==> s[k] == s[1..][k - 1];
      }
    }
  }

  lemma {:induction false} StripRightStops(space: char -> bool, s: string) returns (j: nat)
    ensures j <= |s| && StripRight(space, s) == s[..j] && (forall k | j <= k < |s| :: space(s[k]))
    ensures j > 0 ==> !space(s[j - 1])
  {
    j := |s|;
    if s != "" && space(s[|s| - 1]) {
      var front := s[..|s| - 1];
      j := StripRightStops(space, front);
      assert s[..j] == front[..j];
      forall k | j <= k < |s| ensures space(s[k]) {
        assert k < |front| ==> s[k] == front[k];
      }
    }
  }

  /** Terms, spellings and translations are compared and inserted without the white space around them. */
  lemma StripTrims(space: char -> bool, s: string)
    ensures Trimmed(space, s, Strip(space, s))
  {
    var i := StripLeftStops(space, s);
    var n := StripRightStops(space, s[i..]);
    assert s[i..][..n] == s[i..i + n];
    forall k | 0 <= k < i || i + n <= k < |s| ensures space(s[k]) {
      assert k >= i ==> s[k] == s[i..][k - i];
    }
    assert n > 0 ==> s[i..][n - 1] == s[i + n - 1];
  }

  /** A text that is one of the sources, case aside, becomes the target, whatever other sources there are. */
  lemma WholeTextIsReplaced(f: Fold, sources: seq<string>, target: string, source: string, text: string)
    requires source in sources && Candidate(f, source, target) && SameFold(f, text, source)
    ensures ReplaceMany(f, sources, target, text) == target
  {
    var longest := ReplacementIsScan(f, sources, target, text);
    assert MatchesAt(f, text, 0, source);
    assert LongestMatch(f, CandidateSet(f, sources, target), text, 0, longest[0]);
    assert text[0..|text|] == text;
    assert PieceAt(text, longest, 0) == Hit(text) && Scan(text, longest, NextAt(text, longest, 0)) == [];
    RenderCons(Hit(text), [], target);
  }

  // What a row wants to see in a transcript.
  predicate IsSpelling(space: char -> bool, row: Row, spelling: string) {
    var preferred := Strip(space, row.preferredSpelling);
    (preferred != "" && spelling == preferred) || (preferred == "" && spelling == row.term)
  }

  lemma Joins(a: seq<string>, b: seq<string>, x: string)
    ensures x in a + b <==> x in a || x in b
  {
  }

  lemma StrippedToo(space: char -> bool, names: seq<string>, name: string)
    requires name in names
    ensures Strip(space, name) in StripAll(space, names)
  {
    var k :| 0 <= k < |names| && names[k] == name;
    assert StripAll(space, names)[k] == Strip(space, name);
  }

  lemma OneRule(f: Fold, rule: (seq<string>, string), text: string)
    ensures ApplyRules(f, [rule], text) == ReplaceMany(f, rule.0, rule.1, text)
  {
    assert [rule][..0] == [];
  }

  /** A transcript that is a row's term or one of its aliases becomes its preferred spelling, else its term. */
  lemma AliasIsRespelled(f: Fold, space: char -> bool, row: Row, name: string, spelling: string, text: string)
    requires (name == row.term || name in row.aliases) && IsSpelling(space, row, spelling)
    requires Candidate(f, Strip(space, name), spelling) && SameFold(f, text, Strip(space, name))
    ensures ApplyRules(f, TranscriptRules(space, [row]), text) == spelling
  {
    var rule := TranscriptRule(space, row);
    Joins(row.aliases, [row.term], name);
    StrippedToo(space, row.aliases + [row.term], name);
    assert TranscriptRules(space, [row]) == [rule];
    OneRule(f, rule, text);
    WholeTextIsReplaced(f, rule.0, spelling, Strip(space, name), text);
  }

  // The names a row replaces in a translation, and by what.
  predicate Renders(space: char -> bool, row: Row, name: string, spelling: string) {
    if row.doNotTranslate then
      (name == row.translation || name in row.aliases) && IsSpelling(space, row, spelling)
    else
      && (name in {row.term, row.preferredSpelling} || name in row.aliases)
      && spelling == Strip(space, row.translation) && spelling != ""
  }

  /**
   A translation that is one of a row's names becomes the row's translation; where the row is not to be
   translated, its translation is turned back into its preferred spelling.
   */
  lemma NameIsTranslated(f: Fold, space: char -> bool, row: Row, name: string, spelling: string, text: string)
    requires Renders(space, row, name, spelling)
    requires Candidate(f, Strip(space, name), spelling) && SameFold(f, text, Strip(space, name))
    ensures ApplyRules(f, TranslationRules(space, [row]), text) == spelling
  {
    var own := if row.doNotTranslate then [row.translation] else [row.term, row.preferredSpelling];
    var rule := TranslationRule(space, row).value;
    Joins(own, row.aliases, name);
    StrippedToo(space, own + row.aliases, name);
    assert [row][..0] == [] && TranslationRules(space, [row]) == [rule];
    OneRule(f, rule, text);
    WholeTextIsReplaced(f, rule.0, spelling, Strip(space, name), text);
  }

  /** Rows that are to be translated but have no translation change nothing. */
  lemma UntranslatedRowIsIdle(f: Fold, space: char -> bool, row: Row, text: string)
    requires !row.doNotTranslate && Strip(space, row.translation) == ""
    ensures ApplyRules(f, TranslationRules(space, [row]), text) == text
  {
    assert [row][..0] == [];
  }

  // The sources a rule looks for: those that do not fold like its own target.
  ghost function Sought(f: Fold, rule: (seq<string>, string)): set<string> {
    CandidateSet(f, rule.0, rule.1)
  }

  /**
   A glossary none of whose targets can hold or touch a source it looks for removes every such
   source from any text, and normalising the result once more changes nothing.
   */
  lemma ApartGlossarySettles(f: Fold, rules: seq<(seq<string>, string)>, text: string)
    requires forall r | r in rules :: r.1 != ""
    requires forall r, q, s | r in rules && q in rules && s in Sought(f, q) :: Apart(f, r.1, s)
    ensures var once := ApplyRules(f, rules, text);
            && (forall q, s | q in rules && s in Sought(f, q) :: !Occurs(f, once, s))
            && ApplyRules(f, rules, once) == once
  {
    var once := ApplyRules(f, rules, text);
    forall j, s | 0 <= j < |rules| && s in Sought(f, rules[j]) ensures !Occurs(f, once, s) {
      SourceGone(f, rules, text, j, s);
    }
    RulesKeep(f, rules, once);
  }

  // A replacement with a target apart from a source creates no occurrence of it.
  lemma {:induction false} NothingCreated(f: Fold, text: string, longest: seq<nat>, pos: nat,
                                          target: string, source: string, at: nat)
    requires pos <= |text| && Fits(text, longest)
    requires target != "" && Apart(f, target, source) && source != ""
    requires MatchesAt(f, Render(Scan(text, longest, pos), target), at, source)
    ensures Occurs(f, text, source)
    decreases |text| - pos
  {
    assert source[0..] == source;
    if pos < |text| {
      MatchSplits(f, Scan(text, longest, pos), target, source, 0, at);
      var shown := Shown(PieceAt(text, longest, pos), target);
      if at >= |shown| {
        NothingCreated(f, text, longest, NextAt(text, longest, pos), target, source, at - |shown|);
      } else {
        FrontIsText(f, text, longest, pos, target, source, 0);
      }
    }
  }

  lemma PassKeepsAbsent(f: Fold, rule: (seq<string>, string), text: string, source: string)
    requires rule.1 != "" && Apart(f, rule.1, source) && source != ""
    requires source in Sought(f, rule) || !Occurs(f, text, source)
    ensures !Occurs(f, ReplaceMany(f, rule.0, rule.1, text), source)
  {
    var longest := ReplacementIsScan(f, rule.0, rule.1, text);
    forall at: nat ensures !MatchesAt(f, ReplaceMany(f, rule.0, rule.1, text), at, source) {
      if source in Sought(f, rule) {
        NoneLeft(f, Sought(f, rule), text, longest, 0, rule.1, source, at);
      } else if MatchesAt(f, ReplaceMany(f, rule.0, rule.1, text), at, source) {
        NothingCreated(f, text, longest, 0, rule.1, source, at);
      }
    }
  }

  lemma {:induction false} SourceGone(f: Fold, rules: seq<(seq<string>, string)>, text: string, j: nat, source: string)
    requires j < |rules| && source in Sought(f, rules[j])
    requires forall i | 0 <= i < |rules| :: rules[i].1 != "" && Apart(f, rules[i].1, source)
    ensures !Occurs(f, ApplyRules(f, rules, text), source)
    decreases |rules|
  {
    var last := |rules| - 1;
    if j < last {
      SourceGone(f, rules[..last], text, j, source);
    }
    PassKeepsAbsent(f, rules[last], ApplyRules(f, rules[..last], text), source);
  }

  lemma {:induction false} RulesKeep(f: Fold, rules: seq<(seq<string>, string)>, text: string)
    requires forall j, s | 0 <= j < |rules| && s in Sought(f, rules[j]) :: !Occurs(f, text, s)
    ensures ApplyRules(f, rules, text) == text
  {
    if rules != [] {
      var last := |rules| - 1;
      RulesKeep(f, rules[..last], text);
      UnmatchedTextIsKept(f, rules[last].0, rules[last].1, text);
    }
  }
}
