/**
 * The ranking half of `find_and_store_top_matches`: score every other user against the
 * subject, keep the scores above 0.29, sort them in descending order with Python's stable
 * sort, keep the first ten and turn each into a row of the `matches` table.
 */
module Ranking {
  import opened Wrappers
  import opened Scoring

  /** Scores must be strictly above this to be kept ("Unlikely match" ends at 0.29). */
  const THRESHOLD: real := 0.29
  /** How many matches are stored per subject. */
  const TOP_K: nat := 10

  /** A row of the `users` table projected on `id, description`. */
  datatype Candidate = Candidate(id: int, description: string)

  /** An entry `{"id": ..., "score": ...}` of `all_matches`. */
  datatype Match = Match(id: int, score: real)

  /** A row `{user1_id, user2_id, match_score}` of the `matches` table. */
  datatype MatchRow = MatchRow(user1: int, user2: int, score: real)

  /**
   * The subject's score against every candidate, in candidate order, or None when
   * `get_similarity_score` lets an exception escape for some candidate.
   */
  function ScoreAll(text: string, cands: seq<Candidate>, o: Oracle): (r: Option<seq<Match>>)
    ensures r.Some? ==> |r.value| == |cands|
    decreases |cands|
  {
    if cands == [] then Some([])
    else
      var init := cands[..|cands| - 1];
      var last := cands[|cands| - 1];
      match ScoreAll(text, init, o)
      case None => None
      case Some(ms) =>
        match SimilarityScore(text, last.description, o)
        case Escaped(_) => None
        case Score(x) => Some(ms + [Match(last.id, x)])
  }

  /** The scoring run fails exactly when some candidate's scoring call lets an exception escape. */
  lemma {:induction false} ScoreAllFailsOnEscape(text: string, cands: seq<Candidate>, o: Oracle)
    ensures ScoreAll(text, cands, o).None? <==>
      exists j :: 0 <= j < |cands| && SimilarityScore(text, cands[j].description, o).Escaped?
    decreases |cands|
  {
    if cands != [] {
      var init := cands[..|cands| - 1];
      ScoreAllFailsOnEscape(text, init, o);
      forall j | 0 <= j < |init| ensures init[j] == cands[j] { }
    }
  }

  /** Without an escape, entry `j` is candidate `j` with its score, in candidate order. */
  lemma {:induction false} ScoreAllPointwise(text: string, cands: seq<Candidate>, o: Oracle, j: nat)
    requires ScoreAll(text, cands, o).Some? && j < |cands|
    ensures SimilarityScore(text, cands[j].description, o).Score?
    ensures ScoreAll(text, cands, o).value[j] == Match(cands[j].id, SimilarityScore(text, cands[j].description, o).value)
    decreases |cands|
  {
    var init := cands[..|cands| - 1];
    if j < |init| {
      ScoreAllPointwise(text, init, o, j);
    }
  }

  /** The entries of `ms` whose score is exactly `x`, in their order in `ms`. */
  function WithScore(ms: seq<Match>, x: real): seq<Match>
    decreases |ms|
  {
    if ms == [] then []
    else WithScore(ms[..|ms| - 1], x) + (if ms[|ms| - 1].score == x then [ms[|ms| - 1]] else [])
  }

  /** The entries scoring strictly above the threshold, in their original order. */
  function AboveThreshold(ms: seq<Match>): (r: seq<Match>)
    ensures forall m :: m in r <==> m in ms && m.score > THRESHOLD
    ensures multiset(r) <= multiset(ms)
    decreases |ms|
  {
    if ms == [] then []
    else
      var init := ms[..|ms| - 1];
      var last := ms[|ms| - 1];
      assert ms == init + [last];
      AboveThreshold(init) + (if last.score > THRESHOLD then [last] else [])
  }

  /** Filtering keeps the order of equally scored entries and drops every score at or below 0.29. */
  lemma {:induction false} AboveThresholdKeepsOrder(ms: seq<Match>, x: real)
    ensures WithScore(AboveThreshold(ms), x) == if x > THRESHOLD then WithScore(ms, x) else []
    decreases |ms|
  {
    if ms != [] {
      var init := ms[..|ms| - 1];
      var last := ms[|ms| - 1];
      assert ms == init + [last];
      AboveThresholdKeepsOrder(init, x);
      var a := AboveThreshold(init);
      WithScoreSnoc(init, last, x);
      if last.score > THRESHOLD {
        assert AboveThreshold(ms) == a + [last];
        WithScoreSnoc(a, last, x);
      } else {
        assert AboveThreshold(ms) == a + [] == a;
      }
    }
  }

  /** `all_matches` after the loop, or None when a scoring call escaped. */
  function Passing(text: string, cands: seq<Candidate>, o: Oracle): Option<seq<Match>> {
    match ScoreAll(text, cands, o)
    case None => None
    case Some(ms) => Some(AboveThreshold(ms))
  }

  /** Extending the candidate list by one scores that candidate after the others. */
  lemma PassingStep(text: string, cands: seq<Candidate>, i: nat, o: Oracle)
    requires i < |cands|
    ensures
      var s := SimilarityScore(text, cands[i].description, o);
      var before := Passing(text, cands[..i], o);
      Passing(text, cands[..i + 1], o) ==
        if before.None? || s.Escaped? then None
        else if s.value > THRESHOLD then Some(before.value + [Match(cands[i].id, s.value)])
        else before
  {
    var s := SimilarityScore(text, cands[i].description, o);
    var pre := cands[..i + 1];
    assert pre[..|pre| - 1] == cands[..i];
    assert pre[|pre| - 1] == cands[i];
    var scored := ScoreAll(text, cands[..i], o);
    assert ScoreAll(text, pre, o) == if scored.None? || s.Escaped? then None else Some(scored.value + [Match(cands[i].id, s.value)]);
    if scored.Some? && s.Score? {
      var all := scored.value + [Match(cands[i].id, s.value)];
      assert all[..|all| - 1] == scored.value;
      if s.value <= THRESHOLD {
        assert AboveThreshold(scored.value) + [] == AboveThreshold(scored.value);
      }
    }
  }

  /**
   * The loop of lines 141-146: score each candidate in turn and append those above the
   * threshold; an exception from the scorer leaves the loop (None).
   */
  method CollectMatches(text: string, cands: seq<Candidate>, o: Oracle) returns (r: Option<seq<Match>>)
    ensures r == Passing(text, cands, o)
  {
    var allMatches: seq<Match> := [];
    var i := 0;
    while i < |cands|
      invariant 0 <= i <= |cands|
      invariant Passing(text, cands[..i], o) == Some(allMatches)
    {
      var s := SimilarityScore(text, cands[i].description, o);
      PassingStep(text, cands, i, o);
      if s.Escaped? {
        ScoreAllFailsOnEscape(text, cands, o);
        return None;
      }
      if s.value > THRESHOLD {
        allMatches := allMatches + [Match(cands[i].id, s.value)];
      }
      i := i + 1;
    }
    assert cands[..i] == cands;
    r := Some(allMatches);
  }

  // ---------------------------------------------------------------------------
  // sorted(all_matches, key=lambda x: x['score'], reverse=True)

  predicate SortedDesc(ms: seq<Match>) {
    forall i, j :: 0 <= i < j < |ms| ==> ms[i].score >= ms[j].score
  }

  /**
   * Places `m`, which came after every element of `s` in the input, behind every element of
   * `s` scoring at least as much, so ties keep their input order.
   */
  function InsertBack(s: seq<Match>, m: Match): (r: seq<Match>)
    ensures multiset(r) == multiset(s) + multiset{m}
    ensures |r| == |s| + 1
    decreases |s|
  {
    if s == [] || s[|s| - 1].score >= m.score then
      s + [m]
    else
      var init := s[..|s| - 1];
      assert s == init + [s[|s| - 1]];
      InsertBack(init, m) + [s[|s| - 1]]
  }

  /** Inserting into a sorted list keeps it sorted. */
  lemma {:induction false} InsertBackSorted(s: seq<Match>, m: Match)
    requires SortedDesc(s)
    ensures SortedDesc(InsertBack(s, m))
    decreases |s|
  {
    if !(s == [] || s[|s| - 1].score >= m.score) {
      var init := s[..|s| - 1];
      var last := s[|s| - 1];
      InsertBackSorted(init, m);
      InsertBackAbove(init, m, last.score);
      assert InsertBack(s, m) == InsertBack(init, m) + [last];
    }
  }

  /** Every entry of `InsertBack(s, m)` scores at least `b` when every entry of `s` and `m` do. */
  lemma {:induction false} InsertBackAbove(s: seq<Match>, m: Match, b: real)
    requires forall k :: 0 <= k < |s| ==> s[k].score >= b
    requires m.score >= b
    ensures forall k :: 0 <= k < |InsertBack(s, m)| ==> InsertBack(s, m)[k].score >= b
    decreases |s|
  {
    if !(s == [] || s[|s| - 1].score >= m.score) {
      InsertBackAbove(s[..|s| - 1], m, b);
    }
  }

  lemma WithScoreSnoc(ms: seq<Match>, m: Match, x: real)
    ensures WithScore(ms + [m], x) == WithScore(ms, x) + (if m.score == x then [m] else [])
  {
    assert (ms + [m])[..|ms|] == ms;
  }

  /** Inserting `m` appends it to its own score class and leaves every other class alone. */
  lemma {:induction false} InsertBackStable(s: seq<Match>, m: Match, x: real)
    ensures WithScore(InsertBack(s, m), x) == WithScore(s, x) + (if m.score == x then [m] else [])
    decreases |s|
  {
    if s == [] || s[|s| - 1].score >= m.score {
      WithScoreSnoc(s, m, x);
    } else {
      var init := s[..|s| - 1];
      var last := s[|s| - 1];
      assert s == init + [last];
      var rest := InsertBack(init, m);
      InsertBackStable(init, m, x);
      WithScoreSnoc(rest, last, x);
      WithScoreSnoc(init, last, x);
      var mine := if m.score == x then [m] else [];
      var lasts := if last.score == x then [last] else [];
      assert mine == [] || lasts == [];
      calc {
        WithScore(InsertBack(s, m), x);
        WithScore(rest + [last], x);
        WithScore(rest, x) + lasts;
        WithScore(init, x) + mine + lasts;
        { assert mine + lasts == lasts + mine; }
        WithScore(init, x) + lasts + mine;
        WithScore(s, x) + mine;
      }
    }
  }

  /** Python's stable sort by descending score: the list `sorted(..., reverse=True)` returns. */
  function SortDesc(ms: seq<Match>): (r: seq<Match>)
    ensures SortedDesc(r)
    ensures multiset(r) == multiset(ms)
    ensures |r| == |ms|
    decreases |ms|
  {
    if ms == [] then []
    else
      var init := ms[..|ms| - 1];
      assert ms == init + [ms[|ms| - 1]];
      InsertBackSorted(SortDesc(init), ms[|ms| - 1]);
      InsertBack(SortDesc(init), ms[|ms| - 1])
  }

  /** Entries with equal scores keep their input order (stability with `reverse=True`). */
  lemma {:induction false} SortIsStable(ms: seq<Match>, x: real)
    ensures WithScore(SortDesc(ms), x) == WithScore(ms, x)
    decreases |ms|
  {
    if ms != [] {
      var init := ms[..|ms| - 1];
      SortIsStable(init, x);
      InsertBackStable(SortDesc(init), ms[|ms| - 1], x);
    }
  }

  /** `sorted_matches[:10]`. */
  function TopMatches(ms: seq<Match>): (r: seq<Match>)
    ensures |r| == if |ms| < TOP_K then |ms| else TOP_K
    ensures r == SortDesc(ms)[..|r|]
    ensures SortedDesc(r)
  {
    var sorted := SortDesc(ms);
    if |sorted| <= TOP_K then sorted else sorted[..TOP_K]
  }

  /** Every entry cut off by the top-10 scores no more than every entry kept. */
  lemma TopMatchesAreBest(ms: seq<Match>, kept: nat, cut: nat)
    requires kept < |TopMatches(ms)| <= cut < |ms|
    ensures SortDesc(ms)[cut].score <= TopMatches(ms)[kept].score
  {
  }

  /** The stored entries are taken from the filtered entries: none is invented or repeated. */
  lemma TopMatchesFromInput(ms: seq<Match>)
    ensures multiset(TopMatches(ms)) <= multiset(ms)
  {
    var sorted := SortDesc(ms);
    var r := TopMatches(ms);
    assert sorted == r + sorted[|r|..];
    assert multiset(sorted) == multiset(r) + multiset(sorted[|r|..]);
  }

  /** A scored entry is some candidate with its own score. */
  lemma ScoredEntryIsCandidate(text: string, cands: seq<Candidate>, o: Oracle, m: Match)
    requires ScoreAll(text, cands, o).Some? && m in ScoreAll(text, cands, o).value
    ensures exists j ::
      0 <= j < |cands| && cands[j].id == m.id && SimilarityScore(text, cands[j].description, o) == Score(m.score)
  {
    var ms := ScoreAll(text, cands, o).value;
    var j :| 0 <= j < |ms| && ms[j] == m;
    ScoreAllPointwise(text, cands, o, j);
  }

  lemma TopMatchInInput(ms: seq<Match>, k: nat)
    requires k < |TopMatches(ms)|
    ensures TopMatches(ms)[k] in ms
  {
    var top := TopMatches(ms);
    TopMatchesFromInput(ms);
    assert top[k] in multiset(top);
    assert top[k] in multiset(ms);
  }

  /**
   * Every stored match is a candidate whose score against the subject is exactly the
   * stored score, and that score is above the threshold.
   */
  lemma TopMatchIsScoredCandidate(text: string, cands: seq<Candidate>, o: Oracle, k: nat)
    requires Passing(text, cands, o).Some?
    requires k < |TopMatches(Passing(text, cands, o).value)|
    ensures var m := TopMatches(Passing(text, cands, o).value)[k];
      m.score > THRESHOLD &&
      exists j :: 0 <= j < |cands| && cands[j].id == m.id &&
        SimilarityScore(text, cands[j].description, o) == Score(m.score)
  {
    var ms := ScoreAll(text, cands, o).value;
    var passing := AboveThreshold(ms);
    assert Passing(text, cands, o).value == passing;
    TopMatchInInput(passing, k);
    var m := TopMatches(passing)[k];
    assert m in ms && m.score > THRESHOLD;
    ScoredEntryIsCandidate(text, cands, o, m);
  }

  /** The rows of `matches_to_insert`, one per top match, in the same order. */
  function BuildRows(subject: int, top: seq<Match>): (rows: seq<MatchRow>)
    ensures |rows| == |top|
    ensures forall i :: 0 <= i < |rows| ==> rows[i] == MatchRow(subject, top[i].id, top[i].score)
  {
    seq(|top|, i requires 0 <= i < |top| => MatchRow(subject, top[i].id, top[i].score))
  }
}
