/**
 * The candidate table builder (get_candidates_df): score every vocabulary word, drop every
 * row holding a null, and sort the rest best-first; a row's position is its rank.
 */
module CandidateTable {
  import opened Wrappers
  import opened Scoring

  datatype Row = Row(
    word: string,
    frequency: real,
    goodness: real,
    badMinimax: real,
    neutralsMinimax: real,
    variance: real)

  /** Building the table fails when the two vocabulary columns differ in length, or when scoring a word raises. */
  datatype TableFault = LengthMismatch | ScoringFault(fault: Fault)

  function MakeRow(word: string, frequency: real, s: Scores): Row
  {
    Row(word, frequency, s.goodness, s.badMinimax, s.neutralsMinimax, s.variance)
  }

  /** The per-row scorer pandas' apply runs: get_scores with the table's distance, source flag and board. */
  function Scorer(dist: Dist, primary: bool, b: Board): string -> Result<Option<Scores>, Fault>
  {
    w => Score(w, dist, primary, b)
  }

  /** Apply `score` to every word in order; the first word whose scoring raises decides the error. */
  function ApplyAll(words: seq<string>, score: string -> Result<Option<Scores>, Fault>): (r: Result<seq<Option<Scores>>, Fault>)
    ensures r.Ok? <==> forall i :: 0 <= i < |words| ==> score(words[i]).Ok?
    ensures r.Ok? ==> (|r.value| == |words| &&
      forall i :: 0 <= i < |words| ==> score(words[i]) == Ok(r.value[i]))
    ensures r.Err? ==> exists i :: 0 <= i < |words| && score(words[i]) == Err(r.error) &&
                                   forall j :: 0 <= j < i ==> score(words[j]).Ok?
    decreases |words|
  {
    if words == [] then Ok([])
    else
      var n := |words| - 1;
      assert forall i :: 0 <= i < n ==> words[..n][i] == words[i];
      match ApplyAll(words[..n], score)
      case Err(e) => Err(e)
      case Ok(ss) =>
        match score(words[n])
        case Err(e) => Err(e)
        case Ok(s) => Ok(ss + [s])
  }

  /** The rows dropna keeps, in input order: frequency and scores all present. */
  function Survivors(words: seq<string>, freqs: seq<Option<real>>, scores: seq<Option<Scores>>): seq<Row>
    requires |words| == |freqs| == |scores|
    decreases |words|
  {
    if words == [] then []
    else
      var n := |words| - 1;
      Survivors(words[..n], freqs[..n], scores[..n]) +
        (if freqs[n].Some? && scores[n].Some? then [MakeRow(words[n], freqs[n].value, scores[n].value)] else [])
  }

  /** Input position i survives as `row`. */
  predicate Kept(words: seq<string>, freqs: seq<Option<real>>, scores: seq<Option<Scores>>, i: int, row: Row)
    requires |words| == |freqs| == |scores|
  {
    0 <= i < |words| && freqs[i].Some? && scores[i].Some? &&
    row == MakeRow(words[i], freqs[i].value, scores[i].value)
  }

  /** A row survives exactly when it carries the word, the frequency and the scores of an input
      position whose frequency and scores are all present; no more rows survive than went in. */
  lemma {:induction false} SurvivorsExact(words: seq<string>, freqs: seq<Option<real>>, scores: seq<Option<Scores>>)
    requires |words| == |freqs| == |scores|
    ensures |Survivors(words, freqs, scores)| <= |words|
    ensures forall row :: row in Survivors(words, freqs, scores) <==> exists i :: Kept(words, freqs, scores, i, row)
    decreases |words|
  {
    if words != [] {
      var n := |words| - 1;
      var w, f, s := words[..n], freqs[..n], scores[..n];
      SurvivorsExact(w, f, s);
      var last: seq<Row> := if freqs[n].Some? && scores[n].Some? then [MakeRow(words[n], freqs[n].value, scores[n].value)] else [];
      assert Survivors(words, freqs, scores) == Survivors(w, f, s) + last;
      forall row
        ensures row in Survivors(words, freqs, scores) <==> exists i :: Kept(words, freqs, scores, i, row)
      {
        if exists i :: Kept(words, freqs, scores, i, row) {
          var i :| Kept(words, freqs, scores, i, row);
          if i < n {
            assert Kept(w, f, s, i, row);
          } else {
            assert row in last;
          }
        }
        if row in Survivors(w, f, s) {
          var i :| Kept(w, f, s, i, row);
          assert Kept(words, freqs, scores, i, row);
        } else if row in last {
          assert Kept(words, freqs, scores, n, row);
        }
      }
    }
  }

  /** `a` may precede `b`: descending, lexicographically on (goodness, bad_minimax, frequency, neutrals_minimax). */
  predicate RanksAtLeast(a: Row, b: Row)
  {
    a.goodness > b.goodness || (a.goodness == b.goodness &&
    (a.badMinimax > b.badMinimax || (a.badMinimax == b.badMinimax &&
    (a.frequency > b.frequency || (a.frequency == b.frequency &&
    a.neutralsMinimax >= b.neutralsMinimax)))))
  }

  predicate Sorted(t: seq<Row>)
  {
    forall i, j :: 0 <= i < j < |t| ==> RanksAtLeast(t[i], t[j])
  }

  /** `t` is the table sort_values makes of `rows`: the same rows, best first. */
  predicate IsRankingOf(t: seq<Row>, rows: seq<Row>)
  {
    Sorted(t) && multiset(t) == multiset(rows)
  }

  lemma RanksAtLeastTransitive(a: Row, b: Row, c: Row)
    requires RanksAtLeast(a, b) && RanksAtLeast(b, c)
    ensures RanksAtLeast(a, c)
  {
  }

  /** A row that ranks at least as high as the head of a sorted table ranks at least as high as all of it. */
  lemma AboveHeadAboveAll(t: seq<Row>, x: Row)
    requires Sorted(t) && |t| > 0 && RanksAtLeast(x, t[0])
    ensures forall y :: y in t ==> RanksAtLeast(x, y)
  {
    forall y | y in t
      ensures RanksAtLeast(x, y)
    {
      var k :| 0 <= k < |t| && t[k] == y;
      if k > 0 {
        RanksAtLeastTransitive(x, t[0], y);
      }
    }
  }

  lemma ConsSorted(x: Row, t: seq<Row>)
    requires Sorted(t)
    requires forall y :: y in t ==> RanksAtLeast(x, y)
    ensures Sorted([x] + t)
  {
    var r := [x] + t;
    forall i, j | 0 <= i < j < |r|
      ensures RanksAtLeast(r[i], r[j])
    {
      if i == 0 {
        assert r[j] == t[j - 1] && t[j - 1] in t;
      } else {
        assert r[i] == t[i - 1] && r[j] == t[j - 1];
      }
    }
  }

  /** Insert `x` into a sorted table after every row that ranks at least as high. */
  function Insert(t: seq<Row>, x: Row): (r: seq<Row>)
    requires Sorted(t)
    ensures Sorted(r)
    ensures multiset(r) == multiset(t) + multiset{x}
    decreases |t|
  {
    if t == [] then [x]
    else if RanksAtLeast(t[0], x) then
      var rest := Insert(t[1..], x);
      assert t == [t[0]] + t[1..];
      assert forall y :: y in rest ==> y in multiset(t[1..]) + multiset{x};
      assert forall y :: y in t[1..] ==> RanksAtLeast(t[0], y);
      ConsSorted(t[0], rest);
      [t[0]] + rest
    else
      AboveHeadAboveAll(t, x);
      ConsSorted(x, t);
      [x] + t
  }

  /** pandas' apply: score the rows in order, stopping at the first that raises. */
  method ApplyScorer(words: seq<string>, score: string -> Result<Option<Scores>, Fault>)
    returns (r: Result<seq<Option<Scores>>, Fault>)
    ensures r == ApplyAll(words, score)
  {
    var scores: seq<Option<Scores>> := [];
    var i := 0;
    while i < |words|
      invariant 0 <= i <= |words|
      invariant ApplyAll(words[..i], score) == Ok(scores)
    {
      assert words[..i + 1][..i] == words[..i];
      var s := score(words[i]);
      if s.Err? {
        FirstFaultDecides(words, score, i);
        return Err(s.error);
      }
      scores := scores + [s.value];
      i := i + 1;
    }
    assert words[..i] == words;
    r := Ok(scores);
  }

  /** dropna: keep, in order, the rows whose frequency and scores are all present. */
  method DropNulls(words: seq<string>, freqs: seq<Option<real>>, scores: seq<Option<Scores>>)
    returns (kept: seq<Row>)
    requires |words| == |freqs| == |scores|
    ensures kept == Survivors(words, freqs, scores)
  {
    kept := [];
    var i := 0;
    while i < |words|
      invariant 0 <= i <= |words|
      invariant kept == Survivors(words[..i], freqs[..i], scores[..i])
    {
      assert words[..i + 1][..i] == words[..i];
      assert freqs[..i + 1][..i] == freqs[..i];
      assert scores[..i + 1][..i] == scores[..i];
      if freqs[i].Some? && scores[i].Some? {
        kept := kept + [MakeRow(words[i], freqs[i].value, scores[i].value)];
      }
      i := i + 1;
    }
    assert words[..i] == words && freqs[..i] == freqs && scores[..i] == scores;
  }

  /** sort_values, descending on every key, followed by reset_index. */
  method SortDescending(rows: seq<Row>) returns (ranked: seq<Row>)
    ensures IsRankingOf(ranked, rows)
  {
    ranked := [];
    var i := 0;
    while i < |rows|
      invariant 0 <= i <= |rows|
      invariant Sorted(ranked)
      invariant multiset(ranked) == multiset(rows[..i])
    {
      assert rows[..i + 1] == rows[..i] + [rows[i]];
      ranked := Insert(ranked, rows[i]);
      i := i + 1;
    }
    assert rows[..i] == rows;
  }

  method BuildCandidates(words: seq<string>, freqs: seq<Option<real>>, dist: Dist, primary: bool, b: Board)
    returns (r: Result<seq<Row>, TableFault>)
    ensures |words| != |freqs| ==> r == Err(LengthMismatch)
    ensures |words| == |freqs| && ApplyAll(words, Scorer(dist, primary, b)).Err? ==>
      r == Err(ScoringFault(ApplyAll(words, Scorer(dist, primary, b)).error))
    ensures |words| == |freqs| && ApplyAll(words, Scorer(dist, primary, b)).Ok? ==>
      r.Ok? && IsRankingOf(r.value, Survivors(words, freqs, ApplyAll(words, Scorer(dist, primary, b)).value))
  {
    if |words| != |freqs| {
      return Err(LengthMismatch);
    }
    var scored := ApplyScorer(words, Scorer(dist, primary, b));
    if scored.Err? {
      return Err(ScoringFault(scored.error));
    }
    var kept := DropNulls(words, freqs, scored.value);
    var ranked := SortDescending(kept);
    r := Ok(ranked);
  }

  /** When every word before position i scores and word i raises, word i's error is the table's error. */
  lemma FirstFaultDecides(words: seq<string>, score: string -> Result<Option<Scores>, Fault>, i: nat)
    requires i < |words|
    requires ApplyAll(words[..i], score).Ok?
    requires score(words[i]).Err?
    ensures ApplyAll(words, score) == Err(score(words[i]).error)
  {
    assert forall j :: 0 <= j < i ==> words[..i][j] == words[j];
    var r := ApplyAll(words, score);
    var k :| 0 <= k < |words| && score(words[k]) == Err(r.error) &&
      forall j :: 0 <= j < k ==> score(words[j]).Ok?;
    assert k == i;
  }

  /** No surviving row is a board word or a word the primary assassin guard rejects. */
  lemma SurvivorsPassGuards(words: seq<string>, freqs: seq<Option<real>>, dist: Dist, primary: bool, b: Board)
    requires |words| == |freqs| && ApplyAll(words, Scorer(dist, primary, b)).Ok?
    ensures forall row :: row in Survivors(words, freqs, ApplyAll(words, Scorer(dist, primary, b)).value) ==>
      !IsBoardDerived(row.word, b.boardWords) && !TooCloseToAssassin(row.word, dist, primary, b)
  {
    var scores := ApplyAll(words, Scorer(dist, primary, b)).value;
    SurvivorsExact(words, freqs, scores);
    forall row | row in Survivors(words, freqs, scores)
      ensures !IsBoardDerived(row.word, b.boardWords) && !TooCloseToAssassin(row.word, dist, primary, b)
    {
      var i :| Kept(words, freqs, scores, i, row);
      assert Score(words[i], dist, primary, b) == Ok(scores[i]);
    }
  }

  lemma NoScoresNoSurvivors(words: seq<string>, freqs: seq<Option<real>>, scores: seq<Option<Scores>>)
    requires |words| == |freqs| == |scores|
    requires forall i :: 0 <= i < |scores| ==> scores[i].None?
    ensures Survivors(words, freqs, scores) == []
  {
    SurvivorsExact(words, freqs, scores);
    var t := Survivors(words, freqs, scores);
    assert forall row :: row in t ==> exists i :: Kept(words, freqs, scores, i, row);
    assert forall row :: row !in t;
  }

  /** A vocabulary made only of board-derived words yields an empty table, not an error. */
  lemma BoardWordsOnlyGiveEmptyTable(words: seq<string>, freqs: seq<Option<real>>, dist: Dist, primary: bool, b: Board)
    requires |words| == |freqs|
    requires forall i :: 0 <= i < |words| ==> IsBoardDerived(words[i], b.boardWords)
    ensures ApplyAll(words, Scorer(dist, primary, b)).Ok?
    ensures Survivors(words, freqs, ApplyAll(words, Scorer(dist, primary, b)).value) == []
  {
    var score := Scorer(dist, primary, b);
    forall i | 0 <= i < |words|
      ensures score(words[i]) == Ok(None)
    {
      assert Score(words[i], dist, primary, b) == Ok(None);
    }
    var scores := ApplyAll(words, score).value;
    NoScoresNoSurvivors(words, freqs, scores);
  }

  /** In a sorted table a row strictly better than another sits above it: lower position, better rank. */
  lemma BetterRowRanksFirst(t: seq<Row>, i: nat, j: nat)
    requires Sorted(t) && i < |t| && j < |t|
    requires !RanksAtLeast(t[j], t[i])
    ensures i < j
  {
  }
}
