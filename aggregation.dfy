/**
 * The cross-source aggregator (get_final_metrics): one word's rank, variance and goodness
 * gathered from several candidate tables, one per embedding source.
 */
module Aggregation {
  import opened Wrappers
  import opened RealSeq
  import opened CandidateTable

  datatype FinalMetric = FinalMetric(totalRank: real, avgVariance: real, avgGoodness: real)

  /** The word is absent from a table (an index into an empty selection), or there are
      no tables at all (a division by zero when averaging). */
  datatype AggregateFault = WordMissing(table: nat) | NoTables

  /** The weight on the summed rank. */
  const RankMultiplier: real := 1.5

  /** The word's rank in a table: the position of its first row. */
  function Rank(word: string, t: seq<Row>): (r: Option<nat>)
    ensures r.Some? ==> r.value < |t| && t[r.value].word == word &&
                        forall j :: 0 <= j < r.value ==> t[j].word != word
    ensures r.None? <==> forall j :: 0 <= j < |t| ==> t[j].word != word
    decreases |t|
  {
    if t == [] then None
    else if t[0].word == word then Some(0)
    else
      match Rank(word, t[1..])
      case None => None
      case Some(k) => Some(k + 1)
  }

  predicate InEvery(word: string, tables: seq<seq<Row>>)
  {
    forall k :: 0 <= k < |tables| ==> Rank(word, tables[k]).Some?
  }

  /** The first table the word is missing from. */
  function FirstMissing(word: string, tables: seq<seq<Row>>): (k: nat)
    requires !InEvery(word, tables)
    ensures k < |tables| && Rank(word, tables[k]).None?
    ensures forall j :: 0 <= j < k ==> Rank(word, tables[j]).Some?
    decreases |tables|
  {
    if Rank(word, tables[0]).None? then 0
    else
      assert forall j :: 0 <= j < |tables| - 1 ==> tables[1..][j] == tables[j + 1];
      1 + FirstMissing(word, tables[1..])
  }

  /** The word's rank in each table, as a real. */
  function Positions(word: string, tables: seq<seq<Row>>): (ps: seq<real>)
    requires InEvery(word, tables)
    ensures |ps| == |tables|
  {
    seq(|tables|, k requires 0 <= k < |tables| && InEvery(word, tables) => Rank(word, tables[k]).value as real)
  }

  /** The word's first row in each table. */
  function Matches(word: string, tables: seq<seq<Row>>): (rows: seq<Row>)
    requires InEvery(word, tables)
    ensures |rows| == |tables|
  {
    seq(|tables|, k requires 0 <= k < |tables| && InEvery(word, tables) => tables[k][Rank(word, tables[k]).value])
  }

  function Variances(rows: seq<Row>): (vs: seq<real>)
    ensures |vs| == |rows|
  {
    seq(|rows|, i requires 0 <= i < |rows| => rows[i].variance)
  }

  function Goodnesses(rows: seq<Row>): (gs: seq<real>)
    ensures |gs| == |rows|
  {
    seq(|rows|, i requires 0 <= i < |rows| => rows[i].goodness)
  }

  /** What get_final_metrics computes: 1.5 times the summed rank, the mean variance and the mean goodness. */
  function Aggregate(word: string, tables: seq<seq<Row>>): (r: Result<FinalMetric, AggregateFault>)
    ensures r.Ok? ==> |tables| > 0 && InEvery(word, tables)
    ensures r == Err(NoTables) ==> |tables| == 0
    ensures r.Err? && r.error.WordMissing? ==>
      r.error.table < |tables| && Rank(word, tables[r.error.table]).None? &&
      forall j :: 0 <= j < r.error.table ==> Rank(word, tables[j]).Some?
  {
    if !InEvery(word, tables) then Err(WordMissing(FirstMissing(word, tables)))
    else if |tables| == 0 then Err(NoTables)
    else
      var rows := Matches(word, tables);
      Ok(FinalMetric(
        Sum(Positions(word, tables)) * RankMultiplier,
        Mean(Variances(rows)),
        Mean(Goodnesses(rows))))
  }

  lemma PrefixInEvery(word: string, tables: seq<seq<Row>>, k: nat)
    requires k <= |tables| && forall j :: 0 <= j < k ==> Rank(word, tables[j]).Some?
    ensures InEvery(word, tables[..k])
  {
    assert forall j :: 0 <= j < k ==> tables[..k][j] == tables[j];
  }

  /** The running totals after the first k tables: every one of them holds the word, and the
      totals are its summed rank, variance and goodness over them. */
  predicate Accumulated(word: string, tables: seq<seq<Row>>, k: nat, totalRank: nat, totalVariance: real, totalGoodness: real)
  {
    k <= |tables| &&
    (forall j :: 0 <= j < k ==> Rank(word, tables[j]).Some?) &&
    InEvery(word, tables[..k]) &&
    totalRank as real == Sum(Positions(word, tables[..k])) &&
    totalVariance == Sum(Variances(Matches(word, tables[..k]))) &&
    totalGoodness == Sum(Goodnesses(Matches(word, tables[..k])))
  }

  method FinalMetrics(word: string, tables: seq<seq<Row>>) returns (r: Result<FinalMetric, AggregateFault>)
    ensures r == Aggregate(word, tables)
  {
    var totalRank: nat := 0;
    var totalVariance := 0.0;
    var totalGoodness := 0.0;
    var k := 0;
    while k < |tables|
      invariant Accumulated(word, tables, k, totalRank, totalVariance, totalGoodness)
    {
      var rank := Rank(word, tables[k]);
      if rank.None? {
        MissingAt(word, tables, k);
        return Err(WordMissing(k));
      }
      var row := tables[k][rank.value];
      AccumulateStep(word, tables, k, totalRank, totalVariance, totalGoodness);
      totalRank := totalRank + rank.value;
      totalVariance := totalVariance + row.variance;
      totalGoodness := totalGoodness + row.goodness;
      k := k + 1;
    }
    if |tables| == 0 {
      return Err(NoTables);
    }
    AccumulatedAll(word, tables, totalRank, totalVariance, totalGoodness);
    var n := |tables| as real;
    r := Ok(FinalMetric(totalRank as real * RankMultiplier, totalVariance / n, totalGoodness / n));
  }

  lemma AccumulateStep(word: string, tables: seq<seq<Row>>, k: nat, totalRank: nat, totalVariance: real, totalGoodness: real)
    requires Accumulated(word, tables, k, totalRank, totalVariance, totalGoodness)
    requires k < |tables| && Rank(word, tables[k]).Some?
    ensures var rank := Rank(word, tables[k]).value;
      var row := tables[k][rank];
      Accumulated(word, tables, k + 1, totalRank + rank, totalVariance + row.variance, totalGoodness + row.goodness)
  {
    PrefixInEvery(word, tables, k + 1);
    StepSums(word, tables, k);
  }

  lemma AccumulatedAll(word: string, tables: seq<seq<Row>>, totalRank: nat, totalVariance: real, totalGoodness: real)
    requires Accumulated(word, tables, |tables|, totalRank, totalVariance, totalGoodness) && |tables| > 0
    ensures var n := |tables| as real;
      Aggregate(word, tables) == Ok(FinalMetric(totalRank as real * RankMultiplier, totalVariance / n, totalGoodness / n))
  {
    assert tables[..|tables|] == tables;
  }

  lemma MissingAt(word: string, tables: seq<seq<Row>>, k: nat)
    requires k < |tables| && Rank(word, tables[k]).None?
    requires forall j :: 0 <= j < k ==> Rank(word, tables[j]).Some?
    ensures Aggregate(word, tables) == Err(WordMissing(k))
  {
    var m := FirstMissing(word, tables);
    assert m == k;
  }

  /** Extending the tables by one adds that table's rank, variance and goodness to the running sums. */
  lemma StepSums(word: string, tables: seq<seq<Row>>, k: nat)
    requires k < |tables| && InEvery(word, tables[..k + 1])
    ensures InEvery(word, tables[..k])
    ensures var row := tables[k][Rank(word, tables[k]).value];
      Sum(Positions(word, tables[..k + 1])) == Sum(Positions(word, tables[..k])) + Rank(word, tables[k]).value as real &&
      Sum(Variances(Matches(word, tables[..k + 1]))) == Sum(Variances(Matches(word, tables[..k]))) + row.variance &&
      Sum(Goodnesses(Matches(word, tables[..k + 1]))) == Sum(Goodnesses(Matches(word, tables[..k]))) + row.goodness
  {
    var pre, ext := tables[..k], tables[..k + 1];
    assert forall j :: 0 <= j < k ==> ext[j] == pre[j];
    assert ext[k] == tables[k];
    assert Positions(word, ext)[..k] == Positions(word, pre);
    assert Variances(Matches(word, ext))[..k] == Variances(Matches(word, pre));
    assert Goodnesses(Matches(word, ext))[..k] == Goodnesses(Matches(word, pre));
  }

  /** Aggregation fails exactly when there are no tables or some table lacks the word. */
  lemma AggregateFailsExactly(word: string, tables: seq<seq<Row>>)
    ensures Aggregate(word, tables).Err? <==>
      |tables| == 0 || exists k :: 0 <= k < |tables| && Rank(word, tables[k]).None?
    ensures Aggregate(word, tables) == Err(NoTables) <==> |tables| == 0
  {
  }

  lemma RankZeroIffHead(word: string, t: seq<Row>)
    requires Rank(word, t).Some?
    ensures Rank(word, t).value == 0 <==> t[0].word == word
  {
  }

  lemma RankSumZeroIffTopEverywhere(word: string, tables: seq<seq<Row>>)
    requires InEvery(word, tables)
    ensures Sum(Positions(word, tables)) >= 0.0
    ensures Sum(Positions(word, tables)) == 0.0 <==>
      forall k :: 0 <= k < |tables| ==> |tables[k]| > 0 && tables[k][0].word == word
  {
    var ps := Positions(word, tables);
    assert forall x :: x in ps ==> x >= 0.0;
    SumZeroIffAllZero(ps);
    forall k | 0 <= k < |tables|
      ensures ps[k] == 0.0 <==> |tables[k]| > 0 && tables[k][0].word == word
    {
      RankZeroIffHead(word, tables[k]);
    }
  }

  /** The weighted total rank is never negative, and is zero exactly when the word heads every table. */
  lemma TotalRankZeroIffTopEverywhere(word: string, tables: seq<seq<Row>>, m: FinalMetric)
    requires Aggregate(word, tables) == Ok(m)
    ensures m.totalRank >= 0.0
    ensures m.totalRank == 0.0 <==> forall k :: 0 <= k < |tables| ==> |tables[k]| > 0 && tables[k][0].word == word
  {
    RankSumZeroIffTopEverywhere(word, tables);
    assert m.totalRank == Sum(Positions(word, tables)) * RankMultiplier;
  }

  lemma PositionsConcat(word: string, a: seq<seq<Row>>, b: seq<seq<Row>>)
    requires InEvery(word, a + b)
    ensures InEvery(word, a) && InEvery(word, b)
    ensures Positions(word, a + b) == Positions(word, a) + Positions(word, b)
    ensures Matches(word, a + b) == Matches(word, a) + Matches(word, b)
  {
    assert forall k :: 0 <= k < |a| ==> (a + b)[k] == a[k];
    assert forall k :: 0 <= k < |b| ==> (a + b)[|a| + k] == b[k];
  }

  lemma MeanOfSwapped(s: seq<real>, t: seq<real>)
    requires |s| + |t| > 0
    ensures Mean(s + t) == Mean(t + s)
  {
    SumConcat(s, t);
    SumConcat(t, s);
  }

  lemma InEverySwapped(word: string, a: seq<seq<Row>>, b: seq<seq<Row>>)
    requires InEvery(word, a + b)
    ensures InEvery(word, b + a)
  {
    forall k | 0 <= k < |b + a|
      ensures Rank(word, (b + a)[k]).Some?
    {
      if k < |b| {
        assert (b + a)[k] == (a + b)[|a| + k];
      } else {
        assert (b + a)[k] == (a + b)[k - |b|];
      }
    }
  }

  lemma SwappedRankSum(word: string, a: seq<seq<Row>>, b: seq<seq<Row>>)
    requires InEvery(word, a + b) && InEvery(word, b + a)
    ensures Sum(Positions(word, a + b)) == Sum(Positions(word, b + a))
  {
    PositionsConcat(word, a, b);
    PositionsConcat(word, b, a);
    SumConcat(Positions(word, a), Positions(word, b));
    SumConcat(Positions(word, b), Positions(word, a));
  }

  lemma SwappedMeans(word: string, a: seq<seq<Row>>, b: seq<seq<Row>>)
    requires InEvery(word, a + b) && InEvery(word, b + a) && |a + b| > 0
    ensures Mean(Variances(Matches(word, a + b))) == Mean(Variances(Matches(word, b + a)))
    ensures Mean(Goodnesses(Matches(word, a + b))) == Mean(Goodnesses(Matches(word, b + a)))
  {
    PositionsConcat(word, a, b);
    PositionsConcat(word, b, a);
    var ra, rb := Matches(word, a), Matches(word, b);
    assert Variances(ra + rb) == Variances(ra) + Variances(rb);
    assert Variances(rb + ra) == Variances(rb) + Variances(ra);
    assert Goodnesses(ra + rb) == Goodnesses(ra) + Goodnesses(rb);
    assert Goodnesses(rb + ra) == Goodnesses(rb) + Goodnesses(ra);
    MeanOfSwapped(Variances(ra), Variances(rb));
    MeanOfSwapped(Goodnesses(ra), Goodnesses(rb));
  }

  /** Whether aggregation fails does not depend on the order in which the sources' tables are
      given, and when the word is in every table the result does not either. Which table a
      missing word is reported for does depend on the order: it is the first one lacking it. */
  lemma AggregateIgnoresTableOrder(word: string, a: seq<seq<Row>>, b: seq<seq<Row>>)
    ensures Aggregate(word, a + b).Err? <==> Aggregate(word, b + a).Err?
    ensures InEvery(word, a + b) ==> Aggregate(word, a + b) == Aggregate(word, b + a)
  {
    if InEvery(word, a + b) {
      InEverySwapped(word, a, b);
      SwappedRankSum(word, a, b);
      if |a + b| > 0 {
        SwappedMeans(word, a, b);
      }
    } else if InEvery(word, b + a) {
      InEverySwapped(word, b, a);
      assert false;
    }
  }

  /** The averages lie between the smallest and largest per-table value of the word. */
  lemma AveragesWithinRange(word: string, tables: seq<seq<Row>>, m: FinalMetric)
    requires Aggregate(word, tables) == Ok(m)
    ensures var rows := Matches(word, tables);
      Min(Variances(rows)) <= m.avgVariance <= Max(Variances(rows)) &&
      Min(Goodnesses(rows)) <= m.avgGoodness <= Max(Goodnesses(rows))
  {
    var rows := Matches(word, tables);
    MeanBetween(Variances(rows));
    MeanBetween(Goodnesses(rows));
  }
}
