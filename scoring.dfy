/**
 * The candidate scorer (get_scores): four scores for one candidate clue word,
 * measured against the board words with a caller-supplied embedding distance.
 */
module Scoring {
  import opened Wrappers
  import opened RealSeq
  import opened Text

  /** Cosine distance between the embeddings of two words, as the caller's vector table gives it. */
  type Dist = (string, string) -> real

  /** The board context passed to the scorer. `lowFriends` enumerates the set of low friends in any order. */
  datatype Board = Board(
    foes: seq<string>,
    neutrals: seq<string>,
    assassin: seq<string>,
    topFriends: seq<string>,
    lowFriends: seq<string>,
    boardWords: seq<string>)

  datatype Scores = Scores(goodness: real, badMinimax: real, neutralsMinimax: real, variance: real)

  /** The exceptions the scorer raises: an index into an empty assassin list, a mean of
      no bad words or of no top friends, and min of no neutrals. */
  datatype Fault = NoAssassin | NoBadWords | NoTopFriends | NoNeutrals

  /** A primary-source candidate at this distance from the assassin or closer is rejected. */
  const AssassinCutoff: real := 0.8

  function Distances(word: string, targets: seq<string>, dist: Dist): seq<real>
  {
    seq(|targets|, i requires 0 <= i < |targets| => dist(word, targets[i]))
  }

  /** Distances to the foes followed by the distances to the assassin. */
  function BadDistances(word: string, dist: Dist, b: Board): seq<real>
  {
    Distances(word, b.foes, dist) + Distances(word, b.assassin, dist)
  }

  /** Distances to the top friends followed by the distances to the low friends. */
  function FriendDistances(word: string, dist: Dist, b: Board): seq<real>
  {
    Distances(word, b.topFriends, dist) + Distances(word, b.lowFriends, dist)
  }

  /** The lowered word is a board word, or some board word occurs inside it. */
  predicate IsBoardDerived(word: string, boardWords: seq<string>)
  {
    var w := Lower(word);
    w in boardWords || exists i :: 0 <= i < |boardWords| && IsSubstring(boardWords[i], w)
  }

  predicate TooCloseToAssassin(word: string, dist: Dist, primary: bool, b: Board)
  {
    primary && |b.assassin| > 0 && dist(word, b.assassin[0]) <= AssassinCutoff
  }

  /** The word lists every score formula divides by or takes a minimum of are non-empty. */
  predicate Computable(b: Board)
  {
    |b.foes| + |b.assassin| > 0 && |b.topFriends| > 0 && |b.neutrals| > 0
  }

  function Score(word: string, dist: Dist, primary: bool, b: Board): (r: Result<Option<Scores>, Fault>)
    ensures r == Ok(None) <==>
      IsBoardDerived(word, b.boardWords) || TooCloseToAssassin(word, dist, primary, b)
    ensures r.Err? <==>
      !IsBoardDerived(word, b.boardWords) &&
      ((primary && |b.assassin| == 0) || (!TooCloseToAssassin(word, dist, primary, b) && !Computable(b)))
    ensures r == Err(NoAssassin) <==>
      !IsBoardDerived(word, b.boardWords) && primary && |b.assassin| == 0
    ensures r == Err(NoBadWords) <==>
      !IsBoardDerived(word, b.boardWords) && !primary && |b.foes| + |b.assassin| == 0
    ensures r == Err(NoTopFriends) <==>
      !IsBoardDerived(word, b.boardWords) && !(primary && |b.assassin| == 0) &&
      !TooCloseToAssassin(word, dist, primary, b) &&
      |b.foes| + |b.assassin| > 0 && |b.topFriends| == 0
    ensures r == Err(NoNeutrals) <==>
      !IsBoardDerived(word, b.boardWords) && !(primary && |b.assassin| == 0) &&
      !TooCloseToAssassin(word, dist, primary, b) &&
      |b.foes| + |b.assassin| > 0 && |b.topFriends| > 0 && |b.neutrals| == 0
  {
    if IsBoardDerived(word, b.boardWords) then Ok(None)
    else if primary && |b.assassin| == 0 then Err(NoAssassin)
    else if TooCloseToAssassin(word, dist, primary, b) then Ok(None)
    else
      Measure(BadDistances(word, dist, b), Distances(word, b.topFriends, dist),
              Distances(word, b.lowFriends, dist), Distances(word, b.neutrals, dist))
  }

  /** The four score formulas over the candidate's distances to the bad words, the top friends,
      the low friends and the neutrals, with the errors Python raises on empty lists. */
  function Measure(bad: seq<real>, top: seq<real>, low: seq<real>, neutrals: seq<real>): (r: Result<Option<Scores>, Fault>)
    ensures r != Ok(None) && r != Err(NoAssassin)
    ensures r.Ok? <==> |bad| > 0 && |top| > 0 && |neutrals| > 0
    ensures r == Err(NoBadWords) <==> |bad| == 0
    ensures r == Err(NoTopFriends) <==> |bad| > 0 && |top| == 0
    ensures r == Err(NoNeutrals) <==> |bad| > 0 && |top| > 0 && |neutrals| == 0
  {
    if |bad| == 0 then Err(NoBadWords)
    else if |top| == 0 then Err(NoTopFriends)
    else
      var friends := top + low;
      if |neutrals| == 0 then Err(NoNeutrals)
      else
        var maxFriend := Max(friends);
        Ok(Some(Scores(
          Mean(bad) - Mean(top),
          Min(bad) - maxFriend,
          Min(neutrals) - maxFriend,
          Abs(maxFriend) - Abs(Min(friends)))))
  }

  /** Lowering is applied inside the guard, so the guard ignores the case of the candidate. */
  lemma BoardGuardIgnoresCase(word: string, boardWords: seq<string>)
    ensures IsBoardDerived(Lower(word), boardWords) == IsBoardDerived(word, boardWords)
  {
    LowerIdempotent(word);
  }

  /** The equality test of the guard is subsumed by its substring test. */
  lemma BoardGuardIsSubstringTest(word: string, boardWords: seq<string>)
    ensures IsBoardDerived(word, boardWords) <==>
      exists i :: 0 <= i < |boardWords| && IsSubstring(boardWords[i], Lower(word))
  {
    var w := Lower(word);
    if w in boardWords {
      var i :| 0 <= i < |boardWords| && boardWords[i] == w;
      SelfIsSubstring(w);
    }
  }

  /** Goodness is the gap between the mean bad distance and the mean top-friend distance,
      and so lies between the closest-danger/farthest-top gap and the farthest-danger/closest-top gap. */
  lemma GoodnessIsMeanGap(word: string, dist: Dist, primary: bool, b: Board, s: Scores)
    requires Score(word, dist, primary, b) == Ok(Some(s))
    ensures var bad, top := BadDistances(word, dist, b), Distances(word, b.topFriends, dist);
      |bad| > 0 && |top| > 0 &&
      s.goodness == Mean(bad) - Mean(top) &&
      Min(bad) - Max(top) <= s.goodness <= Max(bad) - Min(top)
  {
    var bad, top := BadDistances(word, dist, b), Distances(word, b.topFriends, dist);
    MeanBetween(bad);
    MeanBetween(top);
  }

  /** A candidate farther from every foe and the assassin than from every top friend has positive goodness. */
  lemma SeparatedCandidateHasPositiveGoodness(word: string, dist: Dist, primary: bool, b: Board, s: Scores)
    requires Score(word, dist, primary, b) == Ok(Some(s))
    requires forall d, t :: d in BadDistances(word, dist, b) && t in Distances(word, b.topFriends, dist) ==> d > t
    ensures s.goodness > 0.0
  {
    GoodnessIsMeanGap(word, dist, primary, b, s);
  }

  /** bad_minimax is the worst-case margin: the smallest difference between a bad distance and a friend distance. */
  lemma BadMinimaxIsWorstMargin(word: string, dist: Dist, primary: bool, b: Board, s: Scores)
    requires Score(word, dist, primary, b) == Ok(Some(s))
    ensures var bad, friends := BadDistances(word, dist, b), FriendDistances(word, dist, b);
      (forall d, f :: d in bad && f in friends ==> s.badMinimax <= d - f) &&
      (exists d, f :: d in bad && f in friends && s.badMinimax == d - f)
  {
    var bad, friends := BadDistances(word, dist, b), FriendDistances(word, dist, b);
    assert Min(bad) in bad && Max(friends) in friends;
  }

  /** neutrals_minimax is the smallest difference between a neutral distance and a friend distance. */
  lemma NeutralsMinimaxIsWorstMargin(word: string, dist: Dist, primary: bool, b: Board, s: Scores)
    requires Score(word, dist, primary, b) == Ok(Some(s))
    ensures var neutrals, friends := Distances(word, b.neutrals, dist), FriendDistances(word, dist, b);
      (forall d, f :: d in neutrals && f in friends ==> s.neutralsMinimax <= d - f) &&
      (exists d, f :: d in neutrals && f in friends && s.neutralsMinimax == d - f)
  {
    var neutrals, friends := Distances(word, b.neutrals, dist), FriendDistances(word, dist, b);
    assert Min(neutrals) in neutrals && Max(friends) in friends;
  }

  /** With non-negative distances, variance is the spread of the friend distances:
      non-negative, at least every pairwise difference, and equal to one of them. */
  lemma VarianceIsSpread(word: string, dist: Dist, primary: bool, b: Board, s: Scores)
    requires Score(word, dist, primary, b) == Ok(Some(s))
    requires forall f :: f in FriendDistances(word, dist, b) ==> f >= 0.0
    ensures var friends := FriendDistances(word, dist, b);
      s.variance >= 0.0 &&
      (forall f, g :: f in friends && g in friends ==> f - g <= s.variance) &&
      (exists f, g :: f in friends && g in friends && s.variance == f - g)
  {
    var friends := FriendDistances(word, dist, b);
    assert Min(friends) in friends && Max(friends) in friends;
  }

  lemma DistancesOfSameTargets(word: string, dist: Dist, xs: seq<string>, ys: seq<string>)
    requires forall w :: w in xs ==> w in ys
    ensures forall d :: d in Distances(word, xs, dist) ==> d in Distances(word, ys, dist)
  {
    forall d | d in Distances(word, xs, dist)
      ensures d in Distances(word, ys, dist)
    {
      var i :| 0 <= i < |xs| && Distances(word, xs, dist)[i] == d;
      assert xs[i] in xs;
      var j :| 0 <= j < |ys| && ys[j] == xs[i];
      assert Distances(word, ys, dist)[j] == d;
    }
  }

  lemma MeasureIgnoresLowOrder(bad: seq<real>, top: seq<real>, low: seq<real>, low': seq<real>, neutrals: seq<real>)
    requires forall d :: d in low <==> d in low'
    ensures Measure(bad, top, low, neutrals) == Measure(bad, top, low', neutrals)
  {
    if |top| > 0 {
      assert forall d :: d in top + low <==> d in top + low';
      SameValuesSameExtremes(top + low, top + low');
    }
  }

  /** The low friends come from a set, so their enumeration order is arbitrary; the scores do not depend on it. */
  lemma ScoreIgnoresLowFriendOrder(word: string, dist: Dist, primary: bool, b: Board, low: seq<string>)
    requires forall w :: w in low <==> w in b.lowFriends
    ensures Score(word, dist, primary, b.(lowFriends := low)) == Score(word, dist, primary, b)
  {
    DistancesOfSameTargets(word, dist, b.lowFriends, low);
    DistancesOfSameTargets(word, dist, low, b.lowFriends);
    MeasureIgnoresLowOrder(BadDistances(word, dist, b), Distances(word, b.topFriends, dist),
                           Distances(word, b.lowFriends, dist), Distances(word, low, dist),
                           Distances(word, b.neutrals, dist));
  }

  /** A board with bad words and top friends but no neutral words: a candidate that passes both
      guards makes the scorer raise, since min is taken over no neutral distances. */
  lemma NoNeutralsRaise(word: string, dist: Dist, primary: bool, b: Board)
    requires !IsBoardDerived(word, b.boardWords)
    requires primary ==> |b.assassin| > 0
    requires !TooCloseToAssassin(word, dist, primary, b)
    requires |b.foes| + |b.assassin| > 0 && |b.topFriends| > 0 && |b.neutrals| == 0
    ensures Score(word, dist, primary, b) == Err(NoNeutrals)
  {
  }

  /** An instance: two friends, two foes, an assassin and no neutral words. */
  lemma NoNeutralsBoardRaises(dist: Dist, primary: bool)
    requires primary ==> dist("pet", "poison") > AssassinCutoff
    ensures var b := Board(["car", "bus"], [], ["poison"], ["cat", "dog"], [],
                           ["cat", "dog", "car", "bus", "poison"]);
      Score("pet", dist, primary, b) == Err(NoNeutrals)
  {
    var boardWords := ["cat", "dog", "car", "bus", "poison"];
    assert Lower("pet") == "pet";
    forall i | 0 <= i < |boardWords|
      ensures !IsSubstring(boardWords[i], "pet")
    {
      assert "pet"[1..] == "et" && "et"[1..] == "t" && "t"[1..] == "";
      assert !IsSubstring(boardWords[i], "");
      assert !IsSubstring(boardWords[i], "t");
      assert !IsSubstring(boardWords[i], "et");
      if i < 4 {
        assert "pet"[..3] == "pet" && boardWords[i][0] != 'p';
      }
    }
    assert !IsBoardDerived("pet", boardWords);
    NoNeutralsRaise("pet", dist, primary, Board(["car", "bus"], [], ["poison"], ["cat", "dog"], [], boardWords));
  }
}
