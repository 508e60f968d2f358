/**
 * The friend clusterer (get_top_friends): the adaptive cutoff distance computed from the
 * pairwise-distance matrix, and the split of the friends into top and low friends once the
 * hierarchical clustering has labelled them.
 */
module Friends {
  import opened Wrappers
  import opened RealSeq

  /** How far above the mean nearest-neighbour distance the cutoff sits. */
  const DistanceMultiplier: real := 1.2

  /** The value a zero distance is replaced by before minima are taken. */
  const ZeroSentinel: real := 999.0

  /** The matrix has one row per friend and one column per friend. */
  predicate IsSquare(m: seq<seq<real>>)
  {
    forall i :: 0 <= i < |m| ==> |m[i]| == |m|
  }

  /** Cosine distances lie in [0, 2]. */
  predicate IsDistanceMatrix(m: seq<seq<real>>)
  {
    IsSquare(m) && forall i, j :: 0 <= i < |m| && 0 <= j < |m| ==> 0.0 <= m[i][j] <= 2.0
  }

  function ReplaceZero(d: real): real
  {
    if d == 0.0 then ZeroSentinel else d
  }

  /** Column j of the matrix after zeros are replaced by the sentinel. */
  function Column(m: seq<seq<real>>, j: nat): (c: seq<real>)
    requires IsSquare(m) && j < |m|
    ensures |c| == |m|
  {
    seq(|m|, i requires 0 <= i < |m| => ReplaceZero(m[i][j]))
  }

  /** Per friend, the smallest distance left after zeros are replaced (the frame's column minima). */
  function NearestDistances(m: seq<seq<real>>): (mins: seq<real>)
    requires IsSquare(m)
    ensures |mins| == |m|
  {
    seq(|m|, j requires 0 <= j < |m| => Min(Column(m, j)))
  }

  /** An empty friend list: the code raises in pdist, which rejects the one-dimensional empty
      array, before any matrix or mean exists; the model reports that failure here. */
  datatype ClusterFault = NoFriends

  /** The adaptive cutoff: the multiplier times the mean of the friends' nearest distances. */
  function Cutoff(m: seq<seq<real>>): (r: Result<real, ClusterFault>)
    requires IsSquare(m)
    ensures r.Err? <==> |m| == 0
    ensures r.Ok? ==> var nearest := NearestDistances(m);
      DistanceMultiplier * Min(nearest) <= r.value <= DistanceMultiplier * Max(nearest)
  {
    if |m| == 0 then Err(NoFriends)
    else
      MeanBetween(NearestDistances(m));
      Ok(DistanceMultiplier * Mean(NearestDistances(m)))
  }

  /** A friend's nearest distance never comes from a zero entry: it is the smallest non-zero
      entry of its column, or the sentinel when the whole column is zero. */
  lemma NearestDistanceSkipsZeros(m: seq<seq<real>>, j: nat)
    requires IsDistanceMatrix(m) && j < |m|
    ensures var d := NearestDistances(m)[j];
      0.0 < d &&
      (forall i :: 0 <= i < |m| && m[i][j] != 0.0 ==> d <= m[i][j]) &&
      ((exists i :: 0 <= i < |m| && m[i][j] != 0.0) ==>
        exists i :: 0 <= i < |m| && m[i][j] != 0.0 && d == m[i][j]) &&
      ((forall i :: 0 <= i < |m| ==> m[i][j] == 0.0) ==> d == ZeroSentinel)
  {
    var c := Column(m, j);
    var d := Min(c);
    assert NearestDistances(m)[j] == d;
    var k :| 0 <= k < |c| && c[k] == d;
    forall i | 0 <= i < |m| && m[i][j] != 0.0
      ensures d <= m[i][j]
    {
      assert c[i] == m[i][j] && c[i] in c;
    }
    if exists i :: 0 <= i < |m| && m[i][j] != 0.0 {
      var i :| 0 <= i < |m| && m[i][j] != 0.0;
      assert c[i] in c && d <= m[i][j] <= 2.0;
      assert m[k][j] != 0.0 && d == m[k][j];
    }
  }

  /** The cutoff is positive and lies within the multiplier times the range of the nearest distances. */
  lemma CutoffBounds(m: seq<seq<real>>)
    requires IsDistanceMatrix(m) && |m| > 0
    ensures var nearest := NearestDistances(m);
      Cutoff(m).Ok? &&
      0.0 < Cutoff(m).value &&
      DistanceMultiplier * Min(nearest) <= Cutoff(m).value <= DistanceMultiplier * Max(nearest)
  {
    var nearest := NearestDistances(m);
    var k :| 0 <= k < |nearest| && nearest[k] == Min(nearest);
    NearestDistanceSkipsZeros(m, k);
    MeanBetween(nearest);
  }

  /** The positions holding cluster id 1, ascending, none missed (numpy's where(ids == 1)). */
  function OnesAt(ids: seq<int>): (idx: seq<nat>)
    ensures forall k :: 0 <= k < |idx| ==> idx[k] < |ids| && ids[idx[k]] == 1
    ensures forall k, l :: 0 <= k < l < |idx| ==> idx[k] < idx[l]
    ensures forall i :: 0 <= i < |ids| && ids[i] == 1 ==> i in idx
    ensures |idx| <= |ids|
    decreases |ids|
  {
    if ids == [] then []
    else
      var n := |ids| - 1;
      var rest := OnesAt(ids[..n]);
      if ids[n] == 1 then rest + [n] else rest
  }

  /** The friends whose cluster id is 1, in their original order. */
  function TopFriends(friends: seq<string>, ids: seq<int>): (top: seq<string>)
    requires |ids| == |friends|
    ensures |top| == |OnesAt(ids)| <= |friends|
    ensures forall w :: w in top ==> exists i :: InTopCluster(friends, ids, i, w)
  {
    var idx := OnesAt(ids);
    var picked := seq(|idx|, k requires 0 <= k < |idx| => friends[idx[k]]);
    assert forall k :: 0 <= k < |picked| ==> InTopCluster(friends, ids, idx[k], picked[k]);
    assert forall w :: w in picked ==> exists k :: 0 <= k < |picked| && picked[k] == w;
    picked
  }

  function Elements(s: seq<string>): set<string>
  {
    set x | x in s
  }

  /** Top friends as a list, low friends as the set of friends that are not top friends. */
  function Partition(friends: seq<string>, ids: seq<int>): (p: (seq<string>, set<string>))
    requires |ids| == |friends|
    ensures p.0 == TopFriends(friends, ids)
    ensures Elements(p.0) !! p.1 && Elements(p.0) + p.1 == Elements(friends)
  {
    var top := TopFriends(friends, ids);
    (top, Elements(friends) - Elements(top))
  }

  /** Friend i was placed in cluster 1. */
  predicate InTopCluster(friends: seq<string>, ids: seq<int>, i: int, w: string)
    requires |ids| == |friends|
  {
    0 <= i < |friends| && friends[i] == w && ids[i] == 1
  }

  /** Top friends are exactly the friends labelled 1, listed in their original order. */
  lemma TopFriendsInOrder(friends: seq<string>, ids: seq<int>)
    requires |ids| == |friends|
    ensures var top, idx := TopFriends(friends, ids), OnesAt(ids);
      |top| == |idx| &&
      (forall k :: 0 <= k < |top| ==> top[k] == friends[idx[k]]) &&
      (forall w :: w in top <==> exists i :: InTopCluster(friends, ids, i, w))
  {
    var top, idx := TopFriends(friends, ids), OnesAt(ids);
    forall w | w in top
      ensures exists i :: InTopCluster(friends, ids, i, w)
    {
      var k :| 0 <= k < |top| && top[k] == w;
      assert InTopCluster(friends, ids, idx[k], w);
    }
    forall w | exists i :: InTopCluster(friends, ids, i, w)
      ensures w in top
    {
      var i :| InTopCluster(friends, ids, i, w);
      var k :| 0 <= k < |idx| && idx[k] == i;
      assert top[k] == w;
    }
  }

  /** Top and low friends are disjoint and together make up the friends; a friend is low exactly
      when no occurrence of it was labelled 1. */
  lemma PartitionCoversFriends(friends: seq<string>, ids: seq<int>)
    requires |ids| == |friends|
    ensures var (top, low) := Partition(friends, ids);
      Elements(top) !! low &&
      Elements(top) + low == Elements(friends) &&
      (forall w :: w in low <==> w in friends && !exists i :: InTopCluster(friends, ids, i, w))
  {
    TopFriendsInOrder(friends, ids);
    var top := TopFriends(friends, ids);
    assert forall w :: w in top ==> w in friends;
  }

  /** The labels of a flat clustering: every id is at least 1 and no id skips the one below it. */
  predicate FlatLabels(ids: seq<int>)
  {
    forall i :: 0 <= i < |ids| ==> ids[i] >= 1 && (ids[i] > 1 ==> ids[i] - 1 in ids)
  }

  lemma {:induction false} LabelOneUsed(ids: seq<int>, v: int)
    requires FlatLabels(ids) && v in ids
    ensures 1 in ids
    decreases v
  {
    if v != 1 {
      LabelOneUsed(ids, v - 1);
    }
  }

  /** With flat labels, a non-empty friend list always has at least one top friend. */
  lemma TopFriendsNonEmpty(friends: seq<string>, ids: seq<int>)
    requires |ids| == |friends| > 0 && FlatLabels(ids)
    ensures |TopFriends(friends, ids)| > 0
  {
    LabelOneUsed(ids, ids[0]);
    var i :| 0 <= i < |ids| && ids[i] == 1;
    assert i in OnesAt(ids);
  }
}
