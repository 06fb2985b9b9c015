/**
  calculate_optimal_points: the most points a team could have scored in a
  gameweek with a perfect choice of starters, under the eight legal
  formations. Players are put into four category buckets, each bucket is
  sorted by points (highest first), and every formation takes the top
  players of each bucket; the answer is the best formation total, never
  below 0 because the running best starts at 0.
 */
module OptimalLineup {
  import opened PyLib
  import opened Sorting

  /** A squad pick enriched for the gameweek: names, the category code
      ('true_position'), this gameweek's points and the bench flag. */
  datatype PlayerStat = PlayerStat(
    element: int,
    position: int,
    firstName: string,
    secondName: string,
    category: int,
    points: int,
    benched: bool)

  function PointsOf(p: PlayerStat): int { p.points }

  /** Points column of a list of players. */
  function Pts(s: seq<PlayerStat>): seq<int>
  {
    KeysBy(s, PointsOf)
  }

  /** The index Python uses for 'category - 1' in a four-entry list: negative
      indices count from the end, anything else raises IndexError (None). */
  function Slot(category: int): (r: Option<nat>)
    ensures r.Some? <==> -3 <= category <= 4
    ensures r.Some? ==> r.value < 4
    ensures 1 <= category <= 4 ==> r == Some(category - 1)
    ensures -3 <= category <= 0 ==> r == Some(category + 3)
  {
    var i := category - 1;
    if 0 <= i < 4 then Some(i) else if -4 <= i < 0 then Some(i + 4) else None
  }

  /** The legal formations as [goalkeepers, defenders, midfielders, forwards]. */
  const Formations: seq<seq<nat>> := [
    [1, 3, 5, 2],
    [1, 3, 4, 3],
    [1, 4, 5, 1],
    [1, 4, 4, 2],
    [1, 4, 3, 3],
    [1, 5, 4, 1],
    [1, 5, 3, 2],
    [1, 5, 2, 3]
  ]

  ghost predicate FourWide(fs: seq<seq<nat>>)
  {
    forall k :: 0 <= k < |fs| ==> |fs[k]| == 4
  }

  /** The players of bucket c, in input order. */
  function Bucket(s: seq<PlayerStat>, c: nat): seq<PlayerStat>
  {
    if |s| == 0 then []
    else Bucket(s[..|s| - 1], c) + (if Slot(s[|s| - 1].category) == Some(c) then [s[|s| - 1]] else [])
  }

  /** Bucket c sorted by points, highest first (Python's stable sort). */
  function SortedBucket(s: seq<PlayerStat>, c: nat): seq<PlayerStat>
  {
    SortBy(Bucket(s, c), PointsOf)
  }

  /** sum of the points of sorted[:k]; a short bucket gives all it has. */
  function TopSum(sorted: seq<PlayerStat>, k: nat): int
  {
    Sum(Pts(sorted[..Min(k, |sorted|)]))
  }

  /** Points of formation f over buckets 0..p-1. */
  function FormationPointsUpTo(s: seq<PlayerStat>, f: seq<nat>, p: nat): int
    requires |f| == 4 && p <= 4
  {
    if p == 0 then 0 else FormationPointsUpTo(s, f, p - 1) + TopSum(SortedBucket(s, p - 1), f[p - 1])
  }

  function FormationPoints(s: seq<PlayerStat>, f: seq<nat>): int
    requires |f| == 4
  {
    FormationPointsUpTo(s, f, 4)
  }

  /** The running best over formations fs, starting from 0 and replaced only
      by a strictly larger formation total. */
  function BestOf(s: seq<PlayerStat>, fs: seq<seq<nat>>): int
    requires FourWide(fs)
  {
    if |fs| == 0 then 0
    else
      var best := BestOf(s, fs[..|fs| - 1]);
      var points := FormationPoints(s, fs[|fs| - 1]);
      if points > best then points else best
  }

  function OptimalPoints(s: seq<PlayerStat>): int
  {
    BestOf(s, Formations)
  }

  ghost predicate AllSlotted(s: seq<PlayerStat>)
  {
    forall i :: 0 <= i < |s| ==> Slot(s[i].category).Some?
  }

  /** The first half of calculate_optimal_points: the players split into the
      four category buckets, each sorted by points, highest first. */
  method SortedSquad(playerStats: seq<PlayerStat>) returns (r: Option<seq<seq<PlayerStat>>>)
    ensures r.None? <==> !AllSlotted(playerStats)
    ensures r.Some? ==> |r.value| == 4 && forall c :: 0 <= c < 4 ==> r.value[c] == SortedBucket(playerStats, c)
  {
    var dealt := DealSquad(playerStats);
    if dealt.None? {
      return None;
    }
    var squad := dealt.value;
    var pos := 0;
    while pos < 4
      invariant 0 <= pos <= 4 && |squad| == 4
      invariant forall c :: 0 <= c < pos ==> squad[c] == SortedBucket(playerStats, c)
      invariant forall c :: pos <= c < 4 ==> squad[c] == Bucket(playerStats, c)
    {
      squad := squad[pos := SortBy(squad[pos], PointsOf)];
      pos := pos + 1;
    }
    return Some(squad);
  }

  /** The players dealt into the four category buckets in squad order; None
      when one has no slot. */
  method DealSquad(playerStats: seq<PlayerStat>) returns (r: Option<seq<seq<PlayerStat>>>)
    ensures r.None? <==> !AllSlotted(playerStats)
    ensures r.Some? ==> |r.value| == 4 && forall c :: 0 <= c < 4 ==> r.value[c] == Bucket(playerStats, c)
  {
    var squad: seq<seq<PlayerStat>> := [[], [], [], []];
    var i := 0;
    while i < |playerStats|
      invariant 0 <= i <= |playerStats|
      invariant |squad| == 4
      invariant forall c :: 0 <= c < 4 ==> squad[c] == Bucket(playerStats[..i], c)
      invariant AllSlotted(playerStats[..i])
    {
      var slot := Slot(playerStats[i].category);
      if slot.None? {
        return None;
      }
      var dealt := squad[slot.value := squad[slot.value] + [playerStats[i]]];
      BucketsStep(playerStats, i, squad, dealt, slot.value);
      squad := dealt;
      i := i + 1;
    }
    assert playerStats[..i] == playerStats;
    return Some(squad);
  }

  /** Dealing player i into its slot extends that bucket and no other. */
  lemma BucketsStep(s: seq<PlayerStat>, i: nat, squad: seq<seq<PlayerStat>>, dealt: seq<seq<PlayerStat>>, slot: nat)
    requires i < |s| && |squad| == 4 && Slot(s[i].category) == Some(slot)
    requires dealt == squad[slot := squad[slot] + [s[i]]]
    requires forall c :: 0 <= c < 4 ==> squad[c] == Bucket(s[..i], c)
    ensures AllSlotted(s[..i]) ==> AllSlotted(s[..i + 1])
    ensures forall c :: 0 <= c < 4 ==> dealt[c] == Bucket(s[..i + 1], c)
  {
    assert s[..i + 1][..i] == s[..i];
  }

  /** One formation's total: the top f[p] players of each sorted bucket p. */
  method FormationTotal(playerStats: seq<PlayerStat>, squad: seq<seq<PlayerStat>>, formation: seq<nat>)
    returns (formationPoints: int)
    requires |squad| == 4 && forall c :: 0 <= c < 4 ==> squad[c] == SortedBucket(playerStats, c)
    requires |formation| == 4
    ensures formationPoints == FormationPoints(playerStats, formation)
  {
    formationPoints := 0;
    var p := 0;
    while p < 4
      invariant 0 <= p <= 4
      invariant formationPoints == FormationPointsUpTo(playerStats, formation, p)
    {
      formationPoints := formationPoints + TopSum(squad[p], formation[p]);
      p := p + 1;
    }
  }

  /** The second half: the running best over the formations. */
  method BestFormationPoints(playerStats: seq<PlayerStat>, squad: seq<seq<PlayerStat>>) returns (optimal: int)
    requires |squad| == 4 && forall c :: 0 <= c < 4 ==> squad[c] == SortedBucket(playerStats, c)
    ensures optimal == OptimalPoints(playerStats)
  {
    optimal := 0;
    var n := 0;
    assert FourWide(Formations);
    while n < |Formations|
      invariant 0 <= n <= |Formations|
      invariant optimal == BestOf(playerStats, Formations[..n])
    {
      var formationPoints := FormationTotal(playerStats, squad, Formations[n]);
      assert Formations[..n + 1][..n] == Formations[..n];
      if formationPoints > optimal {
        optimal := formationPoints;
      }
      n := n + 1;
    }
    assert Formations[..n] == Formations;
  }

  /** calculate_optimal_points(player_stats); None where Python raises IndexError
      for a category with no bucket. */
  method CalculateOptimalPoints(playerStats: seq<PlayerStat>) returns (r: Option<int>)
    ensures r.None? <==> !AllSlotted(playerStats)
    ensures r.Some? ==> r.value == OptimalPoints(playerStats)
  {
    var squad := SortedSquad(playerStats);
    if squad.None? {
      return None;
    }
    var optimal := BestFormationPoints(playerStats, squad.value);
    return Some(optimal);
  }

  // ---------------------------------------------------------------------------
  // The result is the best of the eight formations

  lemma {:induction false} BestOfBounds(s: seq<PlayerStat>, fs: seq<seq<nat>>)
    requires FourWide(fs)
    ensures BestOf(s, fs) >= 0
    ensures forall k :: 0 <= k < |fs| ==> BestOf(s, fs) >= FormationPoints(s, fs[k])
    ensures BestOf(s, fs) == 0 || exists k :: 0 <= k < |fs| && BestOf(s, fs) == FormationPoints(s, fs[k])
  {
    if |fs| > 0 {
      var init := fs[..|fs| - 1];
      BestOfBounds(s, init);
      forall k | 0 <= k < |fs| - 1
        ensures fs[k] == init[k]
      {
      }
    }
  }

  /** The optimum is never below 0, is at least every legal formation's
      total, and is 0 or the total of one of them. */
  lemma OptimalIsBestFormation(s: seq<PlayerStat>)
    ensures OptimalPoints(s) >= 0
    ensures forall k :: 0 <= k < |Formations| ==> OptimalPoints(s) >= FormationPoints(s, Formations[k])
    ensures OptimalPoints(s) == 0 || exists k :: 0 <= k < |Formations| && OptimalPoints(s) == FormationPoints(s, Formations[k])
  {
    BestOfBounds(s, Formations);
  }

  // ---------------------------------------------------------------------------
  // The result does not depend on the order of the input list

  lemma {:induction false} BucketCount(s: seq<PlayerStat>, c: nat, p: PlayerStat)
    ensures multiset(Bucket(s, c))[p] == if Slot(p.category) == Some(c) then multiset(s)[p] else 0
  {
    if |s| > 0 {
      BucketCount(s[..|s| - 1], c, p);
      assert s == s[..|s| - 1] + [s[|s| - 1]];
    }
  }

  lemma BucketPermutation(s: seq<PlayerStat>, s': seq<PlayerStat>, c: nat)
    requires multiset(s) == multiset(s')
    ensures multiset(Bucket(s, c)) == multiset(Bucket(s', c))
  {
    forall p ensures multiset(Bucket(s, c))[p] == multiset(Bucket(s', c))[p] {
      BucketCount(s, c, p);
      BucketCount(s', c, p);
    }
  }

  lemma PtsPrefix(t: seq<PlayerStat>, m: nat)
    requires m <= |t|
    ensures Pts(t[..m]) == Pts(t)[..m]
  {
  }

  lemma TopSumPermutation(b: seq<PlayerStat>, b': seq<PlayerStat>, k: nat)
    requires multiset(b) == multiset(b')
    ensures TopSum(SortBy(b, PointsOf), k) == TopSum(SortBy(b', PointsOf), k)
  {
    var t, t' := SortBy(b, PointsOf), SortBy(b', PointsOf);
    SortByKeysDetermined(b, b', PointsOf);
    var m := Min(k, |t|);
    PtsPrefix(t, m);
    PtsPrefix(t', m);
  }

  lemma {:induction false} FormationPointsPermutation(s: seq<PlayerStat>, s': seq<PlayerStat>, f: seq<nat>, p: nat)
    requires multiset(s) == multiset(s') && |f| == 4 && p <= 4
    ensures FormationPointsUpTo(s, f, p) == FormationPointsUpTo(s', f, p)
  {
    if p > 0 {
      var c := p - 1;
      FormationPointsPermutation(s, s', f, c);
      BucketPermutation(s, s', c);
      TopSumPermutation(Bucket(s, c), Bucket(s', c), f[c]);
      assert FormationPointsUpTo(s, f, p) == FormationPointsUpTo(s, f, c) + TopSum(SortedBucket(s, c), f[c]);
      assert FormationPointsUpTo(s', f, p) == FormationPointsUpTo(s', f, c) + TopSum(SortedBucket(s', c), f[c]);
    }
  }

  lemma {:induction false} BestOfPermutation(s: seq<PlayerStat>, s': seq<PlayerStat>, fs: seq<seq<nat>>)
    requires multiset(s) == multiset(s') && FourWide(fs)
    ensures BestOf(s, fs) == BestOf(s', fs)
  {
    if |fs| > 0 {
      BestOfPermutation(s, s', fs[..|fs| - 1]);
      FormationPointsPermutation(s, s', fs[|fs| - 1], 4);
    }
  }

  /** Reordering the players does not change the optimum. */
  lemma OptimalIgnoresOrder(s: seq<PlayerStat>, s': seq<PlayerStat>)
    requires multiset(s) == multiset(s')
    ensures OptimalPoints(s) == OptimalPoints(s')
  {
    BestOfPermutation(s, s', Formations);
  }

  // ---------------------------------------------------------------------------
  // The optimum covers the starting eleven whenever it is a legal formation

  /** The starters of bucket c, in input order. */
  function StarterBucket(s: seq<PlayerStat>, c: nat): seq<PlayerStat>
  {
    if |s| == 0 then []
    else StarterBucket(s[..|s| - 1], c)
         + (if !s[|s| - 1].benched && Slot(s[|s| - 1].category) == Some(c) then [s[|s| - 1]] else [])
  }

  /** Points of the starters. */
  function StarterPoints(s: seq<PlayerStat>): int
  {
    if |s| == 0 then 0
    else StarterPoints(s[..|s| - 1]) + (if s[|s| - 1].benched then 0 else s[|s| - 1].points)
  }

  /** Starter counts per category, [goalkeepers, defenders, midfielders, forwards]. */
  function Formation(s: seq<PlayerStat>): seq<nat>
  {
    [|StarterBucket(s, 0)|, |StarterBucket(s, 1)|, |StarterBucket(s, 2)|, |StarterBucket(s, 3)|]
  }

  lemma {:induction false} StarterBucketWithin(s: seq<PlayerStat>, c: nat)
    ensures multiset(StarterBucket(s, c)) <= multiset(Bucket(s, c))
  {
    if |s| > 0 {
      StarterBucketWithin(s[..|s| - 1], c);
    }
  }

  function BucketSums(s: seq<PlayerStat>): int
  {
    Sum(Pts(StarterBucket(s, 0))) + Sum(Pts(StarterBucket(s, 1)))
      + Sum(Pts(StarterBucket(s, 2))) + Sum(Pts(StarterBucket(s, 3)))
  }

  lemma SumPtsSnoc(s: seq<PlayerStat>, x: PlayerStat)
    ensures Sum(Pts(s + [x])) == Sum(Pts(s)) + x.points
  {
    assert Pts(s + [x])[..|s|] == Pts(s);
  }

  lemma StarterBucketSnoc(s: seq<PlayerStat>, c: nat)
    requires |s| > 0
    ensures Sum(Pts(StarterBucket(s, c)))
         == Sum(Pts(StarterBucket(s[..|s| - 1], c)))
            + (if !s[|s| - 1].benched && Slot(s[|s| - 1].category) == Some(c) then s[|s| - 1].points else 0)
  {
    var x := s[|s| - 1];
    if !x.benched && Slot(x.category) == Some(c) {
      SumPtsSnoc(StarterBucket(s[..|s| - 1], c), x);
    } else {
      assert StarterBucket(s, c) == StarterBucket(s[..|s| - 1], c);
    }
  }

  lemma {:induction false} StarterPointsByBucket(s: seq<PlayerStat>)
    requires AllSlotted(s)
    ensures StarterPoints(s) == BucketSums(s)
  {
    if |s| > 0 {
      var init := s[..|s| - 1];
      assert AllSlotted(init);
      StarterPointsByBucket(init);
      StarterBucketSnoc(s, 0);
      StarterBucketSnoc(s, 1);
      StarterBucketSnoc(s, 2);
      StarterBucketSnoc(s, 3);
      assert Slot(s[|s| - 1].category).Some?;
    }
  }

  lemma KeysBySubMultiset(u: seq<PlayerStat>, t: seq<PlayerStat>)
    requires multiset(u) <= multiset(t)
    ensures multiset(Pts(u)) <= multiset(Pts(t))
    decreases |u|
  {
    if |u| > 0 {
      var x := u[|u| - 1];
      assert x in multiset(t);
      var j :| 0 <= j < |t| && t[j] == x;
      var rest := t[..j] + t[j + 1..];
      assert t == t[..j] + [x] + t[j + 1..];
      assert u == u[..|u| - 1] + [x];
      assert multiset(rest) == multiset(t) - multiset{x};
      assert multiset(u[..|u| - 1]) <= multiset(rest);
      KeysBySubMultiset(u[..|u| - 1], rest);
      KeysByAppend(u[..|u| - 1], [x], PointsOf);
      KeysByAppend(t[..j], [x], PointsOf);
      KeysByAppend(t[..j] + [x], t[j + 1..], PointsOf);
      KeysByAppend(t[..j], t[j + 1..], PointsOf);
    }
  }

  lemma SumRemove(w: seq<int>, j: nat)
    requires j < |w|
    ensures Sum(w) == Sum(w[..j] + w[j + 1..]) + w[j]
  {
    var a, b := w[..j], w[j + 1..];
    assert w == w[..j + 1] + b;
    SumConcat(w[..j + 1], b);
    PrefixStep(w, j);
    SumConcat(a, b);
  }

  lemma PrefixStep(w: seq<int>, j: nat)
    requires j < |w|
    ensures Sum(w[..j + 1]) == Sum(w[..j]) + w[j]
  {
    assert w[..j + 1][..j] == w[..j];
  }

  lemma MultisetRemove(w: seq<int>, j: nat)
    requires j < |w|
    ensures multiset(w[..j] + w[j + 1..]) == multiset(w) - multiset{w[j]}
  {
    assert w == w[..j] + [w[j]] + w[j + 1..];
  }

  lemma TopPrefixSplit(t: seq<int>, n: nat)
    requires 0 < n <= |t|
    ensures Sum(t[..n]) == t[0] + Sum(t[1..][..n - 1])
  {
    SumFront(t[..n]);
    assert t[..n][1..] == t[1..][..n - 1];
  }

  lemma PrefixSnoc(t: seq<int>, n: nat)
    requires 0 < n <= |t|
    ensures Sum(t[..n]) == Sum(t[..n - 1]) + t[n - 1]
  {
    assert t[..n][..n - 1] == t[..n - 1];
  }

  lemma SubMinus(a: multiset<int>, b: multiset<int>, x: int)
    requires a <= b
    ensures a - multiset{x} <= b - multiset{x}
  {
  }

  lemma SubMissing(a: multiset<int>, b: multiset<int>, x: int)
    requires a <= b && x !in a
    ensures a <= b - multiset{x}
  {
  }

  /** The first |w| entries of a non-increasing list add up to at least any
      |w| of its entries. */
  lemma {:induction false} TopEntriesDominate(t: seq<int>, w: seq<int>)
    requires DescendingInts(t) && multiset(w) <= multiset(t)
    ensures |w| <= |t| && Sum(w) <= Sum(t[..|w|])
  {
    if |w| > 0 {
      assert w[0] in multiset(t);
      var x, t' := t[0], t[1..];
      DescendingTail(t);
      if x in multiset(w) {
        var j :| 0 <= j < |w| && w[j] == x;
        var w' := w[..j] + w[j + 1..];
        SumRemove(w, j);
        MultisetRemove(w, j);
        SubMinus(multiset(w), multiset(t), x);
        TopEntriesDominate(t', w');
        TopPrefixSplit(t, |w|);
      } else {
        SubMissing(multiset(w), multiset(t), x);
        TopEntriesDominate(t', w);
        TopPrefixSplit(t, |w|);
        PrefixSnoc(t', |w|);
        assert x >= t'[|w| - 1] by {
          assert t[0] >= t[|w|];
        }
      }
    }
  }

  lemma StartersWithinTopSum(s: seq<PlayerStat>, c: nat)
    ensures |StarterBucket(s, c)| <= |SortedBucket(s, c)|
    ensures Sum(Pts(StarterBucket(s, c))) <= TopSum(SortedBucket(s, c), |StarterBucket(s, c)|)
  {
    var u, b, t := StarterBucket(s, c), Bucket(s, c), SortedBucket(s, c);
    StarterBucketWithin(s, c);
    assert multiset(u) <= multiset(t);
    KeysBySubMultiset(u, t);
    SortByOrdered(b, PointsOf);
    assert DescendingInts(Pts(t));
    TopEntriesDominate(Pts(t), Pts(u));
    assert Pts(t[..|u|]) == Pts(t)[..|u|];
  }

  lemma FormationPointsExpand(s: seq<PlayerStat>, f: seq<nat>)
    requires |f| == 4
    ensures FormationPoints(s, f)
         == TopSum(SortedBucket(s, 0), f[0]) + TopSum(SortedBucket(s, 1), f[1])
          + TopSum(SortedBucket(s, 2), f[2]) + TopSum(SortedBucket(s, 3), f[3])
  {
    assert FormationPointsUpTo(s, f, 1) == TopSum(SortedBucket(s, 0), f[0]);
    assert FormationPointsUpTo(s, f, 2) == FormationPointsUpTo(s, f, 1) + TopSum(SortedBucket(s, 1), f[1]);
    assert FormationPointsUpTo(s, f, 3) == FormationPointsUpTo(s, f, 2) + TopSum(SortedBucket(s, 2), f[2]);
    assert FormationPointsUpTo(s, f, 4) == FormationPointsUpTo(s, f, 3) + TopSum(SortedBucket(s, 3), f[3]);
  }

  /** When the starting eleven is one of the legal formations, the optimum is
      at least what the starters scored. */
  lemma OptimalCoversStarters(s: seq<PlayerStat>)
    requires AllSlotted(s)
    requires Formation(s) in Formations
    ensures OptimalPoints(s) >= StarterPoints(s)
  {
    var f := Formation(s);
    StarterPointsByBucket(s);
    StartersWithinTopSum(s, 0);
    StartersWithinTopSum(s, 1);
    StartersWithinTopSum(s, 2);
    StartersWithinTopSum(s, 3);
    FormationPointsExpand(s, f);
    assert FormationPoints(s, f) >= BucketSums(s);
    OptimalIsBestFormation(s);
    var k :| 0 <= k < |Formations| && Formations[k] == f;
    assert OptimalPoints(s) >= FormationPoints(s, Formations[k]);
  }
}
