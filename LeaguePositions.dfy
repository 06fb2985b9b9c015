/**
  calculate_league_positions: once every team's adjusted record for a
  gameweek is saved, rank the teams by cumulative points and by cumulative
  optimal points (highest first, ties in team order) and write both ranks
  back into the records.
 */
module LeaguePositions {
  import opened PyLib
  import opened Sorting
  import opened GameweekStats

  /** The league's team ids are the keys of a dict, so each occurs once. */
  ghost predicate Unique(ids: seq<int>)
  {
    forall i, j :: 0 <= i < j < |ids| ==> ids[i] != ids[j]
  }

  /** Every team has a saved record for the gameweek. */
  predicate AllSaved(ids: seq<int>, records: map<int, GwRecord>)
  {
    forall k :: 0 <= k < |ids| ==> ids[k] in records
  }

  /** The total a ranking is taken on: total_points or total_optimal_points. */
  function TotalOf(rec: GwRecord, optimal: bool): int
  {
    if optimal then rec.totalOptimalPoints else rec.totalPoints
  }

  /** team_ids_points / team_ids_optimal_points, filled in team order. */
  function Totals(ids: seq<int>, records: map<int, GwRecord>, optimal: bool): Dict<int, int>
    requires AllSaved(ids, records)
  {
    if |ids| == 0 then []
    else Totals(ids[..|ids| - 1], records, optimal) + [(ids[|ids| - 1], TotalOf(records[ids[|ids| - 1]], optimal))]
  }

  /** The rank a team is given: its 1-based place in the standings. */
  ghost function LeagueRank(ids: seq<int>, records: map<int, GwRecord>, optimal: bool, t: int): int
    requires AllSaved(ids, records)
  {
    Rank(Standings(Totals(ids, records, optimal)), t)
  }

  /** Set the league rank or the optimal league rank of a record. */
  function WithRank(rec: GwRecord, n: int, optimal: bool): GwRecord
  {
    if optimal then rec.(optimalLeagueRank := n) else rec.(leagueRank := n)
  }

  /** Entry k of the totals table is team k with its total. */
  lemma {:induction false} TotalsAt(ids: seq<int>, records: map<int, GwRecord>, optimal: bool)
    requires AllSaved(ids, records)
    ensures |Totals(ids, records, optimal)| == |ids|
    ensures forall k :: 0 <= k < |ids| ==> Totals(ids, records, optimal)[k] == (ids[k], TotalOf(records[ids[k]], optimal))
    decreases |ids|
  {
    if |ids| > 0 {
      TotalsAt(ids[..|ids| - 1], records, optimal);
    }
  }

  lemma TotalsDistinct(ids: seq<int>, records: map<int, GwRecord>, optimal: bool)
    requires AllSaved(ids, records) && Unique(ids)
    ensures DistinctKeys(Totals(ids, records, optimal))
  {
    TotalsAt(ids, records, optimal);
  }

  /** Every standings entry is one of the league's teams. */
  lemma StandingsAreTeams(ids: seq<int>, records: map<int, GwRecord>, optimal: bool, k: nat)
    requires AllSaved(ids, records)
    requires k < |Standings(Totals(ids, records, optimal))|
    ensures Standings(Totals(ids, records, optimal))[k].0 in ids
  {
    var table := Totals(ids, records, optimal);
    TotalsAt(ids, records, optimal);
    StandingsKey(table, k);
    var i :| 0 <= i < |table| && table[i] == Standings(table)[k];
    assert ids[i] == table[i].0;
  }

  /** Every team is in the standings, at the place its rank names. */
  lemma TeamInStandings(ids: seq<int>, records: map<int, GwRecord>, optimal: bool, i: nat)
    requires AllSaved(ids, records) && Unique(ids) && i < |ids|
    ensures ids[i] in Keys(Standings(Totals(ids, records, optimal)))
    ensures DistinctKeys(Standings(Totals(ids, records, optimal)))
  {
    TotalsAt(ids, records, optimal);
    TotalsDistinct(ids, records, optimal);
    StandingsEntry(Totals(ids, records, optimal), i);
  }

  // ---------------------------------------------------------------------------
  // the ranks

  /** Each team's rank lies in 1..N. */
  lemma RankInRange(ids: seq<int>, records: map<int, GwRecord>, optimal: bool, i: nat)
    requires AllSaved(ids, records) && Unique(ids) && i < |ids|
    ensures 1 <= LeagueRank(ids, records, optimal, ids[i]) <= |ids|
  {
    TotalsAt(ids, records, optimal);
    TotalsDistinct(ids, records, optimal);
    RanksInRange(Totals(ids, records, optimal), i);
  }

  /** Two teams never share a rank. */
  lemma RanksDiffer(ids: seq<int>, records: map<int, GwRecord>, optimal: bool, i: nat, j: nat)
    requires AllSaved(ids, records) && Unique(ids) && i < |ids| && j < |ids| && i != j
    ensures LeagueRank(ids, records, optimal, ids[i]) != LeagueRank(ids, records, optimal, ids[j])
  {
    TotalsAt(ids, records, optimal);
    TotalsDistinct(ids, records, optimal);
    RanksDistinct(Totals(ids, records, optimal), i, j);
  }

  /** Every rank 1..N is given to some team. */
  lemma RankGiven(ids: seq<int>, records: map<int, GwRecord>, optimal: bool, n: int)
    requires AllSaved(ids, records) && Unique(ids) && 1 <= n <= |ids|
    ensures exists k :: 0 <= k < |ids| && LeagueRank(ids, records, optimal, ids[k]) == n
  {
    var table := Totals(ids, records, optimal);
    TotalsAt(ids, records, optimal);
    TotalsDistinct(ids, records, optimal);
    RanksTaken(table, n - 1);
    var e := Standings(table)[n - 1];
    var k :| 0 <= k < |table| && table[k] == e;
    assert ids[k] == e.0;
    assert Rank(Standings(table), e.0) == n;
  }

  /** Team i ranks above team j exactly when it has more points, or as many
      points and comes first in the team list. */
  lemma RankOrder(ids: seq<int>, records: map<int, GwRecord>, optimal: bool, i: nat, j: nat)
    requires AllSaved(ids, records) && Unique(ids) && i < |ids| && j < |ids|
    ensures LeagueRank(ids, records, optimal, ids[i]) < LeagueRank(ids, records, optimal, ids[j])
        <==> TotalOf(records[ids[i]], optimal) > TotalOf(records[ids[j]], optimal)
             || (TotalOf(records[ids[i]], optimal) == TotalOf(records[ids[j]], optimal) && i < j)
  {
    var table := Totals(ids, records, optimal);
    TotalsAt(ids, records, optimal);
    TotalsDistinct(ids, records, optimal);
    if table[i].1 > table[j].1 {
      HigherValueRanksBetter(table, i, j);
    } else if table[j].1 > table[i].1 {
      HigherValueRanksBetter(table, j, i);
    } else if i < j {
      TiesKeepOrder(table, i, j);
    } else if j < i {
      TiesKeepOrder(table, j, i);
    }
  }

  // ---------------------------------------------------------------------------
  // the script

  /** The rank-writing loop: give each team in order its 1-based place. */
  method WriteRanks(cache: map<int, GwRecord>, order: Dict<int, int>, optimal: bool)
    returns (c: map<int, GwRecord>)
    requires DistinctKeys(order)
    requires forall k :: 0 <= k < |order| ==> order[k].0 in cache
    ensures c.Keys == cache.Keys
    ensures forall t :: t in cache ==>
      c[t] == if t in Keys(order) then WithRank(cache[t], Rank(order, t), optimal) else cache[t]
  {
    c := cache;
    for k := 0 to |order|
      invariant c.Keys == cache.Keys
      invariant forall t :: t in cache ==>
        c[t] == if t in Keys(order[..k]) then WithRank(cache[t], Rank(order, t), optimal) else cache[t]
    {
      var t := order[k].0;
      assert t in Keys(order);
      SameKeyIndex(order, k);
      assert Keys(order[..k + 1]) == Keys(order[..k]) + [t];
      assert t !in Keys(order[..k]) by {
        forall m | 0 <= m < k
          ensures order[m].0 != t
        {
        }
      }
      c := c[t := WithRank(c[t], k + 1, optimal)];
    }
    assert order[..|order|] == order;
  }

  lemma SameKeyIndex(order: Dict<int, int>, k: nat)
    requires DistinctKeys(order) && k < |order|
    ensures order[k].0 in Keys(order) && Rank(order, order[k].0) == k + 1
  {
    assert order[k].0 in Keys(order);
    assert KeyIndex(order, order[k].0) == k;
  }

  /** The loading loop: read every team's record, collecting the two totals
      tables in team order; false when a record is missing. */
  method LoadRecords(teamIds: seq<int>, records: map<int, GwRecord>)
    returns (ok: bool, cache: map<int, GwRecord>, points: Dict<int, int>, optimalPoints: Dict<int, int>)
    ensures ok <==> AllSaved(teamIds, records)
    ensures ok ==> forall t :: t in cache <==> t in teamIds
    ensures ok ==> forall t :: t in cache ==> cache[t] == records[t]
    ensures ok ==> points == Totals(teamIds, records, false) && optimalPoints == Totals(teamIds, records, true)
  {
    cache, points, optimalPoints := map[], [], [];
    for i := 0 to |teamIds|
      invariant AllSaved(teamIds[..i], records)
      invariant forall t :: t in cache <==> t in teamIds[..i]
      invariant forall t :: t in cache ==> cache[t] == records[t]
      invariant points == Totals(teamIds[..i], records, false)
      invariant optimalPoints == Totals(teamIds[..i], records, true)
    {
      var t := teamIds[i];
      assert teamIds[..i + 1][..i] == teamIds[..i];
      if t !in records {
        return false, cache, points, optimalPoints;
      }
      cache := cache[t := records[t]];
      points := points + [(t, records[t].totalPoints)];
      optimalPoints := optimalPoints + [(t, records[t].totalOptimalPoints)];
    }
    assert teamIds[..|teamIds|] == teamIds;
    ok := true;
  }

  /** calculate_league_positions over the gameweek's saved records: None when
      a team's record is missing (the script exits); otherwise every team's
      record with both ranks filled in. */
  method CalculateLeaguePositions(teamIds: seq<int>, records: map<int, GwRecord>)
    returns (r: Option<map<int, GwRecord>>)
    requires Unique(teamIds)
    ensures r.None? <==> !AllSaved(teamIds, records)
    ensures r.Some? ==> forall t :: t in r.value <==> t in teamIds
    ensures r.Some? ==> forall t :: t in teamIds ==>
      r.value[t] == records[t].(leagueRank := LeagueRank(teamIds, records, false, t),
                                optimalLeagueRank := LeagueRank(teamIds, records, true, t))
  {
    var ok, cache, points, optimalPoints := LoadRecords(teamIds, records);
    if !ok {
      return None;
    }
    var byPoints := Standings(points);
    var byOptimal := Standings(optimalPoints);
    Ranked(teamIds, records, cache, false);
    Ranked(teamIds, records, cache, true);
    var c1 := WriteRanks(cache, byPoints, false);
    var c2 := WriteRanks(c1, byOptimal, true);
    return Some(c2);
  }

  /** What the rank loops need: the standings have distinct keys, name only
      loaded teams, and list every team. */
  lemma Ranked(ids: seq<int>, records: map<int, GwRecord>, cache: map<int, GwRecord>, optimal: bool)
    requires AllSaved(ids, records) && Unique(ids)
    requires forall t :: t in cache <==> t in ids
    ensures DistinctKeys(Standings(Totals(ids, records, optimal)))
    ensures forall k :: 0 <= k < |Standings(Totals(ids, records, optimal))| ==>
      Standings(Totals(ids, records, optimal))[k].0 in cache
    ensures forall t :: t in ids ==> t in Keys(Standings(Totals(ids, records, optimal)))
  {
    var table := Totals(ids, records, optimal);
    var standings := Standings(table);
    TotalsDistinct(ids, records, optimal);
    DistinctSub(table, standings);
    forall k | 0 <= k < |standings|
      ensures standings[k].0 in cache
    {
      StandingsAreTeams(ids, records, optimal, k);
      assert standings[k].0 in ids;
    }
    forall t | t in ids
      ensures t in Keys(standings)
    {
      var i :| 0 <= i < |ids| && ids[i] == t;
      TeamInStandings(ids, records, optimal, i);
    }
  }
}
