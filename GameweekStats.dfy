/**
  calculate_gw_stats: the adjusted per-gameweek record of one team. Every
  pick is enriched with names, category and this gameweek's points; the
  first eleven positions start, the rest are benched. Starters add to the
  week's points, the running total and the formation count; benched players
  add to the benched points. Each player's season totals in the ledger
  ('total_player_stats', carried over from the previous gameweek's record)
  grow by what the player scored, as a starter or on the bench. The ledger
  is then sorted by season points, highest first, and the optimal points of
  the gameweek are added to the running optimal total.
 */
module GameweekStats {
  import opened PyLib
  import opened Sorting
  import opened Fpl
  import opened OptimalLineup

  /** One entry of a team's 'picks': the player and the squad position 1..15. */
  datatype Pick = Pick(element: int, position: int)

  /** A player's season totals for one team. */
  datatype PlayerTotals = PlayerTotals(
    firstName: string,
    secondName: string,
    totalPoints: int,
    totalBenchedPoints: int)

  /** 'total_player_stats': player id -> season totals, in dict order. The
      JSON keys are str(player id); str is injective on integers, so the
      model keys the ledger by the id itself. */
  type Ledger = Dict<int, PlayerTotals>

  /** The adjusted record written for a team and gameweek. The constant
      'max_formation' and 'min_formation' fields are MaxFormation and
      MinFormation below. */
  datatype GwRecord = GwRecord(
    teamId: int,
    teamName: string,
    teamCaptain: string,
    gameweek: int,
    teamFormation: seq<int>,
    weekPoints: int,
    benchedPoints: int,
    optimalPoints: int,
    leagueRank: int,
    optimalLeagueRank: int,
    totalPoints: int,
    totalOptimalPoints: int,
    playerStats: seq<PlayerStat>,
    totalPlayerStats: Ledger)

  const MaxFormation: seq<int> := [1, 5, 5, 3]
  const MinFormation: seq<int> := [1, 3, 2, 1]

  /** Squad positions 1..11 start; 12 and above are the bench. */
  const LastStarter: int := 11

  /** A player's points in a gameweek's score table; absent players score 0. */
  function ScoreOf(scores: map<int, int>, element: int): int
  {
    if element in scores then scores[element] else 0
  }

  /** The score table of gameweek gw; only read when the team has picks. */
  function ScoresFor(index: ScoreIndex, gw: int): map<int, int>
  {
    if gw in index then index[gw] else map[]
  }

  /** A pick with the fields calculate_gw_stats adds to it. */
  function Enrich(pick: Pick, info: PlayerInfo, points: int): (stat: PlayerStat)
    ensures stat.benched <==> pick.position > LastStarter
    ensures stat.element == pick.element && stat.position == pick.position
    ensures stat.category == info.elementType && stat.points == points
  {
    PlayerStat(pick.element, pick.position, info.firstName, info.secondName,
               info.elementType, points, pick.position > LastStarter)
  }

  ghost predicate AllKnown(picks: seq<Pick>, directory: Directory)
  {
    forall i :: 0 <= i < |picks| ==> picks[i].element in directory
  }

  /** The enriched picks, in pick order. */
  function Stats(picks: seq<Pick>, directory: Directory, scores: map<int, int>): (s: seq<PlayerStat>)
    requires AllKnown(picks, directory)
    ensures |s| == |picks|
    ensures forall i :: 0 <= i < |picks| ==>
      s[i] == Enrich(picks[i], directory[picks[i].element], ScoreOf(scores, picks[i].element))
  {
    seq(|picks|, i requires 0 <= i < |picks| =>
      Enrich(picks[i], directory[picks[i].element], ScoreOf(scores, picks[i].element)))
  }

  /** Points of the benched players. */
  function BenchPoints(s: seq<PlayerStat>): int
  {
    if |s| == 0 then 0
    else BenchPoints(s[..|s| - 1]) + (if s[|s| - 1].benched then s[|s| - 1].points else 0)
  }

  /** Points player e scored in s as a starter (benched == false) or on the bench. */
  function PointsFor(s: seq<PlayerStat>, e: int, benched: bool): int
  {
    if |s| == 0 then 0
    else
      var x := s[|s| - 1];
      PointsFor(s[..|s| - 1], e, benched) + (if x.element == e && x.benched == benched then x.points else 0)
  }

  /** The first stat of player e in s, if any. */
  function FirstFor(s: seq<PlayerStat>, e: int): (r: Option<PlayerStat>)
    ensures r.Some? ==> r.value in s && r.value.element == e
  {
    if |s| == 0 then None
    else
      match FirstFor(s[..|s| - 1], e)
      case Some(p) => Some(p)
      case None => if s[|s| - 1].element == e then Some(s[|s| - 1]) else None
  }

  /** An existing ledger entry after the player's gameweek: the points go to
      the starter or the bench column. */
  function Bump(t: PlayerTotals, stat: PlayerStat): PlayerTotals
  {
    if stat.benched then t.(totalBenchedPoints := t.totalBenchedPoints + stat.points)
    else t.(totalPoints := t.totalPoints + stat.points)
  }

  /** A new ledger entry: the player's names, the points in the right column
      and 0 in the other. */
  function Fresh(stat: PlayerStat): PlayerTotals
  {
    PlayerTotals(stat.firstName, stat.secondName,
                 if stat.benched then 0 else stat.points,
                 if stat.benched then stat.points else 0)
  }

  /** The ledger after crediting one player's gameweek. */
  function Credit(ledger: Ledger, stat: PlayerStat): Ledger
  {
    match Lookup(ledger, stat.element)
    case Some(t) => Assign(ledger, stat.element, Bump(t, stat))
    case None => Assign(ledger, stat.element, Fresh(stat))
  }

  /** The ledger after crediting every stat of s in order. */
  function Accrue(ledger: Ledger, s: seq<PlayerStat>): Ledger
  {
    if |s| == 0 then ledger else Credit(Accrue(ledger, s[..|s| - 1]), s[|s| - 1])
  }

  function LedgerKey(entry: (int, PlayerTotals)): int { entry.1.totalPoints }

  /** sort_total_player_stats: the ledger ordered by season points, highest
      first; SortTotalPlayerStatsOrdered states the order. */
  function SortTotalPlayerStats(ledger: Ledger): (r: Ledger)
    ensures multiset(r) == multiset(ledger)
  {
    SortBy(ledger, LedgerKey)
  }

  /** The sorted ledger is ordered by season points, highest first, and
      players with equal season points keep their ledger order. */
  lemma SortTotalPlayerStatsOrdered(ledger: Ledger, v: int)
    ensures NonIncreasing(SortTotalPlayerStats(ledger), LedgerKey)
    ensures Matching(SortTotalPlayerStats(ledger), LedgerKey, v) == Matching(ledger, LedgerKey, v)
  {
    SortByOrdered(ledger, LedgerKey);
    SortByStable(ledger, LedgerKey, v);
  }

  /** The previous gameweek's running values, or zeros in gameweek 1. */
  function PrevTotal(gw: int, prev: Option<GwRecord>): int
    requires gw > 1 ==> prev.Some?
  {
    if gw > 1 then prev.value.totalPoints else 0
  }

  function PrevOptimal(gw: int, prev: Option<GwRecord>): int
    requires gw > 1 ==> prev.Some?
  {
    if gw > 1 then prev.value.totalOptimalPoints else 0
  }

  function PrevLedger(gw: int, prev: Option<GwRecord>): Ledger
    requires gw > 1 ==> prev.Some?
  {
    if gw > 1 then prev.value.totalPlayerStats else []
  }

  /** When calculate_gw_stats writes a record: the team's squad file exists,
      the previous record exists after gameweek 1, the team is in the league,
      the gameweek's scores exist when there is a pick, every pick is in the
      directory and every category has a bucket. */
  ghost predicate Writes(teamId: int, gw: int, picks: Option<seq<Pick>>, entries: Entries,
                         directory: Directory, index: ScoreIndex, prev: Option<GwRecord>)
  {
    && picks.Some?
    && (gw > 1 ==> prev.Some?)
    && teamId in entries
    && (|picks.value| > 0 ==> gw in index)
    && AllKnown(picks.value, directory)
    && AllSlotted(Stats(picks.value, directory, ScoresFor(index, gw)))
  }

  lemma AccrueSnoc(ledger: Ledger, s: seq<PlayerStat>, x: PlayerStat)
    ensures Accrue(ledger, s + [x]) == Credit(Accrue(ledger, s), x)
  {
    assert (s + [x])[..|s|] == s;
  }

  lemma StatsSnoc(s: seq<PlayerStat>, x: PlayerStat)
    ensures StarterPoints(s + [x]) == StarterPoints(s) + (if x.benched then 0 else x.points)
    ensures BenchPoints(s + [x]) == BenchPoints(s) + (if x.benched then x.points else 0)
    ensures Formation(s + [x])
         == if !x.benched && Slot(x.category).Some?
            then Formation(s)[Slot(x.category).value := Formation(s)[Slot(x.category).value] + 1]
            else Formation(s)
  {
    assert (s + [x])[..|s|] == s;
    FormationSnoc(s, x);
  }

  lemma FormationSnoc(s: seq<PlayerStat>, x: PlayerStat)
    ensures Formation(s + [x])
         == if !x.benched && Slot(x.category).Some?
            then Formation(s)[Slot(x.category).value := Formation(s)[Slot(x.category).value] + 1]
            else Formation(s)
  {
    BucketSnoc(s, x, 0);
    BucketSnoc(s, x, 1);
    BucketSnoc(s, x, 2);
    BucketSnoc(s, x, 3);
  }

  lemma BucketSnoc(s: seq<PlayerStat>, x: PlayerStat, c: nat)
    ensures |StarterBucket(s + [x], c)|
         == |StarterBucket(s, c)| + (if !x.benched && Slot(x.category) == Some(c) then 1 else 0)
  {
    assert (s + [x])[..|s|] == s;
  }

  /** Every starter's category has a bucket (team_formation[category - 1]
      raises IndexError otherwise). */
  ghost predicate StartersSlotted(s: seq<PlayerStat>)
  {
    forall i :: 0 <= i < |s| && !s[i].benched ==> Slot(s[i].category).Some?
  }

  lemma NoSlotStops(squad: seq<Pick>, directory: Directory, scores: map<int, int>, i: nat, stat: PlayerStat)
    requires i < |squad| && squad[i].element in directory
    requires stat == Enrich(squad[i], directory[squad[i].element], ScoreOf(scores, squad[i].element))
    requires !stat.benched && Slot(stat.category).None?
    ensures !AllKnown(squad, directory) || !StartersSlotted(Stats(squad, directory, scores))
  {
    if AllKnown(squad, directory) {
      assert Stats(squad, directory, scores)[i] == stat;
    }
  }

  lemma StatsStep(squad: seq<Pick>, directory: Directory, scores: map<int, int>, i: nat, stat: PlayerStat)
    requires i < |squad| && AllKnown(squad[..i], directory) && squad[i].element in directory
    requires stat == Enrich(squad[i], directory[squad[i].element], ScoreOf(scores, squad[i].element))
    ensures AllKnown(squad[..i + 1], directory)
    ensures Stats(squad[..i + 1], directory, scores) == Stats(squad[..i], directory, scores) + [stat]
    ensures StartersSlotted(Stats(squad[..i], directory, scores)) && (stat.benched || Slot(stat.category).Some?)
            ==> StartersSlotted(Stats(squad[..i + 1], directory, scores))
  {
    assert squad[..i + 1] == squad[..i] + [squad[i]];
  }

  /** The running values of the picks loop after the stats s. */
  ghost predicate Tallied(s: seq<PlayerStat>, formation: seq<int>, weekPoints: int, benchedPoints: int,
                          totalPoints: int, ledger: Ledger, prevTotal: int, prevLedger: Ledger)
  {
    && formation == Formation(s)
    && weekPoints == StarterPoints(s) && benchedPoints == BenchPoints(s)
    && totalPoints == prevTotal + weekPoints
    && ledger == Accrue(prevLedger, s)
  }

  /** The state of the picks loop after the first i picks. */
  ghost predicate Processed(squad: seq<Pick>, i: int, directory: Directory, scores: map<int, int>,
                            stats: seq<PlayerStat>, formation: seq<int>, weekPoints: int, benchedPoints: int,
                            totalPoints: int, ledger: Ledger, prevTotal: int, prevLedger: Ledger)
  {
    && 0 <= i <= |squad|
    && AllKnown(squad[..i], directory)
    && stats == Stats(squad[..i], directory, scores)
    && StartersSlotted(stats)
    && Tallied(stats, formation, weekPoints, benchedPoints, totalPoints, ledger, prevTotal, prevLedger)
  }

  /** Pick i, known to the directory and a bench player or a starter with a
      bucket, moves every running value by its own points alone. */
  lemma ProcessedStep(squad: seq<Pick>, i: int, directory: Directory, scores: map<int, int>,
                      stats: seq<PlayerStat>, formation: seq<int>, weekPoints: int, benchedPoints: int,
                      totalPoints: int, ledger: Ledger, prevTotal: int, prevLedger: Ledger, stat: PlayerStat)
    requires Processed(squad, i, directory, scores, stats, formation, weekPoints, benchedPoints, totalPoints,
                       ledger, prevTotal, prevLedger)
    requires i < |squad| && squad[i].element in directory
    requires stat == Enrich(squad[i], directory[squad[i].element], ScoreOf(scores, squad[i].element))
    requires stat.benched || Slot(stat.category).Some?
    ensures var starter := !stat.benched;
      Processed(squad, i + 1, directory, scores, stats + [stat],
                if starter then formation[Slot(stat.category).value := formation[Slot(stat.category).value] + 1]
                else formation,
                if starter then weekPoints + stat.points else weekPoints,
                if starter then benchedPoints else benchedPoints + stat.points,
                if starter then totalPoints + stat.points else totalPoints,
                Credit(ledger, stat), prevTotal, prevLedger)
  {
    StatsStep(squad, directory, scores, i, stat);
    StatsSnoc(stats, stat);
    AccrueSnoc(prevLedger, stats, stat);
  }

  /** The body of the picks loop for one enriched pick: a starter counts
      in its formation bucket, the week's points and the running total, a
      benched player in the benched points; the ledger is credited either
      way. */
  method TallyPick(stat: PlayerStat, formation: seq<int>, weekPoints: int, benchedPoints: int, totalPoints: int,
                   ledger: Ledger)
    returns (formation': seq<int>, weekPoints': int, benchedPoints': int, totalPoints': int, ledger': Ledger)
    requires |formation| == 4 && (stat.benched <==> stat.position > LastStarter)
    requires stat.benched || Slot(stat.category).Some?
    ensures formation' == if !stat.benched
                          then formation[Slot(stat.category).value := formation[Slot(stat.category).value] + 1]
                          else formation
    ensures weekPoints' == if !stat.benched then weekPoints + stat.points else weekPoints
    ensures benchedPoints' == if !stat.benched then benchedPoints else benchedPoints + stat.points
    ensures totalPoints' == if !stat.benched then totalPoints + stat.points else totalPoints
    ensures ledger' == Credit(ledger, stat)
  {
    formation', weekPoints', benchedPoints', totalPoints' := formation, weekPoints, benchedPoints, totalPoints;
    if stat.position <= LastStarter {
      var slot := Slot(stat.category).value;
      formation' := formation'[slot := formation'[slot] + 1];
      weekPoints' := weekPoints' + stat.points;
      totalPoints' := totalPoints' + stat.points;
    } else {
      benchedPoints' := benchedPoints' + stat.points;
    }
    ledger' := Credit(ledger, stat);
  }

  /** The loop of calculate_gw_stats over the team's picks, starting from the
      previous running total and ledger. ok is false where the loop raises
      (no score table for the gameweek, a player missing from the directory,
      a starter whose category has no bucket). */
  method ProcessPicks(squad: seq<Pick>, gw: int, directory: Directory, index: ScoreIndex,
                      prevTotal: int, prevLedger: Ledger)
    returns (ok: bool, stats: seq<PlayerStat>, formation: seq<int>, weekPoints: int,
             benchedPoints: int, totalPoints: int, ledger: Ledger)
    ensures ok <==> (|squad| > 0 ==> gw in index) && AllKnown(squad, directory)
                    && StartersSlotted(Stats(squad, directory, ScoresFor(index, gw)))
    ensures ok ==>
      && stats == Stats(squad, directory, ScoresFor(index, gw))
      && formation == Formation(stats)
      && weekPoints == StarterPoints(stats) && benchedPoints == BenchPoints(stats)
      && totalPoints == prevTotal + weekPoints
      && ledger == Accrue(prevLedger, stats)
  {
    ghost var scores := ScoresFor(index, gw);
    formation := [0, 0, 0, 0];
    weekPoints, benchedPoints, totalPoints := 0, 0, prevTotal;
    ledger := prevLedger;
    stats := [];
    var i := 0;
    while i < |squad|
      invariant i > 0 ==> gw in index
      invariant Processed(squad, i, directory, scores, stats, formation, weekPoints, benchedPoints, totalPoints,
                          ledger, prevTotal, prevLedger)
    {
      var pick := squad[i];
      if gw !in index {
        return false, stats, formation, weekPoints, benchedPoints, totalPoints, ledger;
      }
      var points := if pick.element in index[gw] then index[gw][pick.element] else 0;
      if pick.element !in directory {
        assert !AllKnown(squad, directory);
        return false, stats, formation, weekPoints, benchedPoints, totalPoints, ledger;
      }
      var info := directory[pick.element];
      var stat := Enrich(pick, info, points);
      if pick.position <= LastStarter && Slot(info.elementType).None? {
        NoSlotStops(squad, directory, scores, i, stat);
        return false, stats, formation, weekPoints, benchedPoints, totalPoints, ledger;
      }
      ProcessedStep(squad, i, directory, scores, stats, formation, weekPoints, benchedPoints, totalPoints,
                    ledger, prevTotal, prevLedger, stat);
      formation, weekPoints, benchedPoints, totalPoints, ledger
        := TallyPick(stat, formation, weekPoints, benchedPoints, totalPoints, ledger);
      stats := stats + [stat];
      i := i + 1;
    }
    assert squad[..i] == squad;
    return true, stats, formation, weekPoints, benchedPoints, totalPoints, ledger;
  }

  /** calculate_gw_stats(league_id, team_id, gw, ...): the record written
      to gw_<gw>_adjusted.json; None when the script stops without writing
      (a missing squad file, or an uncaught KeyError, IndexError or missing
      previous record). */
  method CalculateGwStats(teamId: int, gw: int, picks: Option<seq<Pick>>, entries: Entries,
                          directory: Directory, index: ScoreIndex, prev: Option<GwRecord>)
    returns (r: Option<GwRecord>)
    ensures r.Some? <==> Writes(teamId, gw, picks, entries, directory, index, prev)
    ensures r.Some? ==>
      var rec := r.value;
      var stats := Stats(picks.value, directory, ScoresFor(index, gw));
      && rec.teamId == teamId && rec.gameweek == gw
      && rec.teamName == entries[teamId].entryName
      && rec.teamCaptain == entries[teamId].playerFirstName + " " + entries[teamId].playerLastName
      && rec.playerStats == stats
      && rec.teamFormation == Formation(stats)
      && rec.weekPoints == StarterPoints(stats)
      && rec.benchedPoints == BenchPoints(stats)
      && rec.optimalPoints == OptimalPoints(stats)
      && rec.totalPoints == PrevTotal(gw, prev) + rec.weekPoints
      && rec.totalOptimalPoints == PrevOptimal(gw, prev) + rec.optimalPoints
      && rec.totalPlayerStats == SortTotalPlayerStats(Accrue(PrevLedger(gw, prev), stats))
      && rec.leagueRank == 0 && rec.optimalLeagueRank == 0
  {
    if picks.None? {
      return None;
    }
    var totalPoints, totalOptimalPoints := 0, 0;
    var ledger: Ledger := [];
    if gw > 1 {
      if prev.None? {
        return None;
      }
      totalPoints, totalOptimalPoints := prev.value.totalPoints, prev.value.totalOptimalPoints;
      ledger := prev.value.totalPlayerStats;
    }
    if teamId !in entries {
      return None;
    }
    var entry := entries[teamId];
    var ok, stats, formation, weekPoints, benchedPoints;
    ok, stats, formation, weekPoints, benchedPoints, totalPoints, ledger :=
      ProcessPicks(picks.value, gw, directory, index, totalPoints, ledger);
    if !ok {
      return None;
    }
    var sortedLedger := SortTotalPlayerStats(ledger);
    var optimal := CalculateOptimalPoints(stats);
    if optimal.None? {
      return None;
    }
    totalOptimalPoints := totalOptimalPoints + optimal.value;
    var captain := entry.playerFirstName + " " + entry.playerLastName;
    return Some(GwRecord(teamId, entry.entryName, captain, gw, formation, weekPoints, benchedPoints,
                         optimal.value, 0, 0, totalPoints, totalOptimalPoints, stats, sortedLedger));
  }

  // ---------------------------------------------------------------------------
  // Properties of the gameweek record

  /** Week points and benched points split the squad's points: every pick
      counts exactly once. */
  lemma {:induction false} PointsPartition(s: seq<PlayerStat>)
    ensures StarterPoints(s) + BenchPoints(s) == Sum(Pts(s))
  {
    if |s| > 0 {
      var init := s[..|s| - 1];
      PointsPartition(init);
      assert Pts(s)[..|s| - 1] == Pts(init);
    }
  }

  /** Number of starters. */
  function StarterCount(s: seq<PlayerStat>): nat
  {
    if |s| == 0 then 0 else StarterCount(s[..|s| - 1]) + (if s[|s| - 1].benched then 0 else 1)
  }

  /** With every category in range, the formation counts every starter once. */
  lemma {:induction false} FormationCountsStarters(s: seq<PlayerStat>)
    requires AllSlotted(s)
    ensures Formation(s)[0] + Formation(s)[1] + Formation(s)[2] + Formation(s)[3] == StarterCount(s)
  {
    if |s| > 0 {
      var init, x := s[..|s| - 1], s[|s| - 1];
      assert AllSlotted(init);
      FormationCountsStarters(init);
      StatsSnoc(init, x);
      assert init + [x] == s;
    }
  }

  /** A player's ledger entry after a gameweek, in closed form: an existing
      entry gains the player's starter points and bench points; a player new
      to the ledger gets an entry named after their first stat holding
      exactly this gameweek's points; players absent from both stay absent. */
  function Expected(ledger: Ledger, s: seq<PlayerStat>, e: int): Option<PlayerTotals>
  {
    match Lookup(ledger, e)
    case Some(t) =>
      Some(t.(totalPoints := t.totalPoints + PointsFor(s, e, false),
              totalBenchedPoints := t.totalBenchedPoints + PointsFor(s, e, true)))
    case None =>
      match FirstFor(s, e)
      case None => None
      case Some(p) => Some(PlayerTotals(p.firstName, p.secondName, PointsFor(s, e, false), PointsFor(s, e, true)))
  }

  lemma CreditLookup(ledger: Ledger, x: PlayerStat, e: int)
    ensures Lookup(Credit(ledger, x), e) ==
      if x.element != e then Lookup(ledger, e)
      else match Lookup(ledger, e)
        case Some(t) => Some(Bump(t, x))
        case None => Some(Fresh(x))
  {
    var found := Lookup(ledger, x.element);
    var v := if found.Some? then Bump(found.value, x) else Fresh(x);
    assert Credit(ledger, x) == Assign(ledger, x.element, v);
    AssignLookup(ledger, x.element, v, e);
  }

  lemma ExpectedSnoc(ledger: Ledger, s: seq<PlayerStat>, e: int)
    requires |s| > 0
    ensures Expected(ledger, s, e) ==
      var x := s[|s| - 1];
      if x.element != e then Expected(ledger, s[..|s| - 1], e)
      else match Expected(ledger, s[..|s| - 1], e)
        case Some(t) => Some(Bump(t, x))
        case None => Some(Fresh(x))
  {
    var init, x := s[..|s| - 1], s[|s| - 1];
    if x.element == e && Lookup(ledger, e).None? && FirstFor(init, e).None? {
      NoFirstNoPoints(init, e);
    }
  }

  /** The ledger Accrue builds agrees with the closed form for every player. */
  lemma {:induction false} AccrueLookup(ledger: Ledger, s: seq<PlayerStat>, e: int)
    ensures Lookup(Accrue(ledger, s), e) == Expected(ledger, s, e)
  {
    if |s| > 0 {
      var init, x := s[..|s| - 1], s[|s| - 1];
      AccrueLookup(ledger, init, e);
      CreditLookup(Accrue(ledger, init), x, e);
      ExpectedSnoc(ledger, s, e);
    }
  }

  lemma {:induction false} NoFirstNoPoints(s: seq<PlayerStat>, e: int)
    requires FirstFor(s, e).None?
    ensures PointsFor(s, e, false) == 0 && PointsFor(s, e, true) == 0
  {
    if |s| > 0 {
      NoFirstNoPoints(s[..|s| - 1], e);
    }
  }

  /** The ledger stays a dict with one entry per player. */
  lemma {:induction false} AccrueDistinct(ledger: Ledger, s: seq<PlayerStat>)
    requires DistinctKeys(ledger)
    ensures DistinctKeys(Accrue(ledger, s))
  {
    if |s| > 0 {
      var init, x := s[..|s| - 1], s[|s| - 1];
      AccrueDistinct(ledger, init);
      var before := Accrue(ledger, init);
      var found := Lookup(before, x.element);
      var v := if found.Some? then Bump(found.value, x) else Fresh(x);
      assert Credit(before, x) == Assign(before, x.element, v);
      AssignDistinct(before, x.element, v);
    }
  }

  /** A record whose starting eleven is a legal formation has optimal points
      at least its week points. */
  lemma OptimalCoversWeekPoints(rec: GwRecord)
    requires AllSlotted(rec.playerStats)
    requires rec.teamFormation == Formation(rec.playerStats) && rec.teamFormation in Formations
    requires rec.weekPoints == StarterPoints(rec.playerStats)
    requires rec.optimalPoints == OptimalPoints(rec.playerStats)
    ensures rec.optimalPoints >= rec.weekPoints
  {
    OptimalCoversStarters(rec.playerStats);
  }
}
