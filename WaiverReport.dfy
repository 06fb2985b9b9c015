/**
  The selection logic of the weekly waiver report: the picking order from
  the previous gameweek's league table, each team's waivers of a gameweek,
  a team's waivers of the previous week, the teams the report covers and
  the teams listed as inactive.
 */
module WaiverReport {
  import opened PyLib
  import opened Sorting
  import opened TrackWaivers
  import opened WaiverData
  import opened GameweekStats

  // ---------------------------------------------------------------------------
  // get_league_table and get_picking_order

  /** get_league_table: team name -> total points from each team's saved
      record of the gameweek; a team without a record is skipped, and a
      name seen twice keeps the later total. */
  function LeagueTableOf(teams: seq<int>, records: map<int, GwRecord>): Dict<string, int>
  {
    if |teams| == 0 then []
    else
      var table := LeagueTableOf(teams[..|teams| - 1], records);
      var t := teams[|teams| - 1];
      if t in records then Assign(table, records[t].teamName, records[t].totalPoints) else table
  }

  method GetLeagueTable(teams: seq<int>, records: map<int, GwRecord>) returns (table: Dict<string, int>)
    ensures table == LeagueTableOf(teams, records)
  {
    table := [];
    for k := 0 to |teams|
      invariant table == LeagueTableOf(teams[..k], records)
    {
      assert teams[..k + 1][..k] == teams[..k];
      if teams[k] in records {
        table := Assign(table, records[teams[k]].teamName, records[teams[k]].totalPoints);
      }
    }
    assert teams[..|teams|] == teams;
  }

  /** A table entry is the name and total of one of the teams' records. */
  predicate TableEntryFrom(teams: seq<int>, records: map<int, GwRecord>, entry: (string, int))
  {
    exists k :: 0 <= k < |teams| && teams[k] in records
                && records[teams[k]].teamName == entry.0 && records[teams[k]].totalPoints == entry.1
  }

  /** The table names each team with a record once, and every entry is some
      such team's total. */
  lemma {:induction false} LeagueTableShape(teams: seq<int>, records: map<int, GwRecord>)
    ensures DistinctKeys(LeagueTableOf(teams, records))
    ensures forall name :: name in Keys(LeagueTableOf(teams, records)) <==>
      exists k :: 0 <= k < |teams| && teams[k] in records && records[teams[k]].teamName == name
    ensures forall j :: 0 <= j < |LeagueTableOf(teams, records)| ==>
      TableEntryFrom(teams, records, LeagueTableOf(teams, records)[j])
    decreases |teams|
  {
    if |teams| > 0 {
      var init := teams[..|teams| - 1];
      var t := teams[|teams| - 1];
      LeagueTableShape(init, records);
      var table := LeagueTableOf(init, records);
      var table' := LeagueTableOf(teams, records);
      if t in records {
        AssignDistinct(table, records[t].teamName, records[t].totalPoints);
      }
      forall j | 0 <= j < |table'|
        ensures TableEntryFrom(teams, records, table'[j])
      {
        if t in records {
          AssignEntries(table, records[t].teamName, records[t].totalPoints, j);
        }
        if t in records && table'[j] == (records[t].teamName, records[t].totalPoints) {
          assert teams[|teams| - 1] == t;
        } else {
          var q :| 0 <= q < |table| && table[q] == table'[j];
          assert TableEntryFrom(init, records, table[q]);
          var k :| 0 <= k < |init| && init[k] in records
                   && records[init[k]].teamName == table[q].0 && records[init[k]].totalPoints == table[q].1;
          assert teams[k] == init[k];
        }
      }
      forall name
        ensures name in Keys(table') <==>
          exists k :: 0 <= k < |teams| && teams[k] in records && records[teams[k]].teamName == name
      {
        if exists k :: 0 <= k < |teams| && teams[k] in records && records[teams[k]].teamName == name {
          var k :| 0 <= k < |teams| && teams[k] in records && records[teams[k]].teamName == name;
          if k < |init| {
            assert init[k] == teams[k];
          }
        }
        if name in Keys(table) {
          var k :| 0 <= k < |init| && init[k] in records && records[init[k]].teamName == name;
          assert teams[k] == init[k];
        }
      }
    } else {
      assert LeagueTableOf(teams, records) == [];
    }
  }

  /** The table with every total negated: sorting it best first is sorting
      the original lowest first. */
  function Negated(table: Dict<string, int>): (r: Dict<string, int>)
    ensures |r| == |table| && forall k :: 0 <= k < |table| ==> r[k] == (table[k].0, -table[k].1)
  {
    seq(|table|, k requires 0 <= k < |table| => (table[k].0, -table[k].1))
  }

  /** get_picking_order: no order before gameweek 2 or without a table;
      otherwise the team names sorted by the previous gameweek's total,
      lowest first, ties in table order. */
  function PickingOrder(gameweek: int, table: Dict<string, int>): (order: seq<string>)
    ensures gameweek <= 1 || |table| == 0 ==> order == []
    ensures gameweek > 1 ==> |order| == |table|
  {
    if gameweek <= 1 || |table| == 0 then [] else Keys(Standings(Negated(table)))
  }

  /** A team's pick, 1-based. */
  function Pick(table: Dict<string, int>, name: string): nat
  {
    Rank(Standings(Negated(table)), name)
  }

  /** After gameweek 1 the picking order lists every team of the table once:
      each team's pick is its place in the order, fewer points pick earlier,
      and equal points pick in table order. */
  lemma PickingOrderPlaces(gameweek: int, table: Dict<string, int>, i: nat, j: nat)
    requires DistinctKeys(table) && gameweek > 1 && i < |table| && j < |table|
    ensures var order := PickingOrder(gameweek, table);
      && 1 <= Pick(table, table[i].0) <= |order| && order[Pick(table, table[i].0) - 1] == table[i].0
      && (i != j ==> Pick(table, table[i].0) != Pick(table, table[j].0))
      && (table[i].1 < table[j].1 ==> Pick(table, table[i].0) < Pick(table, table[j].0))
      && (i < j && table[i].1 == table[j].1 ==> Pick(table, table[i].0) < Pick(table, table[j].0))
  {
    var neg := Negated(table);
    assert DistinctKeys(neg) by {
      forall a, b | 0 <= a < b < |neg|
        ensures neg[a].0 != neg[b].0
      {
        assert neg[a].0 == table[a].0 && neg[b].0 == table[b].0;
      }
    }
    assert neg[i].0 == table[i].0 && neg[j].0 == table[j].0;
    RanksInRange(neg, i);
    if i != j {
      RanksDistinct(neg, i, j);
    }
    if table[i].1 < table[j].1 {
      HigherValueRanksBetter(neg, i, j);
    }
    if i < j && table[i].1 == table[j].1 {
      TiesKeepOrder(neg, i, j);
    }
  }

  /** Every name in the picking order is a team of the table, and no team
      is listed twice. */
  lemma PickingOrderTeams(gameweek: int, table: Dict<string, int>)
    requires DistinctKeys(table)
    ensures forall t :: t in PickingOrder(gameweek, table) ==> t in Keys(table)
    ensures NoRepeats(PickingOrder(gameweek, table))
  {
    if gameweek > 1 && |table| > 0 {
      var neg := Negated(table);
      var s := Standings(neg);
      assert DistinctKeys(neg) by {
        forall a, b | 0 <= a < b < |neg|
          ensures neg[a].0 != neg[b].0
        {
          assert neg[a].0 == table[a].0 && neg[b].0 == table[b].0;
        }
      }
      DistinctSub(neg, s);
      forall k | 0 <= k < |s|
        ensures s[k].0 in Keys(table)
      {
        StandingsKey(neg, k);
        var q :| 0 <= q < |neg| && neg[q] == s[k];
        assert Keys(table)[q] == s[k].0;
      }
    }
  }

  // ---------------------------------------------------------------------------
  // get_waivers_for_gameweek

  /** The fields of a waiver the per-team grouping keeps. */
  datatype GwWaiver = GwWaiver(id: string, kind: string, playerIn: int, playerOut: int, relativePerformance: int)

  function Brief(id: string, w: WaiverInfo): GwWaiver
  {
    GwWaiver(id, w.kind, w.playerIn, w.playerOut, w.relativePerformance)
  }

  /** A team's waivers of a gameweek, in tracker order. */
  function TeamWeek(saved: SavedLog, team: string, gw: int): seq<GwWaiver>
  {
    if |saved| == 0 then []
    else
      var (id, w) := saved[|saved| - 1];
      TeamWeek(saved[..|saved| - 1], team, gw) + (if w.team == team && w.effectiveGw == gw then [Brief(id, w)] else [])
  }

  /** The defaultdict(list) the loop fills: each waiver of the gameweek is
      appended to its team's list, a team's key created on its first one. */
  function Group(saved: SavedLog, gw: int): Dict<string, seq<GwWaiver>>
  {
    if |saved| == 0 then []
    else
      var groups := Group(saved[..|saved| - 1], gw);
      var (id, w) := saved[|saved| - 1];
      if w.effectiveGw != gw then groups
      else
        var sofar := if w.team in Keys(groups) then Lookup(groups, w.team).value else [];
        Assign(groups, w.team, sofar + [Brief(id, w)])
  }

  method GetWaiversForGameweek(saved: SavedLog, gw: int) returns (groups: Dict<string, seq<GwWaiver>>)
    ensures groups == Group(saved, gw)
  {
    groups := [];
    for k := 0 to |saved|
      invariant groups == Group(saved[..k], gw)
    {
      assert saved[..k + 1][..k] == saved[..k];
      var (id, w) := saved[k];
      if w.effectiveGw == gw {
        var sofar := if w.team in Keys(groups) then Lookup(groups, w.team).value else [];
        groups := Assign(groups, w.team, sofar + [Brief(id, w)]);
      }
    }
    assert saved[..|saved|] == saved;
  }

  /** Each team appears once, exactly the teams with a waiver in the
      gameweek, each with all of its waivers of the gameweek and nothing
      else, in tracker order. */
  lemma {:induction false} GroupShape(saved: SavedLog, gw: int)
    ensures DistinctKeys(Group(saved, gw))
    ensures forall team :: Lookup(Group(saved, gw), team)
                           == if TeamWeek(saved, team, gw) == [] then None else Some(TeamWeek(saved, team, gw))
    decreases |saved|
  {
    if |saved| > 0 {
      var init := saved[..|saved| - 1];
      GroupShape(init, gw);
      var groups := Group(init, gw);
      var (id, w) := saved[|saved| - 1];
      if w.effectiveGw == gw {
        var sofar := if w.team in Keys(groups) then Lookup(groups, w.team).value else [];
        assert sofar == TeamWeek(init, w.team, gw);
        AssignDistinct(groups, w.team, sofar + [Brief(id, w)]);
        assert Group(saved, gw) == Assign(groups, w.team, sofar + [Brief(id, w)]);
        forall team
          ensures Lookup(Group(saved, gw), team)
                  == if TeamWeek(saved, team, gw) == [] then None else Some(TeamWeek(saved, team, gw))
        {
          AssignLookup(groups, w.team, sofar + [Brief(id, w)], team);
          if team == w.team {
            assert TeamWeek(saved, team, gw) == TeamWeek(init, team, gw) + [Brief(id, w)];
          } else {
            assert TeamWeek(saved, team, gw) == TeamWeek(init, team, gw);
          }
        }
      } else {
        forall team
          ensures TeamWeek(saved, team, gw) == TeamWeek(init, team, gw)
        {
        }
      }
    }
  }

  /** Sizes of the lists of a grouping. */
  function Sizes<K>(d: Dict<K, seq<GwWaiver>>): (s: seq<int>)
    ensures |s| == |d| && forall k :: 0 <= k < |d| ==> s[k] == |d[k].1|
  {
    seq(|d|, k requires 0 <= k < |d| => |d[k].1|)
  }

  /** The lists together hold every waiver of the gameweek exactly once: their
      sizes add up to the number of waivers with that effective gameweek. */
  lemma {:induction false} GroupCount(saved: SavedLog, gw: int)
    ensures Sum(Sizes(Group(saved, gw))) == |AtGameweek(saved, gw)|
    decreases |saved|
  {
    if |saved| > 0 {
      var init := saved[..|saved| - 1];
      GroupCount(init, gw);
      var groups := Group(init, gw);
      var (id, w) := saved[|saved| - 1];
      if w.effectiveGw == gw {
        var sofar := if w.team in Keys(groups) then Lookup(groups, w.team).value else [];
        var v := sofar + [Brief(id, w)];
        if w.team in Keys(groups) {
          var i := KeyIndex(groups, w.team);
          assert Sizes(Assign(groups, w.team, v)) == Sizes(groups)[i := |v|];
          SumUpdate(Sizes(groups), i, |v|);
        } else {
          assert Sizes(Assign(groups, w.team, v)) == Sizes(groups) + [1];
          SumConcat(Sizes(groups), [1]);
          SumSingle(1);
        }
      }
    }
  }

  // ---------------------------------------------------------------------------
  // get_previous_week_waivers

  /** A team's waivers that took effect in gameweek gw - 1, in tracker order. */
  function PrevWeekWaivers(saved: SavedLog, team: string, gw: int): (r: seq<WaiverInfo>)
    ensures forall w :: w in r <==> w in Values(saved) && w.team == team && w.effectiveGw == gw - 1
  {
    if |saved| == 0 then []
    else
      var w := saved[|saved| - 1].1;
      assert Values(saved) == Values(saved[..|saved| - 1]) + [w];
      PrevWeekWaivers(saved[..|saved| - 1], team, gw) + (if w.team == team && w.effectiveGw == gw - 1 then [w] else [])
  }

  method GetPreviousWeekWaivers(saved: SavedLog, team: string, gw: int) returns (ws: seq<WaiverInfo>)
    ensures ws == PrevWeekWaivers(saved, team, gw)
  {
    ws := [];
    for k := 0 to |saved|
      invariant ws == PrevWeekWaivers(saved[..k], team, gw)
    {
      assert saved[..k + 1][..k] == saved[..k];
      var w := saved[k].1;
      if w.team == team && w.effectiveGw == gw - 1 {
        ws := ws + [w];
      }
    }
    assert saved[..|saved|] == saved;
  }

  /** The team's waivers of the previous week in report order: best
      relative performance first, ties in tracker order. */
  method RankTeamLastWeek(saved: SavedLog, team: string, gw: int) returns (ranked: seq<WaiverInfo>)
    ensures multiset(ranked) == multiset(PrevWeekWaivers(saved, team, gw))
    ensures NonIncreasing(ranked, PerfKey)
    ensures forall v :: Matching(ranked, PerfKey, v) == Matching(PrevWeekWaivers(saved, team, gw), PerfKey, v)
  {
    var ws := GetPreviousWeekWaivers(saved, team, gw);
    ranked := SortBy(ws, PerfKey);
    SortByOrdered(ws, PerfKey);
    forall v
      ensures Matching(ranked, PerfKey, v) == Matching(ws, PerfKey, v)
    {
      SortByStable(ws, PerfKey, v);
    }
  }

  /** The waivers of a list that belong to a team. */
  function OfTeam(ws: seq<WaiverInfo>, team: string): seq<WaiverInfo>
  {
    if |ws| == 0 then [] else OfTeam(ws[..|ws| - 1], team) + (if ws[|ws| - 1].team == team then [ws[|ws| - 1]] else [])
  }

  /** A team's previous-week list is the previous gameweek's list of the
      whole league cut down to that team, order kept. */
  lemma {:induction false} PrevWeekIsTeamPart(saved: SavedLog, team: string, gw: int)
    ensures PrevWeekWaivers(saved, team, gw) == OfTeam(AtGameweek(saved, gw - 1), team)
    decreases |saved|
  {
    if |saved| > 0 {
      var init := saved[..|saved| - 1];
      var w := saved[|saved| - 1].1;
      PrevWeekIsTeamPart(init, team, gw);
      if w.effectiveGw == gw - 1 {
        var week := AtGameweek(init, gw - 1);
        assert (week + [w])[..|week + [w]| - 1] == week;
      } else {
        assert AtGameweek(saved, gw - 1) == AtGameweek(init, gw - 1);
      }
    }
  }

  // ---------------------------------------------------------------------------
  // format_waiver_kind

  /** 'w' -> "Waiver", 'f' -> "Free Agent", any other kind unchanged. */
  function FormatWaiverKind(kind: string): (text: string)
    ensures text == kind <==> kind != "w" && kind != "f"
    ensures kind == "w" ==> text == "Waiver"
    ensures kind == "f" ==> text == "Free Agent"
  {
    if kind == "w" then "Waiver" else if kind == "f" then "Free Agent" else kind
  }

  // ---------------------------------------------------------------------------
  // the teams the report covers

  /** recent_teams: teams with a waiver in this or the previous gameweek,
      plus the picking order when there is one. */
  function RecentTeams(saved: SavedLog, gameweek: int, picking: seq<string>): set<string>
  {
    TeamSet(Keys(Group(saved, gameweek))) + TeamSet(Keys(Group(saved, gameweek - 1))) + TeamSet(picking)
  }

  function TeamSet(names: seq<string>): (r: set<string>)
    ensures forall t :: t in r <==> t in names
  {
    set t | t in names
  }

  /** A team is recent exactly when it made a waiver effective in this or
      the previous gameweek, or is in the picking order. */
  lemma RecentTeamsAre(saved: SavedLog, gameweek: int, picking: seq<string>, t: string)
    ensures t in RecentTeams(saved, gameweek, picking)
        <==> (exists k :: 0 <= k < |saved| && saved[k].1.team == t
                          && (saved[k].1.effectiveGw == gameweek || saved[k].1.effectiveGw == gameweek - 1))
             || t in picking
  {
    GroupShape(saved, gameweek);
    GroupShape(saved, gameweek - 1);
    TeamWeekNonEmpty(saved, t, gameweek);
    TeamWeekNonEmpty(saved, t, gameweek - 1);
  }

  lemma {:induction false} TeamWeekNonEmpty(saved: SavedLog, team: string, gw: int)
    ensures TeamWeek(saved, team, gw) != [] <==>
      exists k :: 0 <= k < |saved| && saved[k].1.team == team && saved[k].1.effectiveGw == gw
    decreases |saved|
  {
    if |saved| > 0 {
      var init := saved[..|saved| - 1];
      TeamWeekNonEmpty(init, team, gw);
      forall k | 0 <= k < |init|
        ensures init[k] == saved[k]
      {
      }
    }
  }

  /** The names of s that are not in excluded, in order: the filter of
      lines 186-188 and the set difference of line 246. */
  function Without(s: seq<string>, excluded: set<string>): (r: seq<string>)
    ensures forall t :: t in r <==> t in s && t !in excluded
  {
    if |s| == 0 then []
    else
      var last := s[|s| - 1];
      assert forall t :: t in s <==> t in s[..|s| - 1] || t == last by {
        assert s == s[..|s| - 1] + [last];
      }
      Without(s[..|s| - 1], excluded) + (if last in excluded then [] else [last])
  }

  /** teams_to_report: with a picking order, that order reversed (last pick
      first) followed by the other recent teams in set iteration order;
      without one, the recent teams, or every team when none is recent. */
  function TeamsToReportOf(picking: seq<string>, recentOrder: seq<string>, allTeams: seq<string>): seq<string>
  {
    if |picking| > 0 then Reverse(picking) + Without(recentOrder, TeamSet(picking))
    else if |recentOrder| > 0 then recentOrder
    else allTeams
  }

  /** The selection of lines 183-190; recentOrder is the order in which the
      set of recent teams iterates, which Python leaves unspecified. */
  method TeamsToReport(picking: seq<string>, recent: set<string>, recentOrder: seq<string>, allTeams: seq<string>)
    returns (teams: seq<string>)
    requires NoRepeats(picking) && (|picking| > 0 ==> forall t :: t in picking ==> t in recent)
    requires NoRepeats(recentOrder) && forall t :: t in recentOrder <==> t in recent
    ensures teams == TeamsToReportOf(picking, recentOrder, allTeams)
  {
    if |picking| > 0 {
      teams := Reverse(picking);
      for k := 0 to |recentOrder|
        invariant teams == Reverse(picking) + Without(recentOrder[..k], TeamSet(picking))
      {
        assert recentOrder[..k + 1][..k] == recentOrder[..k];
        var team := recentOrder[k];
        forall q | 0 <= q < k
          ensures recentOrder[..k][q] != team
        {
        }
        ReverseMembers(picking);
        if team !in teams {
          teams := teams + [team];
        }
      }
      assert recentOrder[..|recentOrder|] == recentOrder;
    } else if |recentOrder| > 0 {
      teams := recentOrder;
    } else {
      teams := allTeams;
    }
  }

  /** With a picking order, the report opens with the last pick and covers
      every recent team exactly once. */
  lemma TeamsToReportCover(picking: seq<string>, recent: set<string>, recentOrder: seq<string>, allTeams: seq<string>)
    requires NoRepeats(picking) && |picking| > 0 && forall t :: t in picking ==> t in recent
    requires NoRepeats(recentOrder) && forall t :: t in recentOrder <==> t in recent
    ensures var teams := TeamsToReportOf(picking, recentOrder, allTeams);
      && teams[..|picking|] == Reverse(picking)
      && (forall t :: t in teams <==> t in recent)
      && NoRepeats(teams)
  {
    var teams := TeamsToReportOf(picking, recentOrder, allTeams);
    assert teams[..|picking|] == Reverse(picking);
    ReverseMembers(picking);
    ReverseNoRepeats(picking);
    WithoutNoRepeats(recentOrder, TeamSet(picking));
    JoinNoRepeats(Reverse(picking), Without(recentOrder, TeamSet(picking)), picking);
  }

  /** Two lists without repeats whose members are inside and outside a given
      list join without repeats. */
  lemma JoinNoRepeats(a: seq<string>, b: seq<string>, inside: seq<string>)
    requires NoRepeats(a) && NoRepeats(b)
    requires forall t :: t in a ==> t in inside
    requires forall t :: t in b ==> t !in inside
    ensures NoRepeats(a + b)
  {
    forall i, j | 0 <= i < j < |a + b|
      ensures (a + b)[i] != (a + b)[j]
    {
      if j < |a| {
        assert (a + b)[i] == a[i] && (a + b)[j] == a[j];
      } else if i >= |a| {
        assert (a + b)[i] == b[i - |a|] && (a + b)[j] == b[j - |a|];
      } else {
        assert (a + b)[i] in a && (a + b)[j] in b;
      }
    }
  }

  lemma ReverseNoRepeats(s: seq<string>)
    requires NoRepeats(s)
    ensures NoRepeats(Reverse(s))
  {
    var r := Reverse(s);
    forall i, j | 0 <= i < j < |r|
      ensures r[i] != r[j]
    {
      assert r[i] == s[|s| - 1 - i] && r[j] == s[|s| - 1 - j];
    }
  }

  lemma {:induction false} WithoutNoRepeats(s: seq<string>, excluded: set<string>)
    requires NoRepeats(s)
    ensures NoRepeats(Without(s, excluded))
    decreases |s|
  {
    if |s| > 0 {
      var init := s[..|s| - 1];
      assert NoRepeats(init) by {
        forall i, j | 0 <= i < j < |init|
          ensures init[i] != init[j]
        {
          assert init[i] == s[i] && init[j] == s[j];
        }
      }
      WithoutNoRepeats(init, excluded);
      assert s[|s| - 1] !in init;
    }
  }

  // ---------------------------------------------------------------------------
  // inactive teams

  /** sorted(set(all_teams) - recent_teams): every team without recent
      activity, once each, in ascending order. */
  function InactiveTeams(allTeams: seq<string>, recent: set<string>): (r: seq<string>)
    ensures Ascending(r)
    ensures forall t :: t in r <==> t in allTeams && t !in recent
  {
    SortedSet(Without(allTeams, recent))
  }

  /** Every team of the league is reported on or listed inactive; when some
      team was active, none is both. */
  lemma ReportedOrInactive(picking: seq<string>, recent: set<string>, recentOrder: seq<string>, allTeams: seq<string>)
    requires NoRepeats(picking) && (|picking| > 0 ==> forall t :: t in picking ==> t in recent)
    requires NoRepeats(recentOrder) && forall t :: t in recentOrder <==> t in recent
    ensures var teams := TeamsToReportOf(picking, recentOrder, allTeams);
      && (forall t :: t in allTeams ==> t in teams || t in InactiveTeams(allTeams, recent))
      && (|recentOrder| > 0 ==> forall t :: t in teams ==> t !in InactiveTeams(allTeams, recent))
  {
    if |picking| > 0 {
      TeamsToReportCover(picking, recent, recentOrder, allTeams);
    }
  }

  // ---------------------------------------------------------------------------
  // generate_waiver_report's selection

  /** The picking order, the teams reported on and the inactive teams of a
      report; prevRecords are the teams' saved records of the previous
      gameweek, allTeams the league's team names, recentOrder the order in
      which the set of recent teams iterates. */
  method ReportSelection(saved: SavedLog, gameweek: int, teamIds: seq<int>, prevRecords: map<int, GwRecord>,
                         allTeams: seq<string>, recentOrder: seq<string>)
    returns (picking: seq<string>, teams: seq<string>, inactive: seq<string>)
    requires NoRepeats(recentOrder)
    requires forall t :: t in recentOrder <==>
      t in RecentTeams(saved, gameweek, PickingOrder(gameweek, LeagueTableOf(teamIds, prevRecords)))
    ensures picking == PickingOrder(gameweek, LeagueTableOf(teamIds, prevRecords))
    ensures teams == TeamsToReportOf(picking, recentOrder, allTeams)
    ensures inactive == InactiveTeams(allTeams, RecentTeams(saved, gameweek, picking))
  {
    picking := [];
    if gameweek > 1 {
      var table := GetLeagueTable(teamIds, prevRecords);
      picking := PickingOrder(gameweek, table);
    }
    LeagueTableShape(teamIds, prevRecords);
    PickingOrderTeams(gameweek, LeagueTableOf(teamIds, prevRecords));
    var current := GetWaiversForGameweek(saved, gameweek);
    var previous := GetWaiversForGameweek(saved, gameweek - 1);
    var recent := TeamSet(Keys(current)) + TeamSet(Keys(previous)) + TeamSet(picking);
    assert recent == RecentTeams(saved, gameweek, picking);
    teams := TeamsToReport(picking, recent, recentOrder, allTeams);
    inactive := InactiveTeams(allTeams, recent);
  }
}
