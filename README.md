# VDL draft-league scoring and reports, modelled in Dafny

VDL is a Fantasy Premier League draft-league tool. This project models
its scoring and reporting core as functions, methods and lemmas over values:

- Per-gameweek team statistics:
  - starter, bench and season points;
  - the formation;
  - the per-player season ledger.
- The optimal lineup over the eight legal formations.
- League positions.
- The waiver and trade trackers, which number the league's transactions and trades and record their performance.
- The report builders:
  - the waiver report's picking order, groups, teams to report and inactive teams;
  - the waiver summary's count, top and bottom three, comments and all-time extremes;
  - the free-agent pickup summary;
  - the trade summary's gains, winner and ranking;
  - the league-table printer.

The model's data is organised as follows:

- A Python dict is an ordered list of key/value pairs (`PyLib.Dict`), because insertion order decides the results of the stable sorts.
- A JSON file the program reads becomes a parameter:
  - the league entries;
  - the player directory;
  - the per-gameweek score index;
  - the saved records.
- A crash the program does not catch is the `None` of an `Option`. That covers a `KeyError`, `exit(1)` and unpacking a `None`.
- Python's `sorted(..., reverse=True)` and `list.sort(..., reverse=True)` are `Sorting.SortBy`, a stable sort by key, highest first. An ascending sort is `SortBy` on the negated key: the comparisons and the tie order are the same.

Modules follow the source files:

| module | source file |
|---|---|
| `GameweekStats` | `calculate_points.py` (`calculate_gw_stats`) |
| `OptimalLineup` | `calculate_points.py` (`calculate_optimal_points`) |
| `LeaguePositions` | `calculate_points.py` (`calculate_league_positions`) |
| `TrackWaivers` | `track_waivers.py` |
| `TrackTrades` | `track_trades.py` |
| `WaiverData` | helpers shared by the waiver report and the waiver summary |
| `WaiverReport` | `waiver_report.py` |
| `WaiverSummary` | `waiver_summary.py` |
| `FreeAgentSummary` | `free_agent_summary.py` |
| `TradeSummary` | `trade_summary.py` |
| `PrintTable` | `print_table.py` |

`PyLib`, `Sorting` and `Numbering` hold the Python library behaviour the modules share:

- `PyLib`: dicts, sums, `str(int)`, padding and string order.
- `Sorting`: the stable sort.
- `Numbering`: the `i += 1; if keep: d[i] = make(x)` loop of both trackers.

Where the source's docstrings and its code disagree, the model follows the code:

- `get_most_recent_trade_id` returns `0`, not `None`, when nothing is saved.
- `get_recent_scores` in the report and the summary returns gameweeks gw-2..gw, not the three weeks before gw.

## Model

| member | source | states |
|---|---|---|
| GameweekStats.CalculateGwStats | calculate_points.py:5-115 | A record is written exactly when all of these hold: the team is in the league, its picks file exists, the previous record exists for gw > 1, the gameweek file is present when there are picks, every pick is in the directory, and every starter's category maps to a formation slot. The record then has the team's name and captain, the enriched stats, formation, week/bench/optimal points, running totals added to the previous ones, the sorted season ledger, and ranks 0 |
| GameweekStats.ProcessPicks | calculate_points.py:53-103 | The pick loop fails exactly on a missing gameweek file, an unknown player or a starter without a slot. Otherwise it returns the stats in pick order, the formation, the starter and bench sums, the previous total plus the week, and the ledger accrued pick by pick |
| GameweekStats.TallyPick | calculate_points.py:71-101 | Position 11 or less counts one in the category's formation slot and adds the points to the week and the total. A higher position adds them to the bench. Either way the player's ledger entry is credited |
| GameweekStats.Stats | calculate_points.py:53-69 | One enriched stat per pick, in pick order, with the player's category and the gameweek points (0 when the player did not score) |
| GameweekStats.Enrich | calculate_points.py:63-74 | A pick is benched exactly when its position is above 11. It keeps its element and position, and takes the directory category and the points |
| GameweekStats.SortTotalPlayerStats | calculate_points.py:117-125 | The sorted ledger holds the same entries as before |
| GameweekStats.SortTotalPlayerStatsOrdered | calculate_points.py:117-125 | The sorted ledger is non-increasing in season points, and players with equal points keep their earlier order |
| GameweekStats.StatsSnoc | calculate_points.py:71-101 | One more pick adds its points to the starter sum or the bench sum. A starter with a slot adds one to that slot of the formation |
| GameweekStats.AccrueSnoc | calculate_points.py:78-101 | Accruing one more stat credits it on top of the ledger so far |
| GameweekStats.CreditLookup | calculate_points.py:78-101 | Crediting a stat bumps that player's existing entry, or adds a fresh one with the points on the starter or bench side. No other player's entry changes |
| GameweekStats.AccrueLookup | calculate_points.py:78-101 | After the loop, each player's ledger entry is the previous entry bumped by every pick of that player, or a fresh entry for a first appearance |
| GameweekStats.AccrueDistinct | calculate_points.py:78-101 | The ledger keeps one entry per player |
| GameweekStats.PointsPartition | calculate_points.py:72-90 | Week points plus benched points equal the sum of all picked players' points |
| GameweekStats.FormationCountsStarters | calculate_points.py:72-73 | The four formation counts add up to the number of starters |
| GameweekStats.OptimalCoversWeekPoints | calculate_points.py:105-107 | When the starters form a legal formation, the record's optimal points are at least its week points |
| OptimalLineup.Slot | calculate_points.py:172 | Categories 1-4 go to buckets 0-3. Python's negative indexing sends categories -3..0 to buckets 0..3, and any other category has no slot (an IndexError) |
| OptimalLineup.CalculateOptimalPoints | calculate_points.py:158-202 | Fails exactly when a player has no slot. Otherwise the result is the best of 0 and the eight formations' totals |
| OptimalLineup.DealSquad | calculate_points.py:164-172 | Each bucket holds that category's players in squad order |
| OptimalLineup.SortedSquad | calculate_points.py:164-176 | Each bucket is that category's players sorted by points, highest first, ties in squad order |
| OptimalLineup.FormationTotal | calculate_points.py:193-197 | One formation's total is the sum of the top f[p] players of each sorted bucket |
| OptimalLineup.BestFormationPoints | calculate_points.py:192-200 | The formation loop computes the optimum |
| OptimalLineup.BestOfBounds | calculate_points.py:192-200 | The optimum is at least 0 and at least every formation's total, and it is 0 or one formation's total |
| OptimalLineup.OptimalIsBestFormation | calculate_points.py:177-202 | The same, over the eight legal formations |
| OptimalLineup.OptimalIgnoresOrder | calculate_points.py:158-202 | Reordering the player list does not change the optimum |
| OptimalLineup.BucketCount | calculate_points.py:171-172 | A bucket holds every copy of the players of its category and none of the others |
| OptimalLineup.BucketPermutation | calculate_points.py:171-172 | Permuted squads give permuted buckets |
| OptimalLineup.TopSumPermutation | calculate_points.py:174-197 | The top-k sum of a sorted bucket does not depend on the bucket's order |
| OptimalLineup.FormationPointsExpand | calculate_points.py:196-197 | A formation's total is the four buckets' top sums |
| OptimalLineup.StarterBucketWithin | calculate_points.py:72-73 | The starters of a category are some of that category's players |
| OptimalLineup.StarterPointsByBucket | calculate_points.py:72-75 | When every starter has a slot, the week points are the sum over the four buckets of their starters' points |
| OptimalLineup.TopEntriesDominate | calculate_points.py:174-197 | The first n entries of a non-increasing list add up to at least any n of its entries |
| OptimalLineup.StartersWithinTopSum | calculate_points.py:174-197 | A category's starters score no more than its top players of the same count |
| OptimalLineup.OptimalCoversStarters | calculate_points.py:158-202 | When the starting eleven is a legal formation, the optimum is at least what the starters scored |
| LeaguePositions.CalculateLeaguePositions | calculate_points.py:274-314 | Fails exactly when a team's record is missing. Otherwise every team's record is rewritten with its league rank and optimal league rank, and nothing else changes |
| LeaguePositions.LoadRecords | calculate_points.py:284-294 | Loading caches every team's record and builds the two points tables in team order |
| LeaguePositions.WriteRanks | calculate_points.py:301-305 | The enumerate loop gives each team in the sorted order its 1-based position. Records not in the order stay unchanged |
| LeaguePositions.TotalsAt | calculate_points.py:284-290 | The points table lists each team with its total, in team order |
| LeaguePositions.RankInRange | calculate_points.py:297-305 | Every team's rank is between 1 and the number of teams |
| LeaguePositions.RanksDiffer | calculate_points.py:297-305 | Different teams get different ranks |
| LeaguePositions.RankGiven | calculate_points.py:297-305 | Every rank from 1 to N is given to some team |
| LeaguePositions.RankOrder | calculate_points.py:297-305 | A team ranks above another exactly when it has more points, or equal points and comes earlier in the team list |
| Sorting.SortBy | calculate_points.py:297-298 | A sort returns the same elements |
| Sorting.SortByOrdered | calculate_points.py:297-298 | A reverse sort leaves the keys non-increasing |
| Sorting.SortByStable | calculate_points.py:297-298 | Elements with equal keys keep their input order |
| Sorting.SortedFirst | waiver_summary.py:84-85 | After a reverse sort, the first element has the largest key and is the first element with that key |
| Sorting.SortedLast | waiver_summary.py:84-86 | After a reverse sort, the last element has the smallest key and is the last element with that key |
| Sorting.RanksInRange | calculate_points.py:301-305 | Each key's position in the standings is between 1 and N |
| Sorting.RanksDistinct | calculate_points.py:301-305 | Different keys have different positions |
| Sorting.RanksTaken | calculate_points.py:301-305 | Each position is held by the key listed there, and that key comes from the table |
| Sorting.HigherValueRanksBetter | calculate_points.py:297-305 | A higher value gets a better position |
| Sorting.TiesKeepOrder | calculate_points.py:297-305 | Equal values keep the table's order |
| Sorting.SortStrings | waiver_report.py:251 | Names sort into ascending string order, with the same names |
| Sorting.SortedSet | waiver_report.py:246-251 | Sorting a set of names gives exactly those names, ascending |
| Numbering.NumberedKeys | track_waivers.py:23-30 | Records are keyed by the 1-based position of every kept item, and no other position, in increasing order |
| Numbering.NumberedEntries | track_waivers.py:27-42 | Each record is the record made from the item at its key |
| Numbering.NumberedFails | track_waivers.py:27-42 | The loop fails exactly when a kept item's record cannot be made |
| TrackWaivers.CollectWaiverData | track_waivers.py:6-60 | The tracker numbers the transactions and records each accepted one |
| TrackWaivers.RecordWaiver | track_waivers.py:29-58 | An accepted transaction's record is built by the gameweek loop |
| TrackWaivers.RecordWeek | track_waivers.py:44-58 | One gameweek appends both players' points. At the effective gameweek it sets the one-week figures and their difference |
| TrackWaivers.History | track_waivers.py:44-53 | A player's points history has one entry per gameweek 1..current |
| TrackWaivers.WaiverNumbering | track_waivers.py:23-30 | The saved keys are exactly the positions of the accepted transactions, in increasing order |
| TrackWaivers.WaiverEntries | track_waivers.py:27-58 | Each saved record is the record of the transaction at its key |
| TrackWaivers.WaiverFails | track_waivers.py:27-58 | Tracking fails exactly when an accepted transaction's team is not in the league, or some transaction is accepted and a gameweek file up to the current gameweek is missing |
| TrackWaivers.WaiverRecord | track_waivers.py:29-58 | A record carries the team, kind, gameweek and players, and one point per gameweek for each player. Its one-week figures are the effective gameweek's points and their difference, or 0 outside 1..current |
| TrackTrades.TrackTradePerformance | track_trades.py:50-88 | The gameweek loop computes a traded player's performance |
| TrackTrades.Gameweeks | track_trades.py:73-85 | The per-gameweek points run from the effective gameweek to the current one, one entry each, and fail when a score is missing |
| TrackTrades.PerformanceWindow | track_trades.py:62-88 | The performance carries the player's full name. It is 0 with no gameweeks when the trade takes effect after the current gameweek. Otherwise it has one entry per gameweek from effective to current, and the total is their sum |
| TrackTrades.PerformanceFails | track_trades.py:62-82 | The performance fails exactly when the player is unknown or a gameweek in the window lacks the player's score |
| TrackTrades.CollectItems | track_trades.py:40-45 | The item loop builds the offered and received dicts |
| TrackTrades.ItemsKeys | track_trades.py:40-45 | The offered dict's keys are exactly the players sent out, and the received dict's keys exactly the players taken in. Both keep one entry per player, each holding that player's performance |
| TrackTrades.CollectTrades | track_trades.py:8-47 | The trade loop numbers the trades and records each processed or accepted one |
| TrackTrades.TradeRecorded | track_trades.py:30-45 | A trade's record carries both team names, the gameweek, the state, and the two sides as in ItemsKeys |
| TrackTrades.CollectNumbering | track_trades.py:25-31 | The saved keys are exactly the positions of the trades in state 'p' or 'a', in increasing order |
| TrackTrades.CollectEntries | track_trades.py:25-45 | Each saved record is the record of the trade at its key |
| TrackTrades.CollectFails | track_trades.py:25-45 | Collecting fails exactly when some recorded trade's record cannot be made |
| TrackTrades.MaxOf | track_trades.py:119-120 | The maximum is one of the ids and no id exceeds it |
| TrackTrades.SavedIdsRoundTrip | track_trades.py:115-120 | Reading the saved string keys back as integers gives 0 for an empty log, otherwise the largest id |
| TrackTrades.LatestId | track_trades.py:102-120 | The most recent id is 0 exactly when no trade was recorded. Otherwise it is the position of a recorded trade with no recorded trade after it |
| TrackTrades.MostRecentIsLast | track_trades.py:102-120 | The same, for the log that collect_trades produced |
| WaiverData.SavedLookup | free_agent_summary.py:46-51 | Looking up str(n) in the saved log finds the record numbered n |
| WaiverData.RecentWindow | waiver_report.py:116-131 | For gw from 0 to the list length, the scores are the slice [max(0, gw-3):gw]: at most three, ending at gw's entry |
| WaiverData.RecentOfTracked | waiver_summary.py:22-33 | For a tracked waiver, the recent scores are each player's points in gameweeks max(1, gw-2)..gw |
| WaiverData.AtGameweek | waiver_summary.py:115-125 | The week's list holds exactly the saved waivers effective that gameweek |
| WaiverData.CollectWeek | waiver_summary.py:115-125 | The loop collects that list in saved order |
| WaiverData.RankWeek | waiver_summary.py:127-142 | The week's waivers are sorted best first, with ties in saved order. The top three are the first three; the bottom three are the last three, worst first |
| WaiverData.Top3 | waiver_summary.py:131 | The top list is the first min(3, n) entries |
| WaiverData.Bottom3Shape | waiver_summary.py:142 | The bottom list is the last min(3, n) entries in reverse |
| WaiverData.TopBottomBounds | waiver_report.py:273-291 | No listed top waiver did worse than a waiver ranked below it, and no listed bottom waiver did better than one ranked above it |
| WaiverData.SignedPerformance | waiver_summary.py:145-151 | The signed figure is at least two characters long |
| WaiverData.SignedPerformanceSign | waiver_summary.py:145-151 | The figure starts with '+' exactly for gains of 0 or more and with '-' for losses, has one sign only, and reads back as the performance |
| WaiverData.PlusPerformance | waiver_summary.py:139 | The figure as printed always starts with '+' |
| WaiverData.PlusPerformanceLoss | waiver_summary.py:139 | A loss of 3 is printed "+-3", where the signed figure is "-3" |
| WaiverReport.GetLeagueTable | waiver_report.py:37-52 | The table loop maps team names to total points and skips teams with no record |
| WaiverReport.LeagueTableShape | waiver_report.py:37-52 | Names are distinct and are exactly the recorded teams' names. Each entry holds the points of the last recorded team with that name |
| WaiverReport.Negated | waiver_report.py:69-70 | Negating the points keeps names and order |
| WaiverReport.PickingOrder | waiver_report.py:54-73 | The picking order is empty at gameweek 1 or with an empty table. Otherwise it has one name per table entry |
| WaiverReport.PickingOrderPlaces | waiver_report.py:54-73 | Each team picks once. Fewer points pick earlier, and equal points keep table order |
| WaiverReport.PickingOrderTeams | waiver_report.py:54-73 | The order holds table teams only, each once |
| WaiverReport.GetWaiversForGameweek | waiver_report.py:75-92 | The loop groups the week's waivers by team |
| WaiverReport.GroupShape | waiver_report.py:75-92 | The groups are keyed by distinct teams. A team's group is its waivers of that week in saved order, and teams with none have no group |
| WaiverReport.GroupCount | waiver_report.py:75-92 | The group sizes add up to the number of the week's waivers |
| WaiverReport.TeamWeekNonEmpty | waiver_report.py:79-84 | A team has a group exactly when one of its saved waivers is effective that week |
| WaiverReport.PrevWeekWaivers | waiver_report.py:94-114 | The list holds exactly the team's waivers effective the week before |
| WaiverReport.GetPreviousWeekWaivers | waiver_report.py:94-114 | The loop collects that list in saved order |
| WaiverReport.PrevWeekIsTeamPart | waiver_report.py:94-114 | The list is the team's part of the previous week's list |
| WaiverReport.RankTeamLastWeek | waiver_report.py:226-230 | The team's last-week waivers are sorted best first, with ties in saved order |
| WaiverReport.FormatWaiverKind | waiver_report.py:143-151 | 'w' reads "Waiver", 'f' reads "Free Agent", and any other kind is shown as it is |
| WaiverReport.RecentTeamsAre | waiver_report.py:172-180 | A team is recent exactly when it has a waiver effective this week or last week, or it is in the picking order |
| WaiverReport.Without | waiver_report.py:186-188 | The kept names are exactly those of the list outside the excluded set, in list order. This is also the set difference of line 246 |
| WaiverReport.TeamsToReport | waiver_report.py:183-190 | The loop builds the teams to report |
| WaiverReport.TeamsToReportCover | waiver_report.py:183-188 | With a picking order, the report starts with that order reversed, covers exactly the recent teams, and names each once |
| WaiverReport.InactiveTeams | waiver_report.py:246-252 | The inactive teams are exactly the league's teams that are not recent, sorted ascending |
| WaiverReport.ReportedOrInactive | waiver_report.py:183-252 | Every league team is reported or listed inactive. When some team is recent, no reported team is listed inactive |
| WaiverReport.ReportSelection | waiver_report.py:161-190 | The report computes the picking order from the previous week's table, then the teams to report and the inactive teams |
| WaiverSummary.CommentCases | waiver_summary.py:45-69 | Gains of 5 or more get praise, losses of 5 or more get scorn, and anything in between gets no comment |
| WaiverSummary.CountThisWeek | waiver_summary.py:106-109 | The counter is the number of saved waivers effective this gameweek |
| WaiverSummary.CountIsWeekLength | waiver_summary.py:106-109 | That count equals the length of the week's waiver list |
| WaiverSummary.AllTimeExtremes | waiver_summary.py:71-88 | There is no best or worst exactly when nothing is saved. The best has the largest performance and is the first saved waiver with it; the worst has the smallest and is the last saved waiver with it |
| WaiverSummary.ListedShape | waiver_summary.py:131-151 | A bottom-three figure has the waiver's true sign and reads back as the performance. A top-three figure always starts with '+', and the two figures agree exactly for gains of 0 or more. Both lines carry the team, a comment by the ±5 rule, and at most three scores per player |
| WaiverSummary.ListAll | waiver_summary.py:131-151 | The listing loop lists each waiver in order, with the top-three or the bottom-three figure |
| WaiverSummary.GenerateWaiverSummary | waiver_summary.py:90-175 | The summary holds the week's count and the last-week waivers ranked best first, with ties in saved order. The top three carry the literal-'+' figure and the bottom three, worst first, the signed figure. It also holds the all-time best and worst |
| FreeAgentSummary.FollowingWindow | free_agent_summary.py:19-26 | The forward window is the slice [gw:gw+3]: at most three scores from gw's entry on |
| FreeAgentSummary.GenerateFreeAgentSummary | free_agent_summary.py:37-80 | The pickup summary is accepted or rejected as FreeAgentCases states |
| FreeAgentSummary.FreeAgentCases | free_agent_summary.py:37-80 | A pickup is announced exactly when str(id) is saved and its kind is 'f'. It then carries the team, the gameweek and a signed figure that reads back as the performance |
| FreeAgentSummary.AnnouncedFromTracker | free_agent_summary.py:46-55 | Over the tracker's log, id n is announced exactly when transaction n was an accepted free-agent move |
| FreeAgentSummary.TrackedKind | track_waivers.py:27-33 | Each saved record keeps the kind of the transaction at its key |
| FreeAgentSummary.WindowsFromEffectiveGw | free_agent_summary.py:71-72 | Both windows are the players' points in the effective gameweek and the two after it |
| TradeSummary.TradeGains | trade_summary.py:18-29 | The two gains are opposite |
| TradeSummary.WinnerCases | trade_summary.py:31-41 | There is no winner exactly when the gains are equal. Otherwise the team with the larger gain wins |
| TradeSummary.WinnerReceivedMore | trade_summary.py:18-41 | The offering team wins exactly when it received more points than it sent. A tie means both gains are 0 |
| TradeSummary.MessageNamesWinner | trade_summary.py:43-52 | The message names the winner with the winning margin, or reports a tie at 0 |
| TradeSummary.CrownsOnWinner | trade_summary.py:58-98 | With distinct team names, the crown goes to the winner only, in both the summary and the details |
| TradeSummary.CrownsSameName | trade_summary.py:58-98 | When both teams share a name and the trade is not tied, the summary crowns the first name and the details crown both |
| TradeSummary.ThisWeek | trade_summary.py:124-127 | This week's trades are exactly the processed trades effective this gameweek |
| TradeSummary.UpTo | trade_summary.py:135-139 | The ranking pool is exactly the processed trades up to this gameweek, each with its gains |
| TradeSummary.CollectGains | trade_summary.py:135-139 | The loop collects that pool in saved order |
| TradeSummary.GenerateTradeSummary | trade_summary.py:124-147 | The summary holds this week's trades, the pool sorted by margin largest first with ties in saved order, and the first min(10, n) trades shown |
| TradeSummary.ShownBeatHidden | trade_summary.py:143-147 | No trade that is cut off has a larger margin than a shown one |
| PrintTable.GetLeagueTables | print_table.py:6-25 | The loop builds the actual and optimal tables |
| PrintTable.TablesFail | print_table.py:13-20 | The tables are missing exactly when some team's record is missing |
| PrintTable.TablesLookup | print_table.py:11-25 | Both tables have the same names, once each. A name's entry is the total (or optimal total) of the last team with that name |
| PrintTable.TableIsLeagueTable | print_table.py:6-25 | When no record is missing, the actual table is the waiver report's league table |
| PrintTable.Longest | print_table.py:38-39 | The width is at least every string's length and equals one of them |
| PrintTable.PointTexts | print_table.py:39 | The points column is str() of each total |
| PrintTable.PrintTables | print_table.py:27-52 | No output when a record is missing or the chosen table is empty. Otherwise the output is the chosen table sorted by points, rendered with columns as wide as the longest name and the longest total |
| PrintTable.RenderTable | print_table.py:30-49 | Renders the title, header, separator, one line per row and the closing fence, in that order. The columns are as wide as the longest name and the longest total |
| PrintTable.Heading | print_table.py:30-43 | The title, then the header and the separator at those same widths |
| PrintTable.AppendRows | print_table.py:46-47 | The row loop appends the rows in order |
| PrintTable.CellsLayout | print_table.py:42-47 | A line is position, team and points, in that order, one space apart and newline-terminated |
| PrintTable.RowsRanked | print_table.py:32-35 | The rows come from the table and are in non-increasing points order |
| PrintTable.RowPosition | print_table.py:46-47 | Row k starts with its 1-based position |
| PrintTable.ColumnsFit | print_table.py:38-39 | Every name and every points text fits the columns, and the widest of each fills its column exactly |
| PrintTable.RowAlignment | print_table.py:46-47 | At any widths that hold every name and total, print_tables' own included, each row puts the name left-aligned and the points right-aligned in their columns |
| PrintTable.PrintedRowsAligned | print_table.py:38-47 | In the table print_tables prints, every row is aligned that way in columns as wide as the longest name and the longest total |
| PrintTable.PrintedLayout | print_table.py:38-47 | In the table print_tables prints, the separator and every row are exactly as long as those columns. The header is as long as the columns widened to hold "Team" and "Points" |
| PrintTable.LayoutWidths | print_table.py:38-47 | The same, at any widths that hold every entry |
| PrintTable.HeadingWidths | print_table.py:42-43 | With columns at least as wide as "Team" and "Points", the header and separator are as wide as a row |
| PrintTable.LayoutEven | print_table.py:38-47 | At widths that hold both headings and every entry, every line of the layout has the same width |
| PrintTable.TableEven | print_table.py:38-47 | With the corrected widths (each column at least as wide as its heading), every line of the table is as wide as the header |
| PrintTable.HeaderOverhang | print_table.py:38-43 | In the table print_tables prints for the one row ("Team A", 523), the header is 19 characters over a 16-character separator and row |
| PyLib.IntStrRoundTrip | track_trades.py:119 | int(str(n)) == n |

## Left out

- File and network I/O, `print`, the Discord and plotting code, argument parsing, and the clock (`get_current_gw` becomes a parameter).
- Player names beyond `FullName`, all report text, emoji and markdown: the reports are modelled by what they select and in which order, plus the signed figures.
- WaiverSummary.CommentCases: `random.choice` among the comment strings is not modelled, only which category of comment (praise, scorn or none) a waiver earns.
- The best-ever and worst-ever text lines of the waiver summary. Only the selection of the two waivers is modelled.
- WaiverSummary.AllTimeExtremes: the `isinstance(..., int)` filter is not modelled. In the model the relative performance is always an integer, so it keeps every waiver.
- WaiverReport.TeamsToReport: Python's set iteration order is not modelled. The order of `recent_teams` is the parameter `recentOrder`, which must list exactly the recent teams once each.
- The report's second lookup of each current-week waiver (waiver_report.py:213-221) and its per-team text are not modelled. The groups it walks are.
- WaiverData.RecentWindow: a negative gameweek is not stated. Python's negative slice indices are modelled by `PyLib.PySlice`, but RecentWindow's ensures covers gw >= 0 only.
- The dicts that get_waivers_for_gameweek and get_previous_week_waivers build keep a subset of the fields. The model keeps the id, kind and players (`GwWaiver`), or the whole saved record.
- The season ledger's keys are player ids as integers. The source keys it by `str(element_id)`, which is a one-to-one renaming.
- calculate_gw_stats writes its record to a file and returns None. The model returns the record written, or None when the program would stop first.
- PrintTable.RowAlignment, PrintTable.PrintedRowsAligned, PrintTable.PrintedLayout, PrintTable.LayoutEven and PrintTable.TableEven require fewer than 10000 rows. At 10000 rows the position text outgrows its four-character column.
- TradeSummary.CrownsOnWinner requires distinct team names. TradeSummary.CrownsSameName gives the shared-name case.
- LeaguePositions.CalculateLeaguePositions requires distinct team ids, as the league file lists each team once. The model builds the points tables one entry per id, which matches the source's dicts only when no id repeats.
- The dead `valid_formation` flag of calculate_optimal_points is always true and is not modelled.

## Findings

| source | as written | input that shows it | evidently intended | confidence | as-written member | corrected member |
|---|---|---|---|---|---|---|
| waiver_summary.py:139 | The top-three line prints a literal '+' before the performance; waiver_summary.py:165 and waiver_report.py:285 do the same | A top-three waiver with relative performance -3 prints "+-3" | The sign is printed only for gains of 0 or more, as the bottom-three lines do at waiver_summary.py:145 | not executed | WaiverData.PlusPerformanceLoss | WaiverData.SignedPerformanceSign |
| print_table.py:38-43 | The column widths are the longest name and the longest points text, but the header still prints 'Team' and 'Points' in those columns | The one-row table ("Team A", 523) gets a 19-character header over a 16-character separator and row | Each column is at least as wide as its heading, so every line has the same width | not executed | PrintTable.HeaderOverhang | PrintTable.TableEven |
